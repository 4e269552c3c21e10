/** When locking and unlocking redraw the panel in full. */
module KernelRefresh {
  import opened Options
  import opened Geometry
  import opened KernelDisplay
  import F = Framebuffers

  /** Event `i` is the panel's answer that a draw in full, submitted as `id` or later, is done. */
  predicate LandsInFull(run: seq<Kernel>, events: seq<Event>, i: nat, id: RequestId)
    requires i < |events| < |run|
  {
    events[i] == Response(Drawn(true)) && FullOutstanding(run[i], id)
  }

  predicate FullOutstanding(k: Kernel, id: RequestId) {
    k.outstanding != [] && k.outstanding[0].0 >= id
    && k.outstanding[0].1.DrawPanel? && k.outstanding[0].1.flush.Full?
  }

  ghost predicate SomeLands(run: seq<Kernel>, events: seq<Event>, id: RequestId)
    requires |events| < |run|
  {
    exists i :: 0 <= i < |events| && LandsInFull(run, events, i, id)
  }

  /**
   After the lock key at `k`, whether it locks or unlocks, and whatever follows without another: once
   the display is idle, the panel has been drawn in full by a request made since.
   */
  ghost predicate RefreshesInFull(k: Kernel) {
    forall run: seq<Kernel>, events: seq<Event> ::
      LockedRun(k, run, events) && IsIdle(run[|events|].display) ==> SomeLands(run, events, k.nextId)
  }

  // ----- With no full draw in flight

  /** The panel is not known, and a full draw under way is one submitted as `id` or later. */
  ghost predicate FullDue(z: Kernel, id: RequestId) {
    !z.display.fb.known && id <= z.nextId && (F.FullInFlight(z.display.fb) ==> FullOutstanding(z, id))
  }

  lemma PumpFullDue(b: Kernel, c: Kernel, id: RequestId)
    requires KernelInv(b) && FullDue(b, id) && Pumped(b, c)
    ensures FullDue(c, id)
  {
    var sent :| Pumps(b.display, b.nextId, b.now, c.display, sent)
                && c == if sent.None? then b.(display := c.display)
                        else b.(display := c.display, nextId := b.nextId + 1,
                                outstanding := b.outstanding + [(b.nextId, sent.value)]);
    if b.outstanding == [] && sent.Some? {
      assert c.outstanding[0] == (b.nextId, sent.value);
    }
  }

  lemma LockFullDue(k: Kernel, c: Kernel)
    requires KernelInv(k) && !F.FullInFlight(k.display.fb) && StepTo(k, LockKey, c)
    ensures FullDue(c, k.nextId)
  {
    var b :| Reacts(k, LockKey, b) && F.ValidFb(b.display.fb) && Pumped(b, c);
    LockKeeps(k, b);
    PumpFullDue(b, c, k.nextId);
  }

  lemma ReactFullDue(a: Kernel, e: Event, b: Kernel, id: RequestId)
    requires KernelInv(a) && FullDue(a, id) && Reacts(a, e, b)
    ensures FullDue(b, id) || (e == Response(Drawn(true)) && FullOutstanding(a, id))
  {
  }

  lemma StepFullDue(a: Kernel, e: Event, c: Kernel, id: RequestId)
    requires KernelInv(a) && FullDue(a, id) && StepTo(a, e, c)
    ensures FullDue(c, id) || (e == Response(Drawn(true)) && FullOutstanding(a, id))
  {
    var b :| Reacts(a, e, b) && F.ValidFb(b.display.fb) && if PumpsAfter(e) then Pumped(b, c) else c == b;
    ReactionKeeps(a, e, b);
    ReactFullDue(a, e, b, id);
    if FullDue(b, id) && PumpsAfter(e) {
      PumpFullDue(b, c, id);
    }
  }

  lemma {:induction false} DueOrLanded(k: Kernel, run: seq<Kernel>, events: seq<Event>, i: nat)
    requires KernelInv(k) && !F.FullInFlight(k.display.fb) && LockedRun(k, run, events) && 0 < i <= |events|
    ensures KernelInv(run[i]) && (FullDue(run[i], k.nextId) || SomeLands(run, events, k.nextId))
    decreases i
  {
    assert StepsAt(run, events, i - 1);
    if i == 1 {
      StepKeepsKernel(k, LockKey, run[1]);
      LockFullDue(k, run[1]);
    } else {
      DueOrLanded(k, run, events, i - 1);
      StepKeepsKernel(run[i - 1], events[i - 1], run[i]);
      if FullDue(run[i - 1], k.nextId) {
        StepFullDue(run[i - 1], events[i - 1], run[i], k.nextId);
        assert FullDue(run[i], k.nextId) || LandsInFull(run, events, i - 1, k.nextId);
      }
    }
  }

  // ----- With a full draw in flight

  lemma PumpsSomehow(b: Kernel) returns (c: Kernel)
    requires F.ValidFb(b.display.fb)
    ensures Pumped(b, c)
  {
    var d, sent: Option<PanelRequest> := b.display, None;
    if d.inFlight.None? {
      var fb, flush := F.BeginsSomehow(d.fb);
      if flush.Some? {
        sent := Some(DrawPanel(flush.value));
        d := d.(fb := fb, inFlight := Some((b.nextId, Draw)));
      } else if PowerOffDue(d, b.now) {
        sent := Some(SwitchOff);
        d := d.(fb := fb, inFlight := Some((b.nextId, PowerOff)));
      } else {
        d := d.(fb := fb);
      }
    }
    assert Pumps(b.display, b.nextId, b.now, d, sent);
    c := if sent.None? then b.(display := d)
         else b.(display := d, nextId := b.nextId + 1, outstanding := b.outstanding + [(b.nextId, sent.value)]);
  }

  /** The panel known and nothing left to draw but what is on its way, which is not a full draw. */
  ghost predicate Finishing(z: Kernel) {
    KernelInv(z) && Settled(z) && z.display.fb.known && z.display.fb.dirty.None? && !F.FullInFlight(z.display.fb)
  }

  lemma PumpFinishes(b: Kernel) returns (c: Kernel)
    requires KernelInv(b) && b.display.fb.known && b.outstanding == []
    ensures Pumped(b, c) && Finishing(c)
    ensures b.display.fb.dirty.None? ==> c.outstanding == [] || SwitchingOff(c)
  {
    c := PumpsSomehow(b);
    PumpKeeps(b, c);
  }

  /** The request in flight goes well. */
  lemma Answered(z: Kernel) returns (e: Event, b: Kernel)
    requires KernelInv(z) && z.outstanding != []
    ensures e == Response(if SwitchingOff(z) then PoweredOff(true) else Drawn(true))
    ensures Reacts(z, e, b) && KernelInv(b) && b.outstanding == [] && b.display.fb.dirty == z.display.fb.dirty
    ensures b.display.fb.known == (z.display.fb.known || F.FullInFlight(z.display.fb))
  {
    var response := if SwitchingOff(z) then PoweredOff(true) else Drawn(true);
    e := Response(response);
    var d := Responded(z.display, z.outstanding[0].0, response, z.now);
    b := z.(display := d, outstanding := z.outstanding[1..], offFailed := false,
            powered := !SwitchingOff(z) && z.powered,
            panel := if SwitchingOff(z) then z.panel else F.Patched(z.panel, z.outstanding[0].1.flush));
    ResponseKeeps(z, response, b);
  }

  lemma NextAnswer(z: Kernel) returns (e: Event, c: Kernel)
    requires KernelInv(z) && z.outstanding != [] && (z.display.fb.known || F.FullInFlight(z.display.fb))
    ensures e.Response? && e != Response(PoweredOff(false)) && StepTo(z, e, c) && Finishing(c)
    ensures z.display.fb.dirty.None? ==> c.outstanding == [] || SwitchingOff(c)
    ensures SwitchingOff(z) && z.display.fb.dirty.None? ==> c.outstanding == []
  {
    var b: Kernel;
    e, b := Answered(z);
    c := PumpFinishes(b);
  }

  lemma FinishedIsIdle(z: Kernel)
    requires Finishing(z) && z.outstanding == []
    ensures IsIdle(z.display)
  {
  }

  /** A run in which no full draw made since has landed goes on so. */
  lemma LandsNone(run: seq<Kernel>, events: seq<Event>, e: Event, c: Kernel, id: RequestId)
    requires |run| == |events| + 1 && !SomeLands(run, events, id) && !FullOutstanding(run[|events|], id)
    ensures !SomeLands(run + [c], events + [e], id)
  {
    var states, all := run + [c], events + [e];
    forall i | 0 <= i < |all|
      ensures !LandsInFull(states, all, i, id)
    {
      if i < |events| {
        assert LandsInFull(states, all, i, id) <==> LandsInFull(run, events, i, id);
      }
    }
  }

  lemma {:induction false} Finish(k: Kernel, run: seq<Kernel>, events: seq<Event>, left: nat)
    returns (longer: seq<Kernel>, later: seq<Event>)
    requires LockedRun(k, run, events) && !SomeLands(run, events, k.nextId) && Finishing(run[|events|])
    requires var z := run[|events|]; left >= if z.outstanding == [] then 0 else if SwitchingOff(z) then 1 else 2
    ensures LockedRun(k, longer, later) && IsIdle(longer[|later|].display) && !SomeLands(longer, later, k.nextId)
    decreases left
  {
    var z := run[|events|];
    if z.outstanding == [] {
      FinishedIsIdle(z);
      longer, later := run, events;
    } else {
      var e, c := NextAnswer(z);
      LockGoesOn(k, run, events, e, c);
      LandsNone(run, events, e, c, k.nextId);
      longer, later := Finish(k, run + [c], events + [e], left - 1);
    }
  }

  /** The lock key while a full draw is in flight: the whole screen drawn anew, and nothing submitted. */
  lemma KeyPressed(k: Kernel) returns (a: Kernel)
    requires KernelInv(k) && F.FullInFlight(k.display.fb)
    ensures StepTo(k, LockKey, a) && KernelInv(a)
    ensures F.FullInFlight(a.display.fb) && a.outstanding != [] && !FullOutstanding(a, k.nextId)
  {
    var d := k.display;
    var whole := Some(F.Box(0, 0, WIDTH, HEIGHT));
    if k.locked {
      var fb := F.Invalidated(d.fb).(dirty := whole);
      assert F.Draws(F.Invalidated(d.fb), fb);
      a := k.(locked := false, display := d.(fb := fb));
    } else {
      a := LockReacts(k);
    }
    assert OnLockKey(k, a);
    assert Pumps(a.display, a.nextId, a.now, a.display, None);
    assert Pumped(a, a);
    StepKeepsKernel(k, LockKey, a);
  }

  /** The key, and the full draw of before ending well. */
  lemma OldFullLands(k: Kernel) returns (run: seq<Kernel>, events: seq<Event>)
    requires KernelInv(k) && F.FullInFlight(k.display.fb)
    ensures LockedRun(k, run, events) && Finishing(run[|events|]) && !SomeLands(run, events, k.nextId)
  {
    var a := KeyPressed(k);
    var e, c := NextAnswer(a);
    run, events := OnlyKey(k, a);
    LockGoesOn(k, run, events, e, c);
    LandsNone(run, events, e, c, k.nextId);
    run, events := run + [c], events + [e];
  }

  lemma OnlyKey(k: Kernel, a: Kernel) returns (run: seq<Kernel>, events: seq<Event>)
    requires StepTo(k, LockKey, a)
    ensures LockedRun(k, run, events) && run[|events|] == a && !SomeLands(run, events, k.nextId)
  {
    LockBegins(k, a);
    run, events := [k, a], [LockKey];
  }

  lemma NoFreshFull(k: Kernel) returns (run: seq<Kernel>, events: seq<Event>)
    requires KernelInv(k) && F.FullInFlight(k.display.fb)
    ensures LockedRun(k, run, events) && IsIdle(run[|events|].display) && !SomeLands(run, events, k.nextId)
  {
    var first, before := OldFullLands(k);
    run, events := Finish(k, first, before, 2);
  }

  /**
   Locking and unlocking redraw the panel in full, whatever follows, if and only if no full draw is
   in flight when the key comes.
   */
  lemma RefreshesInFullExactlyWhen(k: Kernel)
    requires KernelInv(k)
    ensures RefreshesInFull(k) <==> !F.FullInFlight(k.display.fb)
  {
    if F.FullInFlight(k.display.fb) {
      var run, events := NoFreshFull(k);
    } else {
      forall run: seq<Kernel>, events: seq<Event> |
        LockedRun(k, run, events) && IsIdle(run[|events|].display)
        ensures SomeLands(run, events, k.nextId)
      {
        DueOrLanded(k, run, events, |events|);
      }
    }
  }
}
