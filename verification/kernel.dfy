/**
 The kernel's display service: at most one request to the panel at a time, the panel's drive
 voltages off when idle, and the lock. `Display` is the service as a value; `DisplayService` is the
 one that runs.
 */
module KernelDisplay {
  import opened Options
  import opened Geometry
  import opened Framebuffers

  type Millis = nat
  type RequestId = nat

  const PANEL_IDLE_MS: Millis := 1000

  datatype Op = Draw | PowerOff

  datatype PanelRequest = DrawPanel(flush: Flush) | SwitchOff

  datatype PanelResponse = Drawn(ok: bool) | PoweredOff(ok: bool)

  datatype Display = Display(fb: Fb, inFlight: Option<(RequestId, Op)>, panelOn: bool, powerOffNow: bool,
                             lastDraw: Millis)

  /** Whether the drive voltages are due to go off. */
  predicate PowerOffDue(d: Display, now: Millis) {
    d.panelOn && (d.powerOffNow || now >= d.lastDraw + PANEL_IDLE_MS)
  }

  /** `b` and `sent` are what `pump` makes of `a`, with `id` the next request id. */
  ghost predicate Pumps(a: Display, id: RequestId, now: Millis, b: Display, sent: Option<PanelRequest>)
    requires ValidFb(a.fb)
  {
    if a.inFlight.Some? then b == a && sent.None?
    else
      match sent
      case Some(DrawPanel(flush)) =>
        Begins(a.fb, b.fb, Some(flush)) && b == a.(fb := b.fb, inFlight := Some((id, Draw)))
      case Some(SwitchOff) =>
        Begins(a.fb, b.fb, None) && PowerOffDue(a, now) && b == a.(fb := b.fb, inFlight := Some((id, PowerOff)))
      case None =>
        Begins(a.fb, b.fb, None) && !PowerOffDue(a, now) && b == a.(fb := b.fb)
  }

  function Responded(d: Display, id: RequestId, response: PanelResponse, now: Millis): Display
    requires d.fb.inFlight.Some? && d.fb.inFlight.value.Partial? ==> ValidRegion(d.fb.inFlight.value.region)
  {
    if d.inFlight.None? || d.inFlight.value.0 != id then d
    else
      match d.inFlight.value.1
      case Draw => d.(inFlight := None, fb := EndFlush(d.fb, response == Drawn(true)), panelOn := true, lastDraw := now)
      case PowerOff => d.(inFlight := None, panelOn := false, powerOffNow := false)
  }

  /** Nothing in flight, nothing left to draw or power off. */
  predicate IsIdle(d: Display) {
    d.inFlight.None? && !NeedsFlush(d.fb) && !(d.panelOn && d.powerOffNow)
  }

  function DeadlineOf(d: Display): Option<Millis> {
    if d.inFlight.None? && d.panelOn then Some(d.lastDraw + PANEL_IDLE_MS) else None
  }

  // ----- The service as it runs

  class PanelPort {
    var nextId: RequestId
    ghost var sent: seq<(RequestId, PanelRequest)>

    constructor ()
      ensures nextId == 0 && sent == []
    {
      nextId, sent := 0, [];
    }

    method Submit(request: PanelRequest) returns (id: RequestId)
      modifies this
      ensures id == old(nextId) && nextId == id + 1 && sent == old(sent) + [(id, request)]
    {
      id := nextId;
      sent := sent + [(id, request)];
      nextId := nextId + 1;
    }
  }

  class DisplayService {
    const fb: FrameBuffer
    var inFlight: Option<(RequestId, Op)>
    var panelOn: bool
    var powerOffNow: bool
    var lastDraw: Millis

    ghost function Value(): Display
      reads this, fb, fb.desired, fb.committed
      requires fb.Valid()
    {
      Display(fb.Value(), inFlight, panelOn, powerOffNow, lastDraw)
    }

    constructor ()
      ensures fb.Valid() && Value() == Display(Boot(), None, false, false, 0)
    {
      fb := new FrameBuffer();
      inFlight, panelOn, powerOffNow, lastDraw := None, false, false, 0;
    }

    method Pump(spi: PanelPort, now: Millis) returns (ghost request: Option<PanelRequest>)
      requires fb.Valid()
      modifies this`inFlight, fb`dirty, fb`inFlight, spi
      ensures fb.Valid() && Pumps(old(Value()), old(spi.nextId), now, Value(), request)
      ensures spi.sent == old(spi.sent) + if request.Some? then [(old(spi.nextId), request.value)] else []
      ensures spi.nextId == old(spi.nextId) + if request.Some? then 1 else 0
    {
      request := None;
      if inFlight.Some? {
        return;
      }
      var flush := fb.BeginFlush();
      if flush.Some? {
        request := Some(DrawPanel(flush.value));
        var id := spi.Submit(DrawPanel(flush.value));
        inFlight := Some((id, Draw));
      } else if panelOn && (powerOffNow || now >= lastDraw + PANEL_IDLE_MS) {
        request := Some(SwitchOff);
        var id := spi.Submit(SwitchOff);
        inFlight := Some((id, PowerOff));
      }
    }

    method OnResponse(id: RequestId, response: PanelResponse, now: Millis)
      requires fb.Valid()
      modifies this, fb`known, fb`inFlight, fb.committed
      ensures fb.Valid() && Value() == Responded(old(Value()), id, response, now)
    {
      if inFlight.None? {
        return;
      }
      var (expected, op) := inFlight.value;
      if id != expected {
        return;
      }
      inFlight := None;
      match op {
        case Draw =>
          fb.FinishFlush(response == Drawn(true));
          panelOn := true;
          lastDraw := now;
        case PowerOff =>
          panelOn := false;
          powerOffNow := false;
      }
    }

    method Idle() returns (r: bool)
      requires fb.Valid()
      ensures r <==> IsIdle(Value())
    {
      r := inFlight.None? && !(fb.inFlight.None? && (!fb.known || fb.dirty.Some?)) && !(panelOn && powerOffNow);
    }

    method Deadline() returns (r: Option<Millis>)
      requires fb.Valid()
      ensures r == DeadlineOf(Value())
    {
      r := if inFlight.None? && panelOn then Some(lastDraw + PANEL_IDLE_MS) else None;
    }
  }

  // ----- The kernel, the panel and the user, over runs

  /**
   The kernel, the panel requests submitted and not yet answered, oldest first, what the panel really
   shows, and whether its drive voltages may really be on. `lockImage` is the lockscreen. History:
   `offFailed`, the latest power-off failed and no draw was answered since; `lockedMidOff`, a power-off
   was in flight when the kernel was last locked.
   */
  datatype Kernel = Kernel(
    display: Display,
    locked: bool,
    now: Millis,
    nextId: RequestId,
    outstanding: seq<(RequestId, PanelRequest)>,
    panel: Buffer,
    powered: bool,
    lockImage: Buffer,
    offFailed: bool,
    lockedMidOff: bool)

  datatype Event =
    | LockKey
    | OtherKey
    | Response(response: PanelResponse)
    | DeadlineDue
    | Redraw
    | Output
    | Elapse(ms: nat)

  /** Drawing into the framebuffer, in any way. */
  ghost predicate DrawsInto(a: Display, b: Display) {
    Draws(a.fb, b.fb) && b == a.(fb := b.fb)
  }

  /** The panel is switching its drive voltages off. */
  predicate SwitchingOff(k: Kernel) {
    k.outstanding != [] && k.outstanding[0].1.SwitchOff?
  }

  ghost predicate OnLockKey(a: Kernel, b: Kernel) {
    if a.locked then
      exists fb :: Draws(Invalidated(a.display.fb), fb)
                   && b == a.(locked := false, display := a.display.(fb := fb))
    else
      exists fb :: Draws(a.display.fb, fb) && fb.desired == a.lockImage
                   && b == a.(locked := true, lockedMidOff := SwitchingOff(a),
                              display := a.display.(fb := Invalidated(fb), powerOffNow := true))
  }

  /**
   A key other than Alt+L: ignored while locked; otherwise a program may draw, and may ask for the
   goodbye power-off.
   */
  ghost predicate OnOtherKey(a: Kernel, b: Kernel) {
    if a.locked then b == a
    else
      && (a.display.powerOffNow ==> b.display.powerOffNow)
      && Draws(a.display.fb, b.display.fb)
      && b == a.(display := a.display.(fb := b.display.fb, powerOffNow := b.display.powerOffNow))
  }

  ghost predicate OnOutput(a: Kernel, b: Kernel) {
    if a.locked then b == a
    else DrawsInto(a.display, b.display) && b == a.(display := b.display)
  }

  /** The panel answers the oldest request; a failed draw may leave anything on it. */
  ghost predicate OnPanelResponse(a: Kernel, response: PanelResponse, b: Kernel)
    requires ValidFb(a.display.fb)
  {
    && a.outstanding != []
    && (match a.outstanding[0].1
        case DrawPanel(flush) =>
          && response.Drawn?
          && (flush.Partial? ==> ValidRegion(flush.region))
          && (response.ok ==> b.panel == Patched(a.panel, flush))
          && !b.offFailed
        case SwitchOff =>
          && response.PoweredOff?
          && b.panel == a.panel
          && b.powered == (!response.ok && a.powered)
          && b.offFailed == !response.ok)
    && b == a.(display := Responded(a.display, a.outstanding[0].0, response, a.now), outstanding := a.outstanding[1..],
               panel := b.panel, powered := b.powered, offFailed := b.offFailed)
  }

  ghost predicate Pumped(b: Kernel, c: Kernel)
    requires ValidFb(b.display.fb)
  {
    exists sent ::
      Pumps(b.display, b.nextId, b.now, c.display, sent)
      && c == if sent.None? then b.(display := c.display)
              else b.(display := c.display, nextId := b.nextId + 1,
                      outstanding := b.outstanding + [(b.nextId, sent.value)])
  }

  /** What the event itself does, before the display is pumped. */
  ghost predicate Reacts(a: Kernel, e: Event, b: Kernel)
    requires ValidFb(a.display.fb)
  {
    match e
    case LockKey => OnLockKey(a, b)
    case OtherKey => OnOtherKey(a, b)
    case Response(response) => OnPanelResponse(a, response, b)
    case DeadlineDue => b == a
    case Redraw => OnOutput(a, b)
    case Output => OnOutput(a, b)
    case Elapse(ms) => b == a.(now := a.now + ms)
  }

  /** Unlocked, any drawing at all may follow a key or output, and a key may ask for the power-off; locked, none. */
  lemma AnyDrawingMayFollow(a: Kernel, fb: Fb, off: bool)
    requires ValidFb(a.display.fb) && Draws(a.display.fb, fb)
    ensures !a.locked ==>
              && Reacts(a, OtherKey, a.(display := a.display.(fb := fb, powerOffNow := off || a.display.powerOffNow)))
              && Reacts(a, Output, a.(display := a.display.(fb := fb)))
              && Reacts(a, Redraw, a.(display := a.display.(fb := fb)))
    ensures a.locked ==>
              forall e: Event, b: Kernel :: e in {OtherKey, Output, Redraw} && Reacts(a, e, b) ==> b == a
  {
  }

  predicate PumpsAfter(e: Event) {
    !e.Output? && !e.Elapse?
  }

  ghost predicate StepTo(a: Kernel, e: Event, c: Kernel) {
    && ValidFb(a.display.fb)
    && exists b :: Reacts(a, e, b) && ValidFb(b.display.fb) && if PumpsAfter(e) then Pumped(b, c) else c == b
  }

  ghost predicate Initial(k: Kernel) {
    && Draws(Boot(), k.display.fb)
    && k.display == Display(k.display.fb, None, false, false, 0)
    && !k.locked && k.outstanding == [] && !k.powered && !k.offFailed && !k.lockedMidOff
  }

  /** At most one request, as the kernel, the framebuffer and the panel port each know it. */
  ghost predicate OneInFlight(k: Kernel) {
    var d := k.display;
    && |k.outstanding| <= 1
    && (k.outstanding == [] ==> d.inFlight.None? && d.fb.inFlight.None?)
    && (k.outstanding != [] ==>
          && k.outstanding[0].0 < k.nextId
          && d.inFlight == Some((k.outstanding[0].0, if k.outstanding[0].1.DrawPanel? then Draw else PowerOff))
          && d.fb.inFlight == if k.outstanding[0].1.DrawPanel? then Some(k.outstanding[0].1.flush) else None)
  }

  /** Locked with no power-off under way at the time: the power-off is still to come, or done for good. */
  ghost predicate LockPowersOff(k: Kernel) {
    k.locked && !k.lockedMidOff ==>
      || (k.display.powerOffNow
          && (k.outstanding != [] && k.outstanding[0].1.SwitchOff? ==> !NeedsFlush(k.display.fb)))
      || (!k.display.panelOn && k.outstanding == [] && !NeedsFlush(k.display.fb))
  }

  ghost predicate KernelInv(k: Kernel) {
    && Coherent(Shown(k.display.fb, k.panel))
    && OneInFlight(k)
    && (k.locked ==> k.display.fb.desired == k.lockImage)
    && (k.powered ==> k.display.panelOn || k.offFailed || (k.outstanding != [] && k.outstanding[0].1.DrawPanel?))
    && LockPowersOff(k)
  }

  lemma DrawingKeeps(s: Shown, fb: Fb)
    requires Coherent(s) && Draws(s.fb, fb)
    ensures Coherent(Shown(fb, s.panel)) && Coherent(Shown(Invalidated(fb), s.panel))
  {
    StepKeeps(s, Shown(fb, s.panel));
    StepKeeps(Shown(fb, s.panel), Shown(Invalidated(fb), s.panel));
  }

  lemma LockKeeps(a: Kernel, b: Kernel)
    requires KernelInv(a) && OnLockKey(a, b)
    ensures KernelInv(b)
  {
    var fb, panel := a.display.fb, a.panel;
    StepKeeps(Shown(fb, panel), Shown(Invalidated(fb), panel));
    if a.locked {
      DrawingKeeps(Shown(Invalidated(fb), panel), b.display.fb);
    } else {
      var drawn :| Draws(fb, drawn) && drawn.desired == a.lockImage
                   && b == a.(locked := true,
                              lockedMidOff := SwitchingOff(a),
                              display := a.display.(fb := Invalidated(drawn), powerOffNow := true));
      DrawingKeeps(Shown(fb, panel), drawn);
    }
  }

  lemma ResponseKeeps(a: Kernel, response: PanelResponse, b: Kernel)
    requires KernelInv(a) && OnPanelResponse(a, response, b)
    ensures KernelInv(b)
  {
    if a.outstanding[0].1.DrawPanel? {
      StepKeeps(Shown(a.display.fb, a.panel), Shown(b.display.fb, b.panel));
    }
  }

  lemma ReactionKeeps(a: Kernel, e: Event, b: Kernel)
    requires KernelInv(a) && Reacts(a, e, b)
    ensures KernelInv(b)
  {
    match e
    case LockKey => LockKeeps(a, b);
    case Response(response) => ResponseKeeps(a, response, b);
    case OtherKey => if !a.locked { DrawingKeeps(Shown(a.display.fb, a.panel), b.display.fb); }
    case Redraw => if !a.locked { DrawingKeeps(Shown(a.display.fb, a.panel), b.display.fb); }
    case Output => if !a.locked { DrawingKeeps(Shown(a.display.fb, a.panel), b.display.fb); }
    case _ =>
  }

  /** After the pump: something is in flight, or the picture is complete and no power-off is due. */
  ghost predicate Settled(k: Kernel) {
    k.outstanding != [] || (!NeedsFlush(k.display.fb) && !PowerOffDue(k.display, k.now))
  }

  lemma PumpKeeps(b: Kernel, c: Kernel)
    requires KernelInv(b) && Pumped(b, c)
    ensures KernelInv(c) && Settled(c)
  {
    var sent :| Pumps(b.display, b.nextId, b.now, c.display, sent)
                && c == if sent.None? then b.(display := c.display)
                        else b.(display := c.display, nextId := b.nextId + 1,
                                outstanding := b.outstanding + [(b.nextId, sent.value)]);
    if b.outstanding == [] {
      var flush := if sent.Some? && sent.value.DrawPanel? then Some(sent.value.flush) else None;
      BeginKeeps(Shown(b.display.fb, b.panel), Shown(c.display.fb, c.panel), flush);
    }
  }

  lemma StepKeepsKernel(a: Kernel, e: Event, c: Kernel)
    requires KernelInv(a) && StepTo(a, e, c)
    ensures KernelInv(c) && (PumpsAfter(e) ==> Settled(c))
  {
    var b :| Reacts(a, e, b) && ValidFb(b.display.fb) && if PumpsAfter(e) then Pumped(b, c) else c == b;
    ReactionKeeps(a, e, b);
    if PumpsAfter(e) {
      PumpKeeps(b, c);
    }
  }

  /** The kernel's states in order, each reached from the one before by an event. */
  ghost predicate IsRun(run: seq<Kernel>, events: seq<Event>) {
    |run| == |events| + 1 && Initial(run[0]) && forall k :: 0 <= k < |events| ==> StepsAt(run, events, k)
  }

  ghost predicate StepsAt(run: seq<Kernel>, events: seq<Event>, k: nat)
    requires k < |events| && k + 1 < |run|
  {
    StepTo(run[k], events[k], run[k + 1])
  }

  lemma RunPrefix(run: seq<Kernel>, events: seq<Event>)
    requires IsRun(run, events) && events != []
    ensures IsRun(run[..|events|], events[..|events| - 1])
    ensures StepTo(run[|events| - 1], events[|events| - 1], run[|events|])
  {
    var n := |events| - 1;
    var states, earlier := run[..n + 1], events[..n];
    forall k | 0 <= k < n
      ensures StepsAt(states, earlier, k)
    {
      assert StepsAt(run, events, k);
    }
    assert StepsAt(run, events, n);
  }

  lemma {:induction false} Safety(run: seq<Kernel>, events: seq<Event>)
    requires IsRun(run, events)
    ensures KernelInv(run[|events|])
    decreases |events|
  {
    if events != [] {
      var n := |events| - 1;
      RunPrefix(run, events);
      Safety(run[..n + 1], events[..n]);
      StepKeepsKernel(run[n], events[n], run[n + 1]);
    } else {
      DrawingKeeps(Shown(Boot(), run[0].panel), run[0].display.fb);
    }
  }

  /**
   In every reachable state at most one request is submitted and not answered, and the kernel's, the
   framebuffer's and the port's idea of it agree, so a flush is begun only with none in flight, ended
   only with one, and every response carries the id expected. While locked the desired picture is the
   lockscreen. An idle display means the panel shows the desired picture.
   */
  lemma DisplayProtocol(run: seq<Kernel>, events: seq<Event>)
    requires IsRun(run, events)
    ensures var k := run[|events|];
            && |k.outstanding| <= 1
            && (k.outstanding != [] <==> k.display.inFlight.Some?)
            && (k.outstanding != [] ==> k.display.inFlight.value.0 == k.outstanding[0].0)
            && (k.display.fb.inFlight.Some? <==> k.display.inFlight.Some? && k.display.inFlight.value.1 == Draw)
            && (k.locked ==> k.display.fb.desired == k.lockImage)
            && (IsIdle(k.display) ==> k.panel == k.display.fb.desired)
            && (IsIdle(k.display) && k.locked ==> k.panel == k.lockImage)
  {
    Safety(run, events);
    var k := run[|events|];
    if IsIdle(k.display) {
      BuffersEqual(k.display.fb.desired, k.display.fb.committed);
    }
  }

  /**
   After every handled event a request is in flight, or a deadline still to come is set, or the
   panel shows the desired picture with its drive voltages off (unless a power-off failed).
   */
  lemma NothingForgotten(run: seq<Kernel>, events: seq<Event>)
    requires IsRun(run, events) && events != [] && PumpsAfter(events[|events| - 1])
    ensures var k := run[|events|];
            || k.outstanding != []
            || (DeadlineOf(k.display).Some? && k.now < DeadlineOf(k.display).value && k.panel == k.display.fb.desired)
            || (k.panel == k.display.fb.desired && !k.display.panelOn && (k.powered ==> k.offFailed))
  {
    var n := |events| - 1;
    RunPrefix(run, events);
    Safety(run[..n + 1], events[..n]);
    StepKeepsKernel(run[n], events[n], run[n + 1]);
    var k := run[n + 1];
    if k.outstanding == [] {
      BuffersEqual(k.display.fb.desired, k.display.fb.committed);
    }
  }

  /**
   A deadline is set exactly with nothing in flight and the panel on, a second after the last draw.
   With nothing to draw and no power-off asked for, pumping sends the power-off exactly from then on.
   */
  lemma IdlePowerOffAtDeadline(k: Kernel, c: Kernel)
    requires KernelInv(k) && Pumped(k, c)
    ensures DeadlineOf(k.display) ==
            if k.outstanding == [] && k.display.panelOn then Some(k.display.lastDraw + 1000) else None
    ensures k.outstanding == [] && k.display.panelOn && !NeedsFlush(k.display.fb) && !k.display.powerOffNow ==>
              (SwitchingOff(c) <==> k.now >= k.display.lastDraw + 1000) && (!SwitchingOff(c) ==> c == k)
  {
  }

  // ----- Locking and the drive voltages

  /**
   Locked, idle, and no power-off was in flight when the lock key came: the kernel takes the panel as
   off, and its drive voltages are off unless the latest power-off failed.
   */
  lemma LockedIdleIsOff(run: seq<Kernel>, events: seq<Event>)
    requires IsRun(run, events)
    requires var k := run[|events|]; k.locked && IsIdle(k.display) && !k.lockedMidOff
    ensures var k := run[|events|]; !k.display.panelOn && (k.powered ==> k.offFailed)
  {
    Safety(run, events);
  }

  /** From `k` the lock key, and then anything but the lock key. */
  ghost predicate LockedRun(k: Kernel, run: seq<Kernel>, events: seq<Event>) {
    && |run| == |events| + 1 && run[0] == k
    && events != [] && events[0] == LockKey
    && (forall i :: 0 < i < |events| ==> events[i] != LockKey)
    && (forall i :: 0 <= i < |events| ==> StepsAt(run, events, i))
  }

  predicate NoneFails(events: seq<Event>) {
    forall i :: 0 <= i < |events| ==> events[i] != Response(PoweredOff(false))
  }

  /** Locking at `k` leaves the drive voltages off whenever the display is idle, failing power-offs included or not. */
  ghost predicate LockTurnsOff(k: Kernel, mayFail: bool) {
    forall run: seq<Kernel>, events: seq<Event> ::
      LockedRun(k, run, events) && (mayFail || NoneFails(events)) && IsIdle(run[|events|].display) ==>
        !run[|events|].powered
  }

  /** Locked with no power-off in flight, and none failed that no draw has made up for. */
  ghost predicate LockedClean(z: Kernel) {
    && KernelInv(z) && z.locked && !z.lockedMidOff
    && (z.offFailed ==> z.outstanding != [] && z.outstanding[0].1.DrawPanel?)
  }

  lemma LockStepClean(k: Kernel, c: Kernel)
    requires KernelInv(k) && !k.locked && !SwitchingOff(k) && StepTo(k, LockKey, c)
    ensures LockedClean(c)
  {
    StepKeepsKernel(k, LockKey, c);
  }

  lemma LockedStepClean(a: Kernel, e: Event, c: Kernel)
    requires LockedClean(a) && e != LockKey && e != Response(PoweredOff(false)) && StepTo(a, e, c)
    ensures LockedClean(c)
  {
    StepKeepsKernel(a, e, c);
  }

  lemma {:induction false} LockedRunClean(k: Kernel, run: seq<Kernel>, events: seq<Event>, i: nat)
    requires KernelInv(k) && !k.locked && !SwitchingOff(k) && LockedRun(k, run, events) && NoneFails(events)
    requires 0 < i <= |events|
    ensures LockedClean(run[i])
    decreases i
  {
    assert StepsAt(run, events, i - 1);
    if i == 1 {
      LockStepClean(k, run[1]);
    } else {
      LockedRunClean(k, run, events, i - 1);
      LockedStepClean(run[i - 1], events[i - 1], run[i]);
    }
  }

  lemma CleanIdleIsOff(z: Kernel)
    requires LockedClean(z) && IsIdle(z.display)
    ensures !z.powered
  {
  }

  /**
   Locking leaves the drive voltages off, whatever follows, if and only if no power-off is in flight
   when the lock key comes and none fails afterwards.
   */
  lemma LockTurnsOffExactlyWhen(k: Kernel, mayFail: bool)
    requires KernelInv(k) && !k.locked
    ensures LockTurnsOff(k, mayFail) <==> !mayFail && !SwitchingOff(k)
  {
    if SwitchingOff(k) {
      var run, events := StaysOnRun(k);
    } else if mayFail {
      var run, events := FailedPowerOffStaysOn(k);
    } else {
      forall run: seq<Kernel>, events: seq<Event> |
        LockedRun(k, run, events) && NoneFails(events) && IsIdle(run[|events|].display)
        ensures !run[|events|].powered
      {
        LockedRunClean(k, run, events, |events|);
        CleanIdleIsOff(run[|events|]);
      }
    }
  }

  // ----- Locked while a power-off is in flight

  /**
   From every unlocked state with a power-off in flight, locking, that power-off succeeding and the
   lockscreen being drawn leaves the kernel locked and idle with the drive voltages still on until
   the idle deadline.
   */
  lemma LockDuringPowerOffStaysOn(k: Kernel) returns (a: Kernel, b: Kernel, c: Kernel)
    requires KernelInv(k) && !k.locked && SwitchingOff(k)
    ensures StepTo(k, LockKey, a) && StepTo(a, Response(PoweredOff(true)), b) && StepTo(b, Response(Drawn(true)), c)
    ensures c.locked && IsIdle(c.display) && c.display.panelOn && c.powered
    ensures DeadlineOf(c.display) == Some(c.now + 1000)
  {
    LockFacts(k);
    a := LockPressed(k);
    b, c := OffThenShown(a);
  }

  lemma LockBegins(k: Kernel, a: Kernel)
    requires StepTo(k, LockKey, a)
    ensures LockedRun(k, [k, a], [LockKey]) && NoneFails([LockKey])
  {
    assert StepsAt([k, a], [LockKey], 0);
  }

  lemma LockGoesOn(k: Kernel, run: seq<Kernel>, events: seq<Event>, e: Event, c: Kernel)
    requires LockedRun(k, run, events) && e != LockKey && StepTo(run[|events|], e, c)
    ensures LockedRun(k, run + [c], events + [e])
    ensures NoneFails(events) && e != Response(PoweredOff(false)) ==> NoneFails(events + [e])
  {
    var states, all := run + [c], events + [e];
    forall i | 0 <= i < |all|
      ensures StepsAt(states, all, i)
    {
      if i < |events| {
        assert StepsAt(run, events, i);
      }
    }
  }

  lemma StaysOnRun(k: Kernel) returns (run: seq<Kernel>, events: seq<Event>)
    requires KernelInv(k) && !k.locked && SwitchingOff(k)
    ensures LockedRun(k, run, events) && NoneFails(events)
    ensures var z := run[|events|]; z.locked && IsIdle(z.display) && z.display.panelOn && z.powered
  {
    var a, b, c := LockDuringPowerOffStaysOn(k);
    LockBegins(k, a);
    run, events := [k, a], [LockKey];
    LockGoesOn(k, run, events, Response(PoweredOff(true)), b);
    run, events := run + [b], events + [Response(PoweredOff(true))];
    LockGoesOn(k, run, events, Response(Drawn(true)), c);
    run, events := run + [c], events + [Response(Drawn(true))];
  }

  /** Locked, with the power-off still in flight that was when the key came. */
  ghost predicate LockedSwitchingOff(a: Kernel) {
    && ValidFb(a.display.fb) && !a.display.fb.known && a.display.fb.inFlight.None?
    && |a.outstanding| == 1 && a.outstanding[0].1.SwitchOff?
    && a.display.inFlight == Some((a.outstanding[0].0, PowerOff))
    && a.locked
  }

  lemma LockFacts(k: Kernel)
    requires KernelInv(k) && SwitchingOff(k)
    ensures ValidFb(k.display.fb) && k.display.fb.inFlight.None? && |k.outstanding| == 1
    ensures k.display.inFlight == Some((k.outstanding[0].0, PowerOff))
  {
  }

  lemma OffThenShown(a: Kernel) returns (b: Kernel, c: Kernel)
    requires LockedSwitchingOff(a)
    ensures StepTo(a, Response(PoweredOff(true)), b) && StepTo(b, Response(Drawn(true)), c)
    ensures c.locked && IsIdle(c.display) && c.display.panelOn && c.powered
    ensures DeadlineOf(c.display) == Some(c.now + 1000)
  {
    b := LockscreenDrawn(a);
    c := LockscreenShown(b);
  }

  /** The framebuffer with the lockscreen in it. */
  function LockPicture(k: Kernel): Fb {
    Invalidated(k.display.fb.(desired := k.lockImage, dirty := Some(Box(0, 0, WIDTH, HEIGHT))))
  }

  lemma LockReacts(k: Kernel) returns (m: Kernel)
    requires ValidFb(k.display.fb) && !k.locked
    ensures m == k.(locked := true, lockedMidOff := SwitchingOff(k),
                    display := k.display.(fb := LockPicture(k), powerOffNow := true))
    ensures Reacts(k, LockKey, m) && ValidFb(m.display.fb)
  {
    var fb := k.display.fb.(desired := k.lockImage, dirty := Some(Box(0, 0, WIDTH, HEIGHT)));
    assert Draws(k.display.fb, fb) && fb.desired == k.lockImage;
    m := k.(locked := true, lockedMidOff := SwitchingOff(k),
            display := k.display.(fb := Invalidated(fb), powerOffNow := true));
    assert OnLockKey(k, m);
  }

  lemma LockPressed(k: Kernel) returns (a: Kernel)
    requires ValidFb(k.display.fb) && !k.locked && |k.outstanding| == 1 && k.outstanding[0].1.SwitchOff?
    requires k.display.inFlight == Some((k.outstanding[0].0, PowerOff)) && k.display.fb.inFlight.None?
    ensures StepTo(k, LockKey, a)
    ensures LockedSwitchingOff(a)
  {
    a := LockReacts(k);
    assert Pumps(a.display, a.nextId, a.now, a.display, None);
    assert Pumped(a, a);
  }

  /** Locked, and the lockscreen is being drawn in full. */
  ghost predicate ShowingLockscreen(a: Kernel, powerOffNow: bool) {
    && ValidFb(a.display.fb) && a.locked && a.display.fb.dirty.None?
    && FullInFlight(a.display.fb)
    && |a.outstanding| == 1 && a.outstanding[0].1 == DrawPanel(a.display.fb.inFlight.value)
    && a.display.inFlight == Some((a.outstanding[0].0, Draw))
    && a.display.powerOffNow == powerOffNow
  }

  /** With nothing in flight and the panel unknown, the pump draws in full. */
  lemma PumpsFull(m: Kernel) returns (b: Kernel)
    requires ValidFb(m.display.fb) && !m.display.fb.known && m.display.fb.inFlight.None?
    requires m.display.inFlight.None? && m.outstanding == [] && m.locked
    ensures Pumped(m, b) && ShowingLockscreen(b, m.display.powerOffNow)
  {
    var d, full := m.display, Full(m.display.fb.desired);
    b := m.(display := d.(fb := d.fb.(dirty := None, inFlight := Some(full)), inFlight := Some((m.nextId, Draw))),
            nextId := m.nextId + 1, outstanding := [(m.nextId, DrawPanel(full))]);
    assert m.outstanding + [(m.nextId, DrawPanel(full))] == b.outstanding;
    assert Pumps(m.display, m.nextId, m.now, b.display, Some(DrawPanel(full)));
  }

  lemma LockscreenDrawn(a: Kernel) returns (b: Kernel)
    requires LockedSwitchingOff(a)
    ensures StepTo(a, Response(PoweredOff(true)), b) && ShowingLockscreen(b, false)
  {
    var d := Responded(a.display, a.outstanding[0].0, PoweredOff(true), a.now);
    var m := a.(display := d, outstanding := a.outstanding[1..], powered := false, offFailed := false);
    assert Reacts(a, Response(PoweredOff(true)), m);
    b := PumpsFull(m);
  }

  /** The lockscreen is on the panel, and its voltages are on. */
  lemma DrawAnswered(b: Kernel) returns (m: Kernel)
    requires ShowingLockscreen(b, b.display.powerOffNow)
    ensures Reacts(b, Response(Drawn(true)), m) && ValidFb(m.display.fb)
    ensures m.locked && m.now == b.now && m.outstanding == [] && m.powered
    ensures m.display == Display(m.display.fb, None, true, b.display.powerOffNow, b.now)
    ensures m.display.fb.known && m.display.fb.dirty.None? && m.display.fb.inFlight.None?
  {
    var d := Responded(b.display, b.outstanding[0].0, Drawn(true), b.now);
    m := b.(display := d, outstanding := b.outstanding[1..], panel := b.display.fb.inFlight.value.bytes,
            powered := true, offFailed := false);
  }

  lemma LockscreenShown(b: Kernel) returns (c: Kernel)
    requires ShowingLockscreen(b, false)
    ensures StepTo(b, Response(Drawn(true)), c)
    ensures c.locked && IsIdle(c.display) && c.display.panelOn && c.powered
    ensures DeadlineOf(c.display) == Some(c.now + 1000)
  {
    c := DrawAnswered(b);
    assert Pumps(c.display, c.nextId, c.now, c.display, None);
    assert Pumped(c, c);
  }

  // ----- A power-off that fails

  /** The lockscreen drawn, the power-off that follows fails: idle with the voltages on. */
  lemma ShownThenFailed(a: Kernel) returns (b: Kernel, c: Kernel)
    requires ShowingLockscreen(a, true)
    ensures StepTo(a, Response(Drawn(true)), b) && StepTo(b, Response(PoweredOff(false)), c)
    ensures c.locked && IsIdle(c.display) && c.powered && !c.display.panelOn && c.offFailed
  {
    var m := DrawAnswered(a);
    b := m.(display := m.display.(inFlight := Some((m.nextId, PowerOff))), nextId := m.nextId + 1,
            outstanding := [(m.nextId, SwitchOff)]);
    assert m.outstanding + [(m.nextId, SwitchOff)] == b.outstanding;
    assert Pumps(m.display, m.nextId, m.now, b.display, Some(SwitchOff));
    assert Pumped(m, b);
    c := OffAnsweredFailed(b);
  }

  lemma OffAnsweredFailed(b: Kernel) returns (c: Kernel)
    requires ValidFb(b.display.fb) && b.locked && b.powered
    requires b.display.fb.known && b.display.fb.dirty.None? && b.display.fb.inFlight.None?
    requires |b.outstanding| == 1 && b.outstanding[0].1.SwitchOff?
    requires b.display.inFlight == Some((b.outstanding[0].0, PowerOff))
    ensures StepTo(b, Response(PoweredOff(false)), c)
    ensures c.locked && IsIdle(c.display) && c.powered && !c.display.panelOn && c.offFailed
  {
    var d := Responded(b.display, b.outstanding[0].0, PoweredOff(false), b.now);
    c := b.(display := d, outstanding := b.outstanding[1..], offFailed := true);
    assert Reacts(b, Response(PoweredOff(false)), c);
    assert Pumps(c.display, c.nextId, c.now, c.display, None);
    assert Pumped(c, c);
  }

  lemma LockDrawsAtOnce(k: Kernel) returns (a: Kernel)
    requires KernelInv(k) && !k.locked && k.outstanding == []
    ensures StepTo(k, LockKey, a) && ShowingLockscreen(a, true)
  {
    var m := LockReacts(k);
    a := PumpsFull(m);
  }

  /** A draw in flight at the lock that fails is followed by the lockscreen in full. */
  lemma LockDrawsNext(k: Kernel) returns (m: Kernel, a: Kernel)
    requires KernelInv(k) && !k.locked && k.outstanding != [] && k.outstanding[0].1.DrawPanel?
    ensures StepTo(k, LockKey, m) && StepTo(m, Response(Drawn(false)), a) && ShowingLockscreen(a, true)
  {
    m := LockReacts(k);
    assert Pumps(m.display, m.nextId, m.now, m.display, None);
    assert Pumped(m, m);
    a := DrawFailedThenFull(m);
  }

  lemma DrawFailedThenFull(m: Kernel) returns (a: Kernel)
    requires ValidFb(m.display.fb) && m.locked && |m.outstanding| == 1 && m.outstanding[0].1.DrawPanel?
    requires m.display.inFlight == Some((m.outstanding[0].0, Draw)) && m.display.powerOffNow
    requires m.display.fb.inFlight == Some(m.outstanding[0].1.flush)
    ensures StepTo(m, Response(Drawn(false)), a) && ShowingLockscreen(a, true)
  {
    var d := Responded(m.display, m.outstanding[0].0, Drawn(false), m.now);
    var b := m.(display := d, outstanding := m.outstanding[1..], offFailed := false);
    assert Reacts(m, Response(Drawn(false)), b);
    a := PumpsFull(b);
  }

  lemma FailedRun(k: Kernel, run: seq<Kernel>, events: seq<Event>) returns (longer: seq<Kernel>, later: seq<Event>)
    requires LockedRun(k, run, events) && ShowingLockscreen(run[|events|], true)
    ensures LockedRun(k, longer, later)
    ensures var z := longer[|later|]; IsIdle(z.display) && z.powered && !z.display.panelOn && z.offFailed
  {
    var b, c := ShownThenFailed(run[|events|]);
    LockGoesOn(k, run, events, Response(Drawn(true)), b);
    longer, later := run + [b], events + [Response(Drawn(true))];
    LockGoesOn(k, longer, later, Response(PoweredOff(false)), c);
    longer, later := longer + [c], later + [Response(PoweredOff(false))];
  }

  /**
   From every unlocked state with no power-off in flight, a locked run whose power-off fails ends
   with the voltages on.
   */
  lemma FailedPowerOffStaysOn(k: Kernel) returns (run: seq<Kernel>, events: seq<Event>)
    requires KernelInv(k) && !k.locked && !SwitchingOff(k)
    ensures LockedRun(k, run, events)
    ensures var z := run[|events|]; IsIdle(z.display) && z.powered && !z.display.panelOn && z.offFailed
  {
    if k.outstanding == [] {
      var a := LockDrawsAtOnce(k);
      LockBegins(k, a);
      run, events := FailedRun(k, [k, a], [LockKey]);
    } else {
      var m, a := LockDrawsNext(k);
      LockBegins(k, m);
      LockGoesOn(k, [k, m], [LockKey], Response(Drawn(false)), a);
      run, events := FailedRun(k, [k, m] + [a], [LockKey] + [Response(Drawn(false))]);
    }
  }

  // ----- Such states are reached

  lemma RunBegins(k: Kernel)
    requires Initial(k)
    ensures IsRun([k], []) && NoneFails([])
  {
  }

  lemma RunGoesOn(run: seq<Kernel>, events: seq<Event>, e: Event, c: Kernel)
    requires IsRun(run, events) && NoneFails(events) && StepTo(run[|events|], e, c)
    requires e != Response(PoweredOff(false))
    ensures IsRun(run + [c], events + [e]) && NoneFails(events + [e])
  {
    var states, all := run + [c], events + [e];
    forall i | 0 <= i < |all|
      ensures StepsAt(states, all, i)
    {
      if i < |events| {
        assert StepsAt(run, events, i);
      }
    }
  }

  /** Boot, the first draw, its answer, and the idle time after it. */
  lemma ShownAndIdle(panel: Buffer, image: Buffer) returns (run: seq<Kernel>, events: seq<Event>)
    ensures IsRun(run, events) && NoneFails(events)
    ensures var k := run[|events|]; !k.locked && k.outstanding == [] && k.now == PANEL_IDLE_MS
    ensures run[|events|].display == Display(Fb(Blank(), Blank(), None, true, None), None, true, false, 0)
  {
    var full := Full(Blank());
    var k0 := Kernel(Display(Boot(), None, false, false, 0), false, 0, 0, [], panel, false, image, false, false);
    var drawing := Display(Boot().(inFlight := Some(full)), Some((0, Draw)), false, false, 0);
    var k1 := k0.(display := drawing, nextId := 1, outstanding := [(0, DrawPanel(full))]);
    var shown := Display(Fb(Blank(), Blank(), None, true, None), None, true, false, 0);
    var k2 := k1.(display := shown, outstanding := [], panel := Blank(), powered := true);
    FirstDraw(k0, k1, full);
    FirstShown(k1, k2, full);
    RunBegins(k0);
    run, events := [k0], [];
    RunGoesOn(run, events, DeadlineDue, k1);
    run, events := run + [k1], events + [DeadlineDue];
    RunGoesOn(run, events, Response(Drawn(true)), k2);
    run, events := run + [k2], events + [Response(Drawn(true))];
    var k3 := k2.(now := PANEL_IDLE_MS);
    assert Reacts(k2, Elapse(PANEL_IDLE_MS), k3);
    RunGoesOn(run, events, Elapse(PANEL_IDLE_MS), k3);
    run, events := run + [k3], events + [Elapse(PANEL_IDLE_MS)];
  }

  lemma IdlePowerOffComes(panel: Buffer, image: Buffer) returns (run: seq<Kernel>, events: seq<Event>)
    ensures IsRun(run, events) && NoneFails(events)
    ensures !run[|events|].locked && SwitchingOff(run[|events|])
  {
    run, events := ShownAndIdle(panel, image);
    var k3 := run[|events|];
    var k4 := k3.(display := k3.display.(inFlight := Some((k3.nextId, PowerOff))), nextId := k3.nextId + 1,
                  outstanding := [(k3.nextId, SwitchOff)]);
    IdleOff(k3, k4);
    RunGoesOn(run, events, DeadlineDue, k4);
    run, events := run + [k4], events + [DeadlineDue];
  }

  lemma FirstDraw(k0: Kernel, k1: Kernel, full: Flush)
    requires k0.display == Display(Boot(), None, false, false, 0) && k0.outstanding == [] && full == Full(Blank())
    requires k1 == k0.(display := Display(Boot().(inFlight := Some(full)), Some((k0.nextId, Draw)), false, false, 0),
                       nextId := k0.nextId + 1, outstanding := [(k0.nextId, DrawPanel(full))])
    ensures StepTo(k0, DeadlineDue, k1)
  {
    assert k0.outstanding + [(k0.nextId, DrawPanel(full))] == k1.outstanding;
    assert Pumps(k0.display, k0.nextId, k0.now, k1.display, Some(DrawPanel(full)));
    assert Pumped(k0, k1);
    assert Reacts(k0, DeadlineDue, k0);
  }

  lemma FirstShown(k1: Kernel, k2: Kernel, full: Flush)
    requires full == Full(Blank()) && k1.outstanding == [(0, DrawPanel(full))] && k1.now == 0 && !k1.offFailed
    requires k1.display == Display(Boot().(inFlight := Some(full)), Some((0, Draw)), false, false, 0)
    requires k2 == k1.(display := Display(Fb(Blank(), Blank(), None, true, None), None, true, false, 0),
                       outstanding := [], panel := Blank(), powered := true)
    ensures StepTo(k1, Response(Drawn(true)), k2)
  {
    assert k1.outstanding[1..] == [];
    assert Reacts(k1, Response(Drawn(true)), k2);
    assert Pumps(k2.display, k2.nextId, k2.now, k2.display, None);
    assert Pumped(k2, k2);
  }

  lemma IdleOff(k3: Kernel, k4: Kernel)
    requires k3.outstanding == [] && k3.now == PANEL_IDLE_MS
    requires k3.display == Display(Fb(Blank(), Blank(), None, true, None), None, true, false, 0)
    requires k4 == k3.(display := k3.display.(inFlight := Some((k3.nextId, PowerOff))), nextId := k3.nextId + 1,
                       outstanding := [(k3.nextId, SwitchOff)])
    ensures StepTo(k3, DeadlineDue, k4)
  {
    assert k3.outstanding + [(k3.nextId, SwitchOff)] == k4.outstanding;
    assert Pumps(k3.display, k3.nextId, k3.now, k4.display, Some(SwitchOff));
    assert Pumped(k3, k4);
    assert Reacts(k3, DeadlineDue, k3);
  }

  lemma RunThenLocked(run: seq<Kernel>, events: seq<Event>, more: seq<Kernel>, later: seq<Event>)
    requires IsRun(run, events) && LockedRun(run[|events|], more, later)
    ensures IsRun(run + more[1..], events + later)
  {
    var states, all := run + more[1..], events + later;
    forall i | 0 <= i < |all|
      ensures StepsAt(states, all, i)
    {
      if i < |events| {
        assert StepsAt(run, events, i);
      } else {
        assert StepsAt(more, later, i - |events|);
      }
    }
  }

  /** A run from boot, whatever the panel and the lockscreen, that ends locked and idle with the voltages on. */
  lemma StaysOnFromBoot(panel: Buffer, image: Buffer) returns (run: seq<Kernel>, events: seq<Event>)
    ensures IsRun(run, events) && NoneFails(events)
    ensures var z := run[|events|]; z.locked && IsIdle(z.display) && z.display.panelOn && z.powered
  {
    var first, before := IdlePowerOffComes(panel, image);
    Safety(first, before);
    var more, later := StaysOnRun(first[|before|]);
    RunThenLocked(first, before, more, later);
    run, events := first + more[1..], before + later;
  }
}
