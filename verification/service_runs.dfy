/** The pins the service moves and what becomes of the requests, over whole runs. */
module ServiceRuns {
  import opened Options
  import opened PowerSequencing
  import opened PowerService

  /** What a sequence does to the pins. */
  function PinsFor(q: Sequence): seq<Pin> {
    match q
    case On => [SupplyPin(true), KeyPin(true), KeyPin(false)]
    case Off => [KeyPin(true), KeyPin(false)]
  }

  function AllFor(asked: seq<Sequence>): seq<Pin> {
    if asked == [] then [] else PinsFor(asked[0]) + AllFor(asked[1..])
  }

  function PinsIn(steps: seq<Timed>): seq<Pin> {
    if steps == [] then [] else PinsOf(steps[0].actions) + PinsIn(steps[1..])
  }

  /** The pin changes still to come. */
  function PinsDue(p: Power): seq<Pin> {
    (if p.running.Some? then PinsIn(p.running.value.steps) else []) + AllFor(p.queued)
  }

  /** All the pin changes handed out in a run. */
  function HandedOut(s: Svc, events: seq<Command>): seq<Pin>
    decreases |events|
  {
    if events == [] then [] else PinsBy(s, events[0]) + HandedOut(Advance(s, events[0]), events[1..])
  }

  function AskedIn(events: seq<Command>): seq<Sequence>
    decreases |events|
  {
    if events == [] then []
    else (match events[0]
          case SwitchOn(_) => [On]
          case SwitchOff(_) => [Off]
          case _ => []) + AskedIn(events[1..])
  }

  lemma {:induction false} PinsOfMore(a: seq<Action>, b: seq<Action>)
    ensures PinsOf(a + b) == PinsOf(a) + PinsOf(b)
    decreases |a|
  {
    if a == [] {
      assert a + b == b;
    } else {
      assert (a + b)[1..] == a[1..] + b;
      PinsOfMore(a[1..], b);
    }
  }

  lemma OnPins()
    ensures PinsIn(StepsOf(On)) == PinsFor(On)
  {
    var steps := StepsOf(On);
    assert PinsIn(steps[2..]) == [KeyPin(false)] by {
      assert steps[2..][1..] == [];
      assert steps[2].actions[1..] == [HalPowerOn];
    }
    assert PinsIn(steps[1..]) == [KeyPin(true)] + PinsIn(steps[2..]) by {
      assert steps[1..][1..] == steps[2..];
    }
  }

  lemma OffPins()
    ensures PinsIn(StepsOf(Off)) == PinsFor(Off)
  {
    var steps := StepsOf(Off);
    assert PinsIn(steps[1..]) == [KeyPin(false)] by {
      assert steps[1..][1..] == [];
    }
    assert steps[0].actions[1..] == [PwrKey(true)];
    assert PinsOf(steps[0].actions) == [KeyPin(true)];
  }

  lemma Associate(a: seq<Pin>, b: seq<Pin>, c: seq<Pin>)
    ensures a + b + c == a + (b + c)
  {
  }

  lemma NothingBefore(a: seq<Pin>)
    ensures [] + a == a
  {
  }

  /** What a tick hands out and what is left make up what was due. */
  lemma {:induction false} TickHandsOut(p: Power, now: Millis)
    ensures PinsAt(p, now) + PinsDue(Ticked(p, now).power) == PinsDue(p)
    decreases |p.queued|, if p.running.Some? then |p.running.value.steps| + 1 else 0
  {
    match p.running
    case None =>
      if p.queued != [] {
        var begun := Power(Some(Running(now, StepsOf(p.queued[0]))), p.queued[1..]);
        TickHandsOut(begun, now);
        if p.queued[0] == On { OnPins(); } else { OffPins(); }
        NothingBefore(AllFor(p.queued));
      } else {
        NothingBefore(PinsDue(p));
      }
    case Some(r) =>
      if r.steps == [] {
        TickHandsOut(Power(None, p.queued), now);
      } else if r.started + r.steps[0].at <= now {
        var later := Power(Some(Running(r.started, r.steps[1..])), p.queued);
        TickHandsOut(later, now);
        DueNext(r, p.queued, now);
        StepHandedOut(r.steps[0].actions, ActionsOf(Ticked(later, now).fired), PinsIn(r.steps[1..]), AllFor(p.queued),
                      PinsDue(Ticked(later, now).power));
      } else {
        NothingBefore(PinsDue(p));
      }
  }

  lemma StepHandedOut(first: seq<Action>, more: seq<Action>, steps: seq<Pin>, queued: seq<Pin>, left: seq<Pin>)
    requires PinsOf(more) + left == steps + queued
    ensures PinsOf(first + more) + left == PinsOf(first) + steps + queued
  {
    PinsOfMore(first, more);
    Associate(PinsOf(first), PinsOf(more), left);
    Associate(PinsOf(first), steps, queued);
  }

  lemma {:induction false} AllForMore(asked: seq<Sequence>, q: Sequence)
    ensures AllFor(asked + [q]) == AllFor(asked) + PinsFor(q)
    decreases |asked|
  {
    if asked == [] {
      assert asked + [q] == [q] && [q][1..] == [];
    } else {
      assert (asked + [q])[1..] == asked[1..] + [q];
      AllForMore(asked[1..], q);
      Associate(PinsFor(asked[0]), AllFor(asked[1..]), PinsFor(q));
    }
  }

  lemma AskingAdds(s: Svc, q: Sequence)
    ensures PinsDue(Asked(s, q).power) == PinsDue(s.power) + PinsFor(q)
  {
    AllForMore(s.power.queued, q);
    Associate(if s.power.running.Some? then PinsIn(s.power.running.value.steps) else [], AllFor(s.power.queued),
              PinsFor(q));
  }

  /** A command hands out the first of what was due before and what it asks for. */
  lemma CommandHandsOut(s: Svc, e: Command)
    ensures PinsBy(s, e) + PinsDue(Advance(s, e).power) == PinsDue(s.power) + AllFor(AskedIn([e]))
  {
    assert [e][1..] == [];
    match e
    case SwitchOn(now) =>
      AskingAdds(s, On);
      TickHandsOut(Asked(s, On).power, now);
      assert AskedIn([e]) == [On];
      assert AllFor([On]) == PinsFor(On) by { assert [On][1..] == []; }
    case SwitchOff(now) =>
      AskingAdds(s, Off);
      TickHandsOut(Asked(s, Off).power, now);
      assert AskedIn([e]) == [Off];
      assert AllFor([Off]) == PinsFor(Off) by { assert [Off][1..] == []; }
    case Request => NothingBefore(PinsDue(s.power));
    case Turn(now, taken, later) =>
      TickHandsOut(s.power, now);
      TickHandsOut(Ran(s, now).power, later);
      Associate(PinsAt(s.power, now), PinsAt(Ran(s, now).power, later), PinsDue(Advance(s, e).power));
  }

  lemma {:induction false} AllForConcat(a: seq<Sequence>, b: seq<Sequence>)
    ensures AllFor(a + b) == AllFor(a) + AllFor(b)
    decreases |a|
  {
    if a == [] {
      assert a + b == b;
    } else {
      assert (a + b)[1..] == a[1..] + b;
      AllForConcat(a[1..], b);
      Associate(PinsFor(a[0]), AllFor(a[1..]), AllFor(b));
    }
  }

  lemma AskedFirst(events: seq<Command>)
    requires events != []
    ensures AskedIn(events) == AskedIn([events[0]]) + AskedIn(events[1..])
  {
    assert [events[0]][1..] == [];
  }

  lemma Chain(first: seq<Pin>, rest: seq<Pin>, mid: seq<Pin>, left: seq<Pin>, due: seq<Pin>, now: seq<Pin>,
              later: seq<Pin>)
    requires first + mid == due + now && rest + left == mid + later
    ensures first + rest + left == due + (now + later)
  {
    Associate(first, rest, left);
    Associate(first, mid, later);
    Associate(due, now, later);
  }

  lemma {:induction false} RunHandsOut(s: Svc, events: seq<Command>)
    ensures HandedOut(s, events) + PinsDue(Operate(s, events).power) == PinsDue(s.power) + AllFor(AskedIn(events))
    decreases |events|
  {
    if events != [] {
      var next := Advance(s, events[0]);
      CommandHandsOut(s, events[0]);
      RunHandsOut(next, events[1..]);
      AskedFirst(events);
      AllForConcat(AskedIn([events[0]]), AskedIn(events[1..]));
      Chain(PinsBy(s, events[0]), HandedOut(next, events[1..]), PinsDue(next.power), PinsDue(Operate(s, events).power),
            PinsDue(s.power), AllFor(AskedIn([events[0]])), AllFor(AskedIn(events[1..])));
    }
  }

  /**
   In every run the pins handed out, and those due, are those of the sequences asked for, in order:
   supply on, press and release to switch on, press and release to switch off.
   */
  lemma PinsAreTheSequences(events: seq<Command>)
    ensures HandedOut(BOOTED, events) + PinsDue(Operate(BOOTED, events).power) == AllFor(AskedIn(events))
  {
    RunHandsOut(BOOTED, events);
    NothingBefore(AllFor(AskedIn(events)));
  }

  // ----- The button

  function KeysOf(pins: seq<Pin>): seq<bool> {
    if pins == [] then []
    else (match pins[|pins| - 1]
          case KeyPin(pressed) => KeysOf(pins[..|pins| - 1]) + [pressed]
          case SupplyPin(_) => KeysOf(pins[..|pins| - 1]))
  }

  ghost predicate Alternates(keys: seq<bool>) {
    forall k :: 0 <= k < |keys| ==> keys[k] == (k % 2 == 0)
  }

  lemma {:induction false} KeysOfMore(a: seq<Pin>, b: seq<Pin>)
    ensures KeysOf(a + b) == KeysOf(a) + KeysOf(b)
    decreases |b|
  {
    if b == [] {
      assert a + b == a;
    } else {
      assert (a + b)[..|a + b| - 1] == a + b[..|b| - 1];
      KeysOfMore(a, b[..|b| - 1]);
    }
  }

  lemma KeysFor(q: Sequence)
    ensures KeysOf(PinsFor(q)) == [true, false]
  {
    var press, release := [KeyPin(true)], [KeyPin(false)];
    assert KeysOf(press) == [true] by { assert press[..0] == []; }
    assert KeysOf(release) == [false] by { assert release[..0] == []; }
    KeysOfMore(press, release);
    assert press + release == PinsFor(Off);
    KeysOfMore([SupplyPin(true)], press + release);
    assert KeysOf([SupplyPin(true)]) == [] by { assert [SupplyPin(true)][..0] == []; }
    assert [SupplyPin(true)] + (press + release) == PinsFor(On);
  }

  lemma PressFirst(keys: seq<bool>)
    requires Alternates(keys)
    ensures Alternates([true, false] + keys)
  {
    forall k | 0 <= k < |keys| + 2
      ensures ([true, false] + keys)[k] == (k % 2 == 0)
    {
      if k >= 2 {
        assert ([true, false] + keys)[k] == keys[k - 2];
      }
    }
  }

  lemma {:induction false} KeysForAll(asked: seq<Sequence>)
    ensures Alternates(KeysOf(AllFor(asked))) && |KeysOf(AllFor(asked))| == 2 * |asked|
  {
    if asked != [] {
      KeysFor(asked[0]);
      KeysForAll(asked[1..]);
      KeysOfMore(PinsFor(asked[0]), AllFor(asked[1..]));
      PressFirst(KeysOf(AllFor(asked[1..])));
    }
  }

  /** In every run the button is pressed and released in turn, and is released when nothing is due. */
  lemma ButtonAlternates(events: seq<Command>)
    ensures var keys := KeysOf(HandedOut(BOOTED, events));
            && Alternates(keys)
            && (!IsBusy(Operate(BOOTED, events).power) ==> |keys| == 2 * |AskedIn(events)|)
  {
    var out, due := HandedOut(BOOTED, events), PinsDue(Operate(BOOTED, events).power);
    PinsAreTheSequences(events);
    KeysForAll(AskedIn(events));
    KeysOfMore(out, due);
    assert forall k :: 0 <= k < |KeysOf(out)| ==> KeysOf(out)[k] == (KeysOf(out) + KeysOf(due))[k];
  }

  // ----- The times

  /**
   From rest, with the supply on at once: the button pressed at 100 ms and released at 1100 ms, the
   layer below told at the release.
   */
  lemma SwitchOnTimes(t: Millis)
    ensures var begun := Ticked(Power(None, [On]), t);
            var pressed := Ticked(begun.power, t + 100);
            var released := Ticked(pressed.power, t + 1100);
            && PinsAt(Power(None, [On]), t) == [SupplyPin(true)]
            && ActionsOf(Ticked(pressed.power, t + 1100).fired) == [PwrKey(false), HalPowerOn]
            && PinsAt(begun.power, t + 99) == [] && PinsAt(begun.power, t + 100) == [KeyPin(true)]
            && PinsAt(pressed.power, t + 1099) == [] && PinsAt(pressed.power, t + 1100) == [KeyPin(false)]
            && NextDeadline(begun.power) == Some(t + 100) && NextDeadline(pressed.power) == Some(t + 1100)
            && released.power == IDLE
  {
    var steps := StepsOf(On);
    assert [On][1..] == [];
    assert PinsOf([PowerEnable(true)]) == [SupplyPin(true)] by { assert [PowerEnable(true)][1..] == []; }
    OneDue(Power(Some(Running(t, steps)), []), t, steps[0], steps[1..]);
    OneDue(Power(Some(Running(t, steps[1..])), []), t + 100, steps[1], steps[2..]);
    LastDue(Power(Some(Running(t, steps[2..])), []), t + 1100, steps[2]);
  }

  /** The layer below told first, the button pressed at once and released at 3000 ms. */
  lemma SwitchOffTimes(t: Millis)
    ensures var begun := Ticked(Power(None, [Off]), t);
            && PinsAt(Power(None, [Off]), t) == [KeyPin(true)] && ActionsOf(begun.fired) == [HalPowerOff, PwrKey(true)]
            && PinsAt(begun.power, t + 2999) == [] && PinsAt(begun.power, t + 3000) == [KeyPin(false)]
            && NextDeadline(begun.power) == Some(t + 3000) && Ticked(begun.power, t + 3000).power == IDLE
  {
    var steps := StepsOf(Off);
    assert [Off][1..] == [] && steps[1..] == [steps[1]];
    OneDue(Power(Some(Running(t, steps)), []), t, steps[0], steps[1..]);
    assert steps[0].actions[1..] == [PwrKey(true)] && [PwrKey(true)][1..] == [];
    assert PinsOf(steps[0].actions) == [KeyPin(true)];
    LastDue(Power(Some(Running(t, steps[1..])), []), t + 3000, steps[1]);
  }

  /** The first step is due and the next is not. */
  lemma OneDue(p: Power, now: Millis, step: Timed, rest: seq<Timed>)
    requires p.running.Some? && p.running.value.steps == [step] + rest && rest != [] && p.queued == []
    requires p.running.value.started + step.at <= now < p.running.value.started + rest[0].at
    ensures Ticked(p, now) ==
            TickResult([Firing(p.running.value.started, step)], Power(Some(Running(p.running.value.started, rest)), []))
    ensures ActionsOf([Firing(p.running.value.started, step)]) == step.actions
  {
    var fired := [Firing(p.running.value.started, step)];
    assert p.running.value.steps[1..] == rest;
    assert Ticked(Power(Some(Running(p.running.value.started, rest)), []), now).fired == [];
    assert fired + [] == fired && fired[1..] == [];
  }

  lemma LastDue(p: Power, now: Millis, step: Timed)
    requires p.running.Some? && p.running.value.steps == [step] && p.queued == []
    requires p.running.value.started + step.at <= now
    ensures Ticked(p, now) == TickResult([Firing(p.running.value.started, step)], IDLE)
    ensures ActionsOf([Firing(p.running.value.started, step)]) == step.actions
  {
    var fired, r := [Firing(p.running.value.started, step)], p.running.value;
    assert r.steps[1..] == [];
    assert Ticked(Power(Some(Running(r.started, [])), []), now) == TickResult([], IDLE) by {
      assert Ticked(IDLE, now) == TickResult([], IDLE);
    }
    assert fired + [] == fired && fired[1..] == [];
  }

  // ----- Requests

  function Least(a: nat, b: nat): nat {
    if a < b then a else b
  }

  /** The requests the link took during a command. */
  function TakenBy(s: Svc, e: Command): seq<RequestId> {
    match e
    case Turn(now, taken, _) =>
      var h := Ran(s, now).hal;
      if h.on then h.waiting[..Least(taken, |h.waiting|)] else []
    case _ => []
  }

  function TakenIn(s: Svc, events: seq<Command>): seq<RequestId>
    decreases |events|
  {
    if events == [] then [] else TakenBy(s, events[0]) + TakenIn(Advance(s, events[0]), events[1..])
  }

  function RequestsIn(events: seq<Command>): nat {
    if events == [] then 0 else (if events[0] == Request then 1 else 0) + RequestsIn(events[1..])
  }

  ghost predicate Rising(ids: seq<RequestId>) {
    forall i, j :: 0 <= i < j < |ids| ==> ids[i] < ids[j]
  }

  /** Every id given out was taken, waits or was refused, one of these and once; those taken in order. */
  ghost predicate Accounted(h: Hal, taken: seq<RequestId>) {
    && (forall id: RequestId :: multiset(taken)[id] + multiset(h.waiting)[id] + multiset(h.notSent)[id] ==
                                if id < h.nextId then 1 else 0)
    && Rising(taken + h.waiting)
  }

  lemma SubmitAccounted(h: Hal, taken: seq<RequestId>)
    requires Accounted(h, taken)
    ensures Accounted(Submitted(h), taken) && Submitted(h).nextId == h.nextId + 1
  {
    var id := h.nextId;
    assert multiset(h.waiting + [id]) == multiset(h.waiting) + multiset{id};
    assert multiset(h.notSent + [id]) == multiset(h.notSent) + multiset{id};
    forall i | 0 <= i < |taken + h.waiting|
      ensures (taken + h.waiting)[i] < id
    {
      KnownIsBelow(h, taken, (taken + h.waiting)[i]);
    }
    assert taken + (h.waiting + [id]) == taken + h.waiting + [id];
  }

  lemma KnownIsBelow(h: Hal, taken: seq<RequestId>, id: RequestId)
    requires Accounted(h, taken) && id in taken + h.waiting
    ensures id < h.nextId
  {
    assert id in multiset(taken) || id in multiset(h.waiting);
  }

  lemma OffAccounted(h: Hal, taken: seq<RequestId>)
    requires Accounted(h, taken)
    ensures Accounted(SwitchedOff(h), taken) && SwitchedOff(h).nextId == h.nextId
  {
    assert multiset(h.notSent + h.waiting) == multiset(h.notSent) + multiset(h.waiting);
    assert taken + [] == taken;
    assert forall i :: 0 <= i < |taken| ==> taken[i] == (taken + h.waiting)[i];
  }

  lemma ServeAccounted(h: Hal, taken: seq<RequestId>, n: nat)
    requires Accounted(h, taken)
    ensures var more := if h.on then h.waiting[..Least(n, |h.waiting|)] else [];
            Accounted(Served(h, n), taken + more) && Served(h, n).nextId == h.nextId
  {
    if h.on {
      var k := Least(n, |h.waiting|);
      var more, left := h.waiting[..k], h.waiting[k..];
      assert more + left == h.waiting;
      assert multiset(h.waiting) == multiset(more) + multiset(left);
      assert multiset(taken + more) == multiset(taken) + multiset(more);
      assert taken + more + left == taken + h.waiting;
    } else {
      assert taken + [] == taken;
    }
  }

  lemma {:induction false} CarryAccounted(h: Hal, actions: seq<Action>, taken: seq<RequestId>)
    requires Accounted(h, taken)
    ensures Accounted(Carry(h, actions), taken) && Carry(h, actions).nextId == h.nextId
    decreases |actions|
  {
    if actions != [] {
      match actions[0] {
        case HalPowerOn => CarryAccounted(SwitchedOn(h), actions[1..], taken);
        case HalPowerOff =>
          OffAccounted(h, taken);
          CarryAccounted(SwitchedOff(h), actions[1..], taken);
        case _ => CarryAccounted(h, actions[1..], taken);
      }
    }
  }

  lemma CommandAccounted(s: Svc, e: Command, taken: seq<RequestId>)
    requires Accounted(s.hal, taken)
    ensures Accounted(Advance(s, e).hal, taken + TakenBy(s, e))
    ensures Advance(s, e).hal.nextId == s.hal.nextId + if e == Request then 1 else 0
  {
    assert taken + [] == taken;
    match e
    case SwitchOn(now) => CarryAccounted(s.hal, ActionsOf(Ticked(Asked(s, On).power, now).fired), taken);
    case SwitchOff(now) => CarryAccounted(s.hal, ActionsOf(Ticked(Asked(s, Off).power, now).fired), taken);
    case Request => SubmitAccounted(s.hal, taken);
    case Turn(now, n, later) =>
      var r := Ran(s, now);
      CarryAccounted(s.hal, ActionsOf(Ticked(s.power, now).fired), taken);
      ServeAccounted(r.hal, taken, n);
      CarryAccounted(Served(r.hal, n), ActionsOf(Ticked(r.power, later).fired), taken + TakenBy(s, e));
  }

  lemma {:induction false} RunAccounted(s: Svc, events: seq<Command>, taken: seq<RequestId>)
    requires Accounted(s.hal, taken)
    ensures Accounted(Operate(s, events).hal, taken + TakenIn(s, events))
    ensures Operate(s, events).hal.nextId == s.hal.nextId + RequestsIn(events)
    decreases |events|
  {
    if events == [] {
      assert taken + [] == taken;
    } else {
      CommandAccounted(s, events[0], taken);
      RunAccounted(Advance(s, events[0]), events[1..], taken + TakenBy(s, events[0]));
      var rest := TakenIn(Advance(s, events[0]), events[1..]);
      assert taken + TakenBy(s, events[0]) + rest == taken + (TakenBy(s, events[0]) + rest);
    }
  }

  /**
   In every run each request submitted has an id of its own, and was taken by the link, waits or was
   refused, exactly one of these; the link takes requests in the order they were submitted.
   */
  lemma RequestsAccountedFor(events: seq<Command>)
    ensures var h, taken := Operate(BOOTED, events).hal, TakenIn(BOOTED, events);
            && h.nextId == RequestsIn(events)
            && (forall id: RequestId :: multiset(taken)[id] + multiset(h.waiting)[id] + multiset(h.notSent)[id] ==
                                        if id < h.nextId then 1 else 0)
            && Rising(taken + h.waiting)
  {
    RunAccounted(BOOTED, events, []);
    assert [] + TakenIn(BOOTED, events) == TakenIn(BOOTED, events);
  }
}
