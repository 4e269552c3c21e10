/**
 The modem as the device runs it: requests and power sequences behind one ordered interface. The
 hardware layer below is abstract: on or off, with a queue it takes requests from while it is on.
 */
module PowerService {
  import opened Options
  import opened PowerSequencing

  type RequestId = nat

  /** What the layer below holds: requests waiting, and those it refused to send. */
  datatype Hal = Hal(on: bool, nextId: RequestId, waiting: seq<RequestId>, notSent: seq<RequestId>)

  datatype Pin = SupplyPin(on: bool) | KeyPin(pressed: bool)

  function SwitchedOn(h: Hal): Hal {
    h.(on := true)
  }

  function SwitchedOff(h: Hal): Hal {
    h.(on := false, waiting := [], notSent := h.notSent + h.waiting)
  }

  function Submitted(h: Hal): Hal {
    if h.on then h.(nextId := h.nextId + 1, waiting := h.waiting + [h.nextId])
    else h.(nextId := h.nextId + 1, notSent := h.notSent + [h.nextId])
  }

  /** The link took up to `taken` requests while it was served. */
  function Served(h: Hal, taken: nat): Hal {
    if h.on then h.(waiting := h.waiting[if taken < |h.waiting| then taken else |h.waiting|..]) else h
  }

  /** The layer below after a list of power actions. */
  function Carry(h: Hal, actions: seq<Action>): Hal
    decreases |actions|
  {
    if actions == [] then h
    else
      match actions[0]
      case HalPowerOn => Carry(SwitchedOn(h), actions[1..])
      case HalPowerOff => Carry(SwitchedOff(h), actions[1..])
      case _ => Carry(h, actions[1..])
  }

  function PinsOf(actions: seq<Action>): seq<Pin> {
    if actions == [] then []
    else
      match actions[0]
      case PowerEnable(on) => [SupplyPin(on)] + PinsOf(actions[1..])
      case PwrKey(pressed) => [KeyPin(pressed)] + PinsOf(actions[1..])
      case _ => PinsOf(actions[1..])
  }

  /** The service as a value, and every sequence ever asked of it. */
  datatype Svc = Svc(hal: Hal, power: Power, asked: seq<Sequence>)

  function Ran(s: Svc, now: Millis): Svc {
    var t := Ticked(s.power, now);
    s.(hal := Carry(s.hal, ActionsOf(t.fired)), power := t.power)
  }

  function Asked(s: Svc, q: Sequence): Svc {
    s.(power := s.power.(queued := s.power.queued + [q]), asked := s.asked + [q])
  }

  class Service {
    var hal: Hal
    const power: PowerSequencer
    ghost var asked: seq<Sequence>

    ghost function Value(): Svc
      reads this, power
    {
      Svc(hal, power.Value(), asked)
    }

    constructor ()
      ensures fresh(power) && Value() == BOOTED
    {
      hal, asked := Hal(false, 0, [], []), [];
      power := new PowerSequencer();
    }

    /** Hands the actions on: pins to the caller, the rest to the layer below. */
    method CarryOut(actions: seq<Action>) returns (pins: seq<Pin>)
      modifies this`hal
      ensures hal == Carry(old(hal), actions) && pins == PinsOf(actions)
    {
      pins := [];
      assert actions[0..] == actions;
      for i := 0 to |actions|
        invariant Carry(hal, actions[i..]) == Carry(old(hal), actions)
        invariant pins + PinsOf(actions[i..]) == PinsOf(actions)
      {
        assert actions[i..][0] == actions[i] && actions[i..][1..] == actions[i + 1..];
        match actions[i] {
          case PowerEnable(on) => pins := pins + [SupplyPin(on)];
          case PwrKey(pressed) => pins := pins + [KeyPin(pressed)];
          case HalPowerOn => hal := SwitchedOn(hal);
          case HalPowerOff => hal := SwitchedOff(hal);
        }
      }
    }

    method RunPower(now: Millis) returns (pins: seq<Pin>)
      modifies this`hal, power
      ensures Value() == Ran(old(Value()), now)
      ensures pins == PinsAt(old(power.Value()), now)
    {
      var actions := power.Tick(now);
      pins := CarryOut(actions);
    }

    method PowerOn(now: Millis) returns (pins: seq<Pin>)
      modifies this, power
      ensures Value() == Advance(old(Value()), SwitchOn(now))
      ensures pins == PinsBy(old(Value()), SwitchOn(now))
    {
      power.Start(On);
      asked := asked + [On];
      pins := RunPower(now);
    }

    method PowerOff(now: Millis) returns (pins: seq<Pin>)
      modifies this, power
      ensures Value() == Advance(old(Value()), SwitchOff(now))
      ensures pins == PinsBy(old(Value()), SwitchOff(now))
    {
      power.Start(Off);
      asked := asked + [Off];
      pins := RunPower(now);
    }

    method Submit() returns (id: RequestId)
      modifies this`hal
      ensures Value() == Advance(old(Value()), Request) && id == old(hal.nextId)
    {
      id := hal.nextId;
      hal := Submitted(hal);
    }

    /**
     One turn of the driver loop: due power steps at `start`, then, the clock read again, the link for
     at most `maxWait`, in which it takes `taken` requests, and the power steps that came due by
     `later`. The wait never goes past the next power step. `linkOk` is how serving the link ended;
     a write error is handed on, after the power steps like a success.
     */
    method Step(start: Millis, now: Millis, maxWait: Millis, taken: nat, linkOk: bool, later: Millis)
      returns (pins: seq<Pin>, wait: Millis, ok: bool)
      modifies this`hal, power
      ensures Value() == Advance(old(Value()), Turn(start, taken, later)) && ok == linkOk
      ensures wait <= maxWait
      ensures var next := NextDeadline(Ticked(old(power.Value()), start).power);
              && (next.Some? ==> now + wait <= next.value || wait == 0)
              && (wait < maxWait ==> next.Some? && (now + wait == next.value || now >= next.value))
      ensures pins == PinsBy(old(Value()), Turn(start, taken, later))
    {
      pins := RunPower(start);
      var next := power.NextTick();
      wait := match next
        case None => maxWait
        case Some(d) =>
          var left := if d > now then d - now else 0;
          if left < maxWait then left else maxWait;
      hal := Served(hal, taken);
      ok := linkOk;
      var more := RunPower(later);
      pins := pins + more;
    }
  }

  // ----- Runs

  datatype Command =
    | SwitchOn(now: Millis)
    | SwitchOff(now: Millis)
    | Request
    | Turn(now: Millis, taken: nat, later: Millis)

  function Advance(s: Svc, e: Command): Svc {
    match e
    case SwitchOn(now) => Ran(Asked(s, On), now)
    case SwitchOff(now) => Ran(Asked(s, Off), now)
    case Request => s.(hal := Submitted(s.hal))
    case Turn(now, taken, later) =>
      var r := Ran(s, now);
      Ran(r.(hal := Served(r.hal, taken)), later)
  }

  /** The pin changes a tick hands out. */
  function PinsAt(p: Power, now: Millis): seq<Pin> {
    PinsOf(ActionsOf(Ticked(p, now).fired))
  }

  /** The pin changes a command hands out. */
  function PinsBy(s: Svc, e: Command): seq<Pin> {
    match e
    case SwitchOn(now) => PinsAt(Asked(s, On).power, now)
    case SwitchOff(now) => PinsAt(Asked(s, Off).power, now)
    case Request => []
    case Turn(now, taken, later) => PinsAt(s.power, now) + PinsAt(Ran(s, now).power, later)
  }

  function Operate(s: Svc, events: seq<Command>): Svc
    decreases |events|
  {
    if events == [] then s else Operate(Advance(s, events[0]), events[1..])
  }

  const BOOTED := Svc(Hal(false, 0, [], []), IDLE, [])

  // ----- Whether the layer below is on

  predicate EndsOn(asked: seq<Sequence>) {
    asked != [] && asked[|asked| - 1] == On
  }

  /** How many sequences have begun. */
  function Begun(s: Svc): int {
    |s.asked| - |s.power.queued|
  }

  /** On or off with `fired` steps of a sequence done, given what it was before. */
  predicate OnDuring(q: Sequence, fired: int, before: bool) {
    if q == Off then before && fired == 0 else before || fired == |StepsOf(On)|
  }

  /** A sequence running is the last one begun, and what is left of it is its end. */
  ghost predicate RunsLast(s: Svc, now: Millis) {
    s.power.running.Some? ==>
      var r, n := s.power.running.value, Begun(s);
      && 0 < n <= |s.asked|
      && |r.steps| <= |StepsOf(s.asked[n - 1])|
      && r.steps == StepsOf(s.asked[n - 1])[|StepsOf(s.asked[n - 1])| - |r.steps|..]
      && (|r.steps| == |StepsOf(s.asked[n - 1])| ==> r.started <= now)
      && s.hal.on == OnDuring(s.asked[n - 1], |StepsOf(s.asked[n - 1])| - |r.steps|, EndsOn(s.asked[..n - 1]))
  }

  ghost predicate SvcInv(s: Svc, now: Millis) {
    && 0 <= Begun(s) <= |s.asked|
    && s.power.queued == s.asked[Begun(s)..]
    && (s.power.running.None? ==> s.hal.on == EndsOn(s.asked[..Begun(s)]))
    && RunsLast(s, now)
    && (!s.hal.on ==> s.hal.waiting == [])
  }

  /** After its tick: the first step of a sequence is done at once, and not all are done. */
  ghost predicate Rested(s: Svc) {
    match s.power.running
    case None => s.power.queued == []
    case Some(r) => 0 < Begun(s) <= |s.asked| && 0 < |r.steps| < |StepsOf(s.asked[Begun(s) - 1])|
  }

  lemma {:induction false} CarryConcat(h: Hal, a: seq<Action>, b: seq<Action>)
    ensures Carry(h, a + b) == Carry(Carry(h, a), b)
    decreases |a|
  {
    if a == [] {
      assert a + b == b;
    } else {
      assert (a + b)[1..] == a[1..] + b;
      CarryConcat(SwitchedOn(h), a[1..], b);
      CarryConcat(SwitchedOff(h), a[1..], b);
      CarryConcat(h, a[1..], b);
    }
  }

  /** What the steps of each sequence do to the layer below. */
  lemma CarryStep(h: Hal, q: Sequence, k: nat)
    requires k < |StepsOf(q)|
    ensures var after := Carry(h, StepsOf(q)[k].actions);
            && after.on == (if q == Off && k == 0 then false else if q == On && k == 2 then true else h.on)
            && (!h.on && h.waiting == [] ==> after.waiting == [])
            && (!after.on && h.on ==> after.waiting == [])
  {
    var actions := StepsOf(q)[k].actions;
    assert |actions[1..]| == |actions| - 1;
    if |actions| == 2 {
      assert actions[1..][0] == actions[1];
      assert actions[1..][1..] == [];
    } else {
      assert actions[1..] == [];
    }
  }

  function Fire(s: Svc, r: Running): Svc
    requires r.steps != []
  {
    s.(hal := Carry(s.hal, r.steps[0].actions), power := s.power.(running := Some(Running(r.started, r.steps[1..]))))
  }

  lemma FireKeeps(s: Svc, r: Running, now: Millis)
    requires SvcInv(s, now) && s.power.running == Some(r) && r.steps != []
    ensures SvcInv(Fire(s, r), now)
  {
    var q := s.asked[Begun(s) - 1];
    var k := |StepsOf(q)| - |r.steps|;
    assert r.steps[0] == StepsOf(q)[k];
    CarryStep(s.hal, q, k);
    assert r.steps[1..] == StepsOf(q)[k + 1..];
  }

  lemma RanFired(s: Svc, r: Running, now: Millis)
    requires s.power.running == Some(r) && r.steps != [] && r.started + r.steps[0].at <= now
    ensures Ran(s, now) == Ran(Fire(s, r), now)
  {
    var rest, whole := Ticked(Fire(s, r).power, now), Ticked(s.power, now);
    assert whole.fired[1..] == rest.fired;
    CarryConcat(s.hal, r.steps[0].actions, ActionsOf(rest.fired));
  }

  lemma BeginKeeps(s: Svc, now: Millis)
    requires SvcInv(s, now) && s.power.running.None? && s.power.queued != []
    ensures SvcInv(s.(power := Power(Some(Running(now, StepsOf(s.power.queued[0]))), s.power.queued[1..])), now)
  {
    var begun := s.(power := Power(Some(Running(now, StepsOf(s.power.queued[0]))), s.power.queued[1..]));
    assert s.power.queued[0] == s.asked[Begun(s)];
    assert begun.power.queued == s.asked[Begun(begun)..];
  }

  lemma EndKeeps(s: Svc, now: Millis)
    requires SvcInv(s, now) && s.power.running.Some? && s.power.running.value.steps == []
    ensures SvcInv(s.(power := Power(None, s.power.queued)), now)
  {
    assert s.asked[..Begun(s)][Begun(s) - 1] == s.asked[Begun(s) - 1];
  }

  lemma {:induction false} RanKeeps(s: Svc, now: Millis)
    requires SvcInv(s, now)
    ensures SvcInv(Ran(s, now), now) && Rested(Ran(s, now)) && Ran(s, now).asked == s.asked
    decreases |s.power.queued|, if s.power.running.Some? then |s.power.running.value.steps| + 1 else 0
  {
    var p := s.power;
    match p.running
    case None =>
      if p.queued != [] {
        BeginKeeps(s, now);
        RanKeeps(s.(power := Power(Some(Running(now, StepsOf(p.queued[0]))), p.queued[1..])), now);
      }
    case Some(r) =>
      if r.steps == [] {
        EndKeeps(s, now);
        RanKeeps(s.(power := Power(None, p.queued)), now);
      } else if r.started + r.steps[0].at <= now {
        FireKeeps(s, r, now);
        RanKeeps(Fire(s, r), now);
        RanFired(s, r, now);
      }
  }

  /** Between events the time of the last tick no longer matters. */
  lemma AtAnyTime(s: Svc, now: Millis, later: Millis)
    requires SvcInv(s, now) && Rested(s)
    ensures SvcInv(s, later)
  {
  }

  lemma Appended(asked: seq<Sequence>, q: Sequence, n: int)
    requires 0 <= n <= |asked|
    ensures (asked + [q])[..n] == asked[..n] && (asked + [q])[n..] == asked[n..] + [q]
  {
  }

  lemma AskedRunsLast(s: Svc, q: Sequence, now: Millis)
    requires 0 <= Begun(s) <= |s.asked| && RunsLast(s, now)
    ensures Begun(Asked(s, q)) == Begun(s) && RunsLast(Asked(s, q), now)
  {
    if s.power.running.Some? {
      Appended(s.asked, q, Begun(s) - 1);
    }
  }

  lemma AskedKeeps(s: Svc, q: Sequence, now: Millis)
    requires SvcInv(s, now)
    ensures SvcInv(Asked(s, q), now)
  {
    var a := Asked(s, q);
    AskedRunsLast(s, q, now);
    Appended(s.asked, q, Begun(s));
    assert a.power.queued == a.asked[Begun(a)..];
  }

  ghost predicate AtRest(s: Svc) {
    SvcInv(s, 0) && Rested(s)
  }

  lemma TickRests(s: Svc, now: Millis)
    requires AtRest(s)
    ensures AtRest(Ran(s, now))
  {
    AtAnyTime(s, 0, now);
    RanKeeps(s, now);
    AtAnyTime(Ran(s, now), now, 0);
  }

  lemma AskRests(s: Svc, q: Sequence, now: Millis)
    requires AtRest(s)
    ensures AtRest(Ran(Asked(s, q), now))
  {
    AtAnyTime(s, 0, now);
    AskedKeeps(s, q, now);
    RanKeeps(Asked(s, q), now);
    AtAnyTime(Ran(Asked(s, q), now), now, 0);
  }

  /** Requests come and go without a change of power. */
  lemma TrafficRests(s: Svc, h: Hal)
    requires AtRest(s) && h.on == s.hal.on && (!h.on ==> h.waiting == [])
    ensures AtRest(s.(hal := h))
  {
    var t := s.(hal := h);
    assert t.power == s.power && t.asked == s.asked;
  }

  lemma EventKeeps(s: Svc, e: Command)
    requires AtRest(s)
    ensures AtRest(Advance(s, e))
  {
    match e
    case SwitchOn(now) => AskRests(s, On, now);
    case SwitchOff(now) => AskRests(s, Off, now);
    case Request => TrafficRests(s, Submitted(s.hal));
    case Turn(now, taken, later) =>
      TickRests(s, now);
      var r := Ran(s, now);
      TrafficRests(r, Served(r.hal, taken));
      TickRests(r.(hal := Served(r.hal, taken)), later);
  }

  lemma {:induction false} PlayKeeps(s: Svc, events: seq<Command>)
    requires AtRest(s)
    ensures AtRest(Operate(s, events))
    decreases |events|
  {
    if events != [] {
      EventKeeps(s, events[0]);
      PlayKeeps(Advance(s, events[0]), events[1..]);
    }
  }

  // ----- Results

  /** An On follows an On. */
  predicate SecondOn(s: Svc) {
    0 < Begun(s) <= |s.asked| && s.asked[Begun(s) - 1] == On && EndsOn(s.asked[..Begun(s) - 1])
  }

  lemma OnAtRest(s: Svc)
    requires AtRest(s)
    ensures s.hal.on <==> if s.power.running.None? then EndsOn(s.asked) else SecondOn(s)
  {
    if s.power.running.None? {
      assert s.asked[..|s.asked|] == s.asked;
    }
  }

  /**
   In every run, whatever was asked: the layer below is on exactly when nothing is running and the
   last sequence was On, or an On is running and the one before it was On.
   */
  lemma OnExactlyWhen(events: seq<Command>)
    ensures var s := Operate(BOOTED, events);
            s.hal.on <==> if s.power.running.None? then EndsOn(s.asked) else SecondOn(s)
  {
    PlayKeeps(BOOTED, events);
    OnAtRest(Operate(BOOTED, events));
  }

  /** No On is asked for straight after another. */
  predicate NoSecondOn(asked: seq<Sequence>) {
    forall k :: 0 < k < |asked| && asked[k] == On ==> asked[k - 1] == Off
  }

  lemma NeverSecondOn(s: Svc)
    requires NoSecondOn(s.asked)
    ensures !SecondOn(s)
  {
    var n := Begun(s);
    if 1 < n <= |s.asked| {
      assert s.asked[..n - 1][n - 2] == s.asked[n - 2];
    }
  }

  lemma OnWhenIdle(s: Svc)
    requires AtRest(s) && NoSecondOn(s.asked)
    ensures s.hal.on <==> !IsBusy(s.power) && EndsOn(s.asked)
  {
    OnAtRest(s);
    NeverSecondOn(s);
  }

  /** With no On straight after another: on exactly when idle and the last sequence asked for was On. */
  lemma OnWhenIdleAfterOn(events: seq<Command>)
    requires NoSecondOn(Operate(BOOTED, events).asked)
    ensures var s := Operate(BOOTED, events); s.hal.on <==> !IsBusy(s.power) && EndsOn(s.asked)
  {
    PlayKeeps(BOOTED, events);
    OnWhenIdle(Operate(BOOTED, events));
  }

  /** So from a switch-off until the next switch-on is complete every request is refused. */
  lemma RefusedAfterSwitchOff(events: seq<Command>)
    requires NoSecondOn(Operate(BOOTED, events).asked)
    requires IsBusy(Operate(BOOTED, events).power) || !EndsOn(Operate(BOOTED, events).asked)
    ensures var before, after := Operate(BOOTED, events), Advance(Operate(BOOTED, events), Request);
            && after.hal.notSent == before.hal.notSent + [before.hal.nextId]
            && after.hal.waiting == []
  {
    var s := Operate(BOOTED, events);
    PlayKeeps(BOOTED, events);
    OnWhenIdle(s);
  }

  /** Ticking before a sequence is asked for, at the time it is asked for, changes nothing. */
  lemma {:induction false} TickThenAsk(p: Power, q: Sequence, now: Millis)
    ensures var t := Ticked(p, now);
            var u := Ticked(t.power.(queued := t.power.queued + [q]), now);
            Ticked(p.(queued := p.queued + [q]), now) == TickResult(t.fired + u.fired, u.power)
    decreases |p.queued|, if p.running.Some? then |p.running.value.steps| + 1 else 0
  {
    match p.running
    case None =>
      if p.queued != [] {
        assert (p.queued + [q])[1..] == p.queued[1..] + [q];
        TickThenAsk(Power(Some(Running(now, StepsOf(p.queued[0]))), p.queued[1..]), q, now);
      }
    case Some(r) =>
      if r.steps == [] {
        TickThenAsk(Power(None, p.queued), q, now);
      } else if r.started + r.steps[0].at <= now {
        TickThenAsk(Power(Some(Running(r.started, r.steps[1..])), p.queued), q, now);
      }
  }

  lemma {:induction false} ActionsConcat(a: seq<Firing>, b: seq<Firing>)
    ensures ActionsOf(a + b) == ActionsOf(a) + ActionsOf(b)
    decreases |a|
  {
    if a == [] {
      assert a + b == b;
    } else {
      assert (a + b)[1..] == a[1..] + b;
      ActionsConcat(a[1..], b);
    }
  }

  lemma RanThenAsked(s: Svc, q: Sequence, now: Millis)
    ensures Ran(Asked(s, q), now) == Ran(Asked(Ran(s, now), q), now)
  {
    var t := Ticked(s.power, now);
    var u := Ticked(t.power.(queued := t.power.queued + [q]), now);
    TickThenAsk(s.power, q, now);
    ActionsConcat(t.fired, u.fired);
    CarryConcat(s.hal, ActionsOf(t.fired), ActionsOf(u.fired));
  }

  /** With no sequence running, an Off takes effect at once. */
  lemma OffAtOnce(s: Svc, now: Millis)
    requires s.power == IDLE
    ensures !Ran(Asked(s, Off), now).hal.on
  {
    var r := Running(now, StepsOf(Off));
    var begun := Asked(s, Off).(power := Power(Some(r), []));
    assert ([] + [Off])[1..] == [];
    assert Ticked(Asked(s, Off).power, now) == Ticked(begun.power, now);
    RanFired(begun, r, now);
    CarryStep(s.hal, Off, 0);
    var fired := Fire(begun, r);
    var rest := Ticked(fired.power, now);
    assert fired.power.running.value.steps[0] == StepsOf(Off)[1];
    assert rest.fired == [];
  }

  /**
   Power-off takes effect at once exactly when, with the steps due by now done, the layer below is
   off or no sequence is running. Otherwise requests are still taken after it.
   */
  lemma PowerOffAtOnceExactlyWhen(s: Svc, now: Millis)
    requires AtRest(s)
    ensures var due := Ran(s, now);
            !Advance(s, SwitchOff(now)).hal.on <==> !due.hal.on || !IsBusy(due.power)
  {
    var due := Ran(s, now);
    AtAnyTime(s, 0, now);
    RanKeeps(s, now);
    RanThenAsked(s, Off, now);
    if due.power.running.None? {
      OffAtOnce(due, now);
    } else {
      TickIsOver(s.power, now);
      assert Ticked(Asked(due, Off).power, now) == TickResult([], Asked(due, Off).power);
    }
  }

  /** What is still running after a tick is not due. */
  lemma {:induction false} TickIsOver(p: Power, now: Millis)
    ensures var t := Ticked(p, now).power;
            t.running.Some? ==>
              t.running.value.steps != [] && t.running.value.started + t.running.value.steps[0].at > now
    decreases |p.queued|, if p.running.Some? then |p.running.value.steps| + 1 else 0
  {
    match p.running
    case None =>
      if p.queued != [] {
        TickIsOver(Power(Some(Running(now, StepsOf(p.queued[0]))), p.queued[1..]), now);
      }
    case Some(r) =>
      if r.steps == [] {
        TickIsOver(Power(None, p.queued), now);
      } else if r.started + r.steps[0].at <= now {
        TickIsOver(Power(Some(Running(r.started, r.steps[1..])), p.queued), now);
      }
  }

  /**
   Asking for power-on a second time breaks the promise: on and idle, a power-on and then a
   power-off leave the layer below on, and the next request is taken and waits to be sent.
   */
  lemma SecondPowerOnBreaksPowerOff(s: Svc, now: Millis)
    requires s.power == IDLE && s.hal.on
    ensures var off := Advance(Advance(s, SwitchOn(now)), SwitchOff(now));
            && off.hal.on && !EndsOn(off.asked)
            && Submitted(off.hal).waiting == off.hal.waiting + [off.hal.nextId]
            && Submitted(off.hal).notSent == off.hal.notSent
  {
    var r := Running(now, StepsOf(On));
    var begun := Asked(s, On).(power := Power(Some(r), []));
    assert ([] + [On])[1..] == [];
    assert Ticked(Asked(s, On).power, now) == Ticked(begun.power, now);
    RanFired(begun, r, now);
    CarryStep(s.hal, On, 0);
    var on := Advance(s, SwitchOn(now));
    var left := Running(now, StepsOf(On)[1..]);
    assert left.steps[0] == StepsOf(On)[1];
    assert on == Fire(begun, r);
    assert Ticked(Asked(on, Off).power, now) == TickResult([], Asked(on, Off).power);
  }

  // ----- Every request after a power-off

  /** The position of the sequence running, or of the next to begin. */
  function FirstLeft(s: Svc): int {
    if s.power.running.Some? then Begun(s) - 1 else Begun(s)
  }

  /** An On asked for straight after another is still running or queued. */
  ghost predicate SecondOnLeft(s: Svc) {
    exists k :: SecondOnAt(s.asked, k) && FirstLeft(s) <= k
  }

  predicate SecondOnAt(asked: seq<Sequence>, k: int) {
    0 < k < |asked| && asked[k - 1] == On && asked[k] == On
  }

  /** Time passes and requests come, nothing else. */
  predicate Continues(from: Millis, events: seq<Command>)
    decreases |events|
  {
    events != [] ==>
      match events[0]
      case Request => Continues(from, events[1..])
      case Turn(now, _, later) => from <= now <= later && Continues(later, events[1..])
      case _ => false
  }

  /** A request made now is refused at once. */
  predicate Refuses(s: Svc) {
    Submitted(s.hal).notSent == s.hal.notSent + [s.hal.nextId] && Submitted(s.hal).waiting == s.hal.waiting
  }

  lemma RefusesExactlyWhenOff(s: Svc)
    ensures Refuses(s) <==> !s.hal.on
  {
    if s.hal.on {
      assert |s.hal.notSent + [s.hal.nextId]| == |s.hal.notSent| + 1;
    }
  }

  /** Ticking never goes back to an earlier sequence. */
  lemma {:induction false} TickMovesOn(s: Svc, now: Millis)
    requires SvcInv(s, now)
    ensures FirstLeft(Ran(s, now)) >= FirstLeft(s) && Ran(s, now).asked == s.asked
    decreases |s.power.queued|, if s.power.running.Some? then |s.power.running.value.steps| + 1 else 0
  {
    var p := s.power;
    match p.running
    case None =>
      if p.queued != [] {
        BeginKeeps(s, now);
        TickMovesOn(s.(power := Power(Some(Running(now, StepsOf(p.queued[0]))), p.queued[1..])), now);
      }
    case Some(r) =>
      if r.steps == [] {
        EndKeeps(s, now);
        TickMovesOn(s.(power := Power(None, p.queued)), now);
      } else if r.started + r.steps[0].at <= now {
        FireKeeps(s, r, now);
        TickMovesOn(Fire(s, r), now);
        RanFired(s, r, now);
      }
  }

  /** Switched off for good: at rest, Off asked for last, and no second On to come. */
  ghost predicate StaysOff(s: Svc) {
    AtRest(s) && s.asked != [] && s.asked[|s.asked| - 1] == Off && !SecondOnLeft(s)
  }

  lemma StaysOffIsOff(s: Svc)
    requires StaysOff(s)
    ensures Refuses(s)
  {
    OnAtRest(s);
    if SecondOn(s) {
      assert s.asked[..Begun(s) - 1][Begun(s) - 2] == s.asked[Begun(s) - 2];
      assert SecondOnAt(s.asked, Begun(s) - 1);
    }
    RefusesExactlyWhenOff(s);
  }

  lemma TickStaysOff(s: Svc, now: Millis)
    requires StaysOff(s)
    ensures StaysOff(Ran(s, now))
  {
    AtAnyTime(s, 0, now);
    TickMovesOn(s, now);
    TickRests(s, now);
  }

  lemma TrafficStaysOff(s: Svc, h: Hal)
    requires StaysOff(s) && h.on == s.hal.on && (!h.on ==> h.waiting == [])
    ensures StaysOff(s.(hal := h))
  {
    TrafficRests(s, h);
  }

  lemma {:induction false} ContinuationStaysOff(s: Svc, from: Millis, events: seq<Command>)
    requires StaysOff(s) && Continues(from, events)
    ensures StaysOff(Operate(s, events))
    decreases |events|
  {
    if events != [] {
      match events[0]
      case Request =>
        TrafficStaysOff(s, Submitted(s.hal));
        ContinuationStaysOff(Advance(s, Request), from, events[1..]);
      case Turn(now, taken, later) =>
        var r := Ran(s, now);
        TickStaysOff(s, now);
        TrafficStaysOff(r, Served(r.hal, taken));
        TickStaysOff(r.(hal := Served(r.hal, taken)), later);
        ContinuationStaysOff(Advance(s, events[0]), later, events[1..]);
    }
  }

  // ----- A continuation that comes to a second On

  lemma {:induction false} AllDueEnds(p: Power, r: Running, now: Millis)
    requires p.running == Some(r) && forall k :: 0 <= k < |r.steps| ==> r.started + r.steps[k].at <= now
    ensures Ticked(p, now).power == Ticked(Power(None, p.queued), now).power
    decreases |r.steps|
  {
    if r.steps != [] {
      var rest := Running(r.started, r.steps[1..]);
      AllDueEnds(Power(Some(rest), p.queued), rest, now);
    }
  }

  /** A sequence that begins does its first step and waits for the next. */
  lemma BeginsAndWaits(queued: seq<Sequence>, now: Millis)
    requires queued != []
    ensures Ticked(Power(None, queued), now).power
            == Power(Some(Running(now, StepsOf(queued[0])[1..])), queued[1..])
  {
    var steps := StepsOf(queued[0]);
    var waiting := Power(Some(Running(now, steps[1..])), queued[1..]);
    assert steps[1..][0] == steps[1];
    assert Ticked(waiting, now) == TickResult([], waiting);
    assert Ticked(Power(Some(Running(now, steps)), queued[1..]), now).power == waiting;
  }

  /** When the sequence running is over by `now`, a turn at `now` begins exactly the next. */
  lemma TurnBeginsNext(s: Svc, r: Running, now: Millis)
    requires s.power.running == Some(r) && s.power.queued != []
    requires forall k :: 0 <= k < |r.steps| ==> r.started + r.steps[k].at <= now
    ensures var after := Advance(s, Turn(now, 0, now));
            after.asked == s.asked && after.power.running.Some? && after.power.queued == s.power.queued[1..]
  {
    AllDueEnds(s.power, r, now);
    BeginsAndWaits(s.power.queued, now);
    var p := Ran(s, now).power;
    assert p.running.value.steps[0] == StepsOf(s.power.queued[0])[1];
    assert Ticked(p, now) == TickResult([], p);
  }

  lemma {:induction false} Reach(s: Svc, from: Millis, k: int) returns (events: seq<Command>)
    requires AtRest(s) && s.power.running.Some? && FirstLeft(s) <= k < |s.asked|
    ensures Continues(from, events)
    ensures var after := Operate(s, events);
            AtRest(after) && after.power.running.Some? && FirstLeft(after) == k && after.asked == s.asked
    decreases k - FirstLeft(s)
  {
    if FirstLeft(s) == k {
      events := [];
    } else {
      var r := s.power.running.value;
      var now := from + r.started + ENABLE_SETTLE_MS + PRESS_ON_MS + PRESS_OFF_MS;
      TurnBeginsNext(s, r, now);
      EventKeeps(s, Turn(now, 0, now));
      var more := Reach(Advance(s, Turn(now, 0, now)), now, k);
      events := [Turn(now, 0, now)] + more;
      assert events[1..] == more;
    }
  }

  /** Power-off with a sequence still running changes nothing but the queue. */
  lemma OffWaits(s: Svc, now: Millis)
    requires AtRest(s) && Ran(s, now).power.running.Some?
    ensures Advance(s, SwitchOff(now)) == Asked(Ran(s, now), Off)
  {
    var due := Ran(s, now);
    RanThenAsked(s, Off, now);
    TickIsOver(s.power, now);
    assert Ticked(Asked(due, Off).power, now) == TickResult([], Asked(due, Off).power);
  }

  lemma SecondOnIsReached(s: Svc, now: Millis) returns (events: seq<Command>)
    requires AtRest(s) && SecondOnLeft(Ran(s, now))
    ensures Continues(now, events) && !Refuses(Operate(Advance(s, SwitchOff(now)), events))
  {
    var due, off := Ran(s, now), Advance(s, SwitchOff(now));
    TickRests(s, now);
    var k :| SecondOnAt(due.asked, k) && FirstLeft(due) <= k;
    OffWaits(s, now);
    AskRests(s, Off, now);
    assert SecondOnAt(off.asked, k);
    events := Reach(off, now, k);
    TakesDuringSecondOn(Operate(off, events), k);
  }

  lemma TakesDuringSecondOn(z: Svc, k: int)
    requires AtRest(z) && z.power.running.Some? && FirstLeft(z) == k && SecondOnAt(z.asked, k)
    ensures !Refuses(z)
  {
    assert z.asked[..k][k - 1] == z.asked[k - 1];
    OnAtRest(z);
    RefusesExactlyWhenOff(z);
  }

  lemma OffAddsNoSecondOn(s: Svc)
    requires !SecondOnLeft(s)
    ensures !SecondOnLeft(Asked(s, Off)) && FirstLeft(Asked(s, Off)) == FirstLeft(s)
  {
    assert forall k :: SecondOnAt(s.asked + [Off], k) ==> SecondOnAt(s.asked, k);
  }

  lemma NoneLeftLater(s: Svc, t: Svc)
    requires !SecondOnLeft(s) && t.asked == s.asked && FirstLeft(t) >= FirstLeft(s)
    ensures !SecondOnLeft(t)
  {
  }

  lemma NoSecondOnStaysOff(s: Svc, now: Millis)
    requires AtRest(s) && !SecondOnLeft(Ran(s, now))
    ensures StaysOff(Advance(s, SwitchOff(now)))
  {
    var due := Ran(s, now);
    TickRests(s, now);
    RanThenAsked(s, Off, now);
    AskRests(due, Off, now);
    AtAnyTime(due, 0, now);
    AskedKeeps(due, Off, now);
    TickMovesOn(Asked(due, Off), now);
    OffAddsNoSecondOn(due);
    NoneLeftLater(Asked(due, Off), Advance(s, SwitchOff(now)));
  }

  /**
   The promise of power-off, exactly: every request after it, as time passes and others come, is
   refused if and only if, with the steps due by now done, no On that was asked for straight after
   another is still running or queued.
   */
  lemma PowerOffRefusesExactlyWhen(s: Svc, now: Millis)
    requires AtRest(s)
    ensures (forall events :: Continues(now, events) ==> Refuses(Operate(Advance(s, SwitchOff(now)), events)))
            <==> !SecondOnLeft(Ran(s, now))
  {
    var off := Advance(s, SwitchOff(now));
    if SecondOnLeft(Ran(s, now)) {
      var events := SecondOnIsReached(s, now);
    } else {
      NoSecondOnStaysOff(s, now);
      forall events | Continues(now, events)
        ensures Refuses(Operate(off, events))
      {
        ContinuationStaysOff(off, now, events);
        StaysOffIsOff(Operate(off, events));
      }
    }
  }

  /** Asking for a sequence while one runs whose next step is not due only queues it. */
  lemma AskedWhileRunning(s: Svc, r: Running, q: Sequence, now: Millis)
    requires s.power.running == Some(r) && r.steps != [] && r.started + r.steps[0].at > now
    ensures Ran(Asked(s, q), now) == Asked(s, q)
  {
    assert Ticked(Asked(s, q).power, now) == TickResult([], Asked(s, q).power);
  }

  lemma OneOn() returns (one: Svc)
    ensures one == Advance(BOOTED, SwitchOn(0)) && AtRest(one)
    ensures one.power == Power(Some(Running(0, StepsOf(On)[1..])), []) && one.asked == [On]
  {
    one := Advance(BOOTED, SwitchOn(0));
    EventKeeps(BOOTED, SwitchOn(0));
    BeginsAndWaits([On], 0);
    assert Asked(BOOTED, On).power == Power(None, [On]);
  }

  lemma OneMore(s: Svc, r: Running, q: Sequence, now: Millis) returns (t: Svc)
    requires AtRest(s) && s.power.running == Some(r) && r.steps != [] && r.started + r.steps[0].at > now
    ensures t == Ran(Asked(s, q), now) && AtRest(t)
    ensures t.power == Power(Some(r), s.power.queued + [q]) && t.asked == s.asked + [q]
  {
    AskedWhileRunning(s, r, q, now);
    AskRests(s, q, now);
    t := Asked(s, q);
  }

  /**
   Requests are refused at once and then are not: after two power-ons and a power-off at boot the
   layer below is off, and 1100 ms later it is on and takes the next request.
   */
  lemma QueuedSecondOnBreaksPowerOff() returns (one: Svc, two: Svc, off: Svc)
    ensures one == Advance(BOOTED, SwitchOn(0)) && two == Advance(one, SwitchOn(0))
    ensures off == Advance(two, SwitchOff(0)) && Refuses(off)
    ensures !Refuses(Advance(off, Turn(1100, 0, 1100)))
  {
    var r := Running(0, StepsOf(On)[1..]);
    assert r.steps[0] == StepsOf(On)[1];
    one := OneOn();
    two := OneMore(one, r, On, 0);
    off := OneMore(two, r, Off, 0);
    TakenWhenNextBegins(off, r, 1100);
  }

  lemma TakenWhenNextBegins(off: Svc, r: Running, now: Millis)
    requires AtRest(off) && off.asked == [On, On, Off] && off.power == Power(Some(r), [On, Off])
    requires forall k :: 0 <= k < |r.steps| ==> r.started + r.steps[k].at <= now
    ensures Refuses(off) && !Refuses(Advance(off, Turn(now, 0, now)))
  {
    OnAtRest(off);
    RefusesExactlyWhenOff(off);
    TurnBeginsNext(off, r, now);
    EventKeeps(off, Turn(now, 0, now));
    TakesDuringSecondOn(Advance(off, Turn(now, 0, now)), 1);
  }
}
