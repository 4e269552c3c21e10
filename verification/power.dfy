/**
 Switching the modem on and off: timed sequences of steps on its supply and its power button, one
 sequence after another. `Power` is the sequencer as a value; `PowerSequencer` is the one that runs.
 */
module PowerSequencing {
  import opened Options

  type Millis = nat

  const ENABLE_SETTLE_MS: Millis := 100
  const PRESS_ON_MS: Millis := 1000
  const PRESS_OFF_MS: Millis := 3000

  datatype Action = PowerEnable(on: bool) | PwrKey(pressed: bool) | HalPowerOn | HalPowerOff

  datatype Sequence = On | Off

  /** Actions to carry out `at` milliseconds after the sequence starts. */
  datatype Timed = Timed(at: Millis, actions: seq<Action>)

  function StepsOf(s: Sequence): seq<Timed> {
    match s
    case On =>
      [Timed(0, [PowerEnable(true)]),
       Timed(ENABLE_SETTLE_MS, [PwrKey(true)]),
       Timed(ENABLE_SETTLE_MS + PRESS_ON_MS, [PwrKey(false), HalPowerOn])]
    case Off =>
      [Timed(0, [HalPowerOff, PwrKey(true)]), Timed(PRESS_OFF_MS, [PwrKey(false)])]
  }

  datatype Running = Running(started: Millis, steps: seq<Timed>)

  datatype Power = Power(running: Option<Running>, queued: seq<Sequence>)

  const IDLE := Power(None, [])

  /** A step carried out, and when its sequence started. */
  datatype Firing = Firing(started: Millis, step: Timed) {
    function Due(): Millis {
      started + step.at
    }
  }

  datatype TickResult = TickResult(fired: seq<Firing>, power: Power)

  /** All that a tick at `now` does, one move at a time. */
  function Ticked(p: Power, now: Millis): TickResult
    decreases |p.queued|, if p.running.Some? then |p.running.value.steps| + 1 else 0
  {
    match p.running
    case None =>
      if p.queued == [] then TickResult([], p)
      else Ticked(Power(Some(Running(now, StepsOf(p.queued[0]))), p.queued[1..]), now)
    case Some(r) =>
      if r.steps == [] then Ticked(Power(None, p.queued), now)
      else if r.started + r.steps[0].at <= now then
        var rest := Ticked(Power(Some(Running(r.started, r.steps[1..])), p.queued), now);
        TickResult([Firing(r.started, r.steps[0])] + rest.fired, rest.power)
      else TickResult([], p)
  }

  function ActionsOf(fired: seq<Firing>): seq<Action> {
    if fired == [] then [] else fired[0].step.actions + ActionsOf(fired[1..])
  }

  lemma Regroup(a: seq<Action>, b: seq<Action>, c: seq<Action>)
    ensures a + (b + c) == a + b + c
  {
  }

  lemma DueNext(r: Running, queued: seq<Sequence>, now: Millis)
    requires r.steps != [] && r.started + r.steps[0].at <= now
    ensures var whole := Ticked(Power(Some(r), queued), now);
            var rest := Ticked(Power(Some(Running(r.started, r.steps[1..])), queued), now);
            whole.power == rest.power && ActionsOf(whole.fired) == r.steps[0].actions + ActionsOf(rest.fired)
  {
    var rest := Ticked(Power(Some(Running(r.started, r.steps[1..])), queued), now).fired;
    assert ([Firing(r.started, r.steps[0])] + rest)[1..] == rest;
  }

  function NextDeadline(p: Power): Option<Millis> {
    match p.running
    case Some(r) => if r.steps == [] then None else Some(r.started + r.steps[0].at)
    case None => if p.queued != [] then Some(0) else None
  }

  predicate IsBusy(p: Power) {
    p.running.Some? || p.queued != []
  }

  class PowerSequencer {
    var running: Option<Running>
    var queued: seq<Sequence>

    function Value(): Power
      reads this
    {
      Power(running, queued)
    }

    constructor ()
      ensures Value() == IDLE
    {
      running, queued := None, [];
    }

    method Start(s: Sequence)
      modifies this
      ensures Value() == old(Value()).(queued := old(queued) + [s])
    {
      queued := queued + [s];
    }

    method Tick(now: Millis) returns (actions: seq<Action>)
      modifies this
      ensures actions == ActionsOf(Ticked(old(Value()), now).fired)
      ensures Value() == Ticked(old(Value()), now).power
    {
      ghost var whole := Ticked(Value(), now);
      actions := [];
      while true
        invariant Ticked(Value(), now).power == whole.power
        invariant actions + ActionsOf(Ticked(Value(), now).fired) == ActionsOf(whole.fired)
        decreases |queued|, running.Some?
      {
        if running.None? {
          if queued == [] {
            return;
          }
          running, queued := Some(Running(now, StepsOf(queued[0]))), queued[1..];
        }
        var more := FireDue(now);
        ghost var rest := ActionsOf(Ticked(Value(), now).fired);
        Regroup(actions, more, rest);
        actions := actions + more;
        assert actions + rest == ActionsOf(whole.fired);
        if running.value.steps != [] {
          return;
        }
        running := None;
        assert rest == ActionsOf(Ticked(Value(), now).fired);
      }
    }

    /** The due steps of the sequence running. */
    method FireDue(now: Millis) returns (actions: seq<Action>)
      requires running.Some?
      modifies this`running
      ensures running.Some?
      ensures running.value.steps != [] ==> running.value.started + running.value.steps[0].at > now
      ensures Ticked(Value(), now).power == Ticked(old(Value()), now).power
      ensures actions + ActionsOf(Ticked(Value(), now).fired) == ActionsOf(Ticked(old(Value()), now).fired)
    {
      ghost var whole := Ticked(Value(), now);
      var started, steps := running.value.started, running.value.steps;
      actions := [];
      while steps != [] && started + steps[0].at <= now
        invariant running == Some(Running(started, steps))
        invariant Ticked(Value(), now).power == whole.power
        invariant actions + ActionsOf(Ticked(Value(), now).fired) == ActionsOf(whole.fired)
        decreases |steps|
      {
        DueNext(Running(started, steps), queued, now);
        actions := actions + steps[0].actions;
        steps := steps[1..];
        running := Some(Running(started, steps));
      }
    }

    method NextTick() returns (deadline: Option<Millis>)
      ensures deadline == NextDeadline(Value())
    {
      match running {
        case Some(r) => deadline := if r.steps == [] then None else Some(r.started + r.steps[0].at);
        case None => deadline := if queued != [] then Some(0) else None;
      }
    }
  }

  // ----- Runs

  datatype Stamped = Stamped(now: Millis, firing: Firing)

  /** A sequencer at work: what was asked of it, what it did and when, its last tick, and all its ticks. */
  datatype Work = Work(power: Power, asked: seq<Sequence>, log: seq<Stamped>, clock: Millis, ticks: set<Millis>)

  datatype Event = Ask(s: Sequence) | TickAt(now: Millis)

  function Stamp(fired: seq<Firing>, now: Millis): seq<Stamped> {
    if fired == [] then [] else [Stamped(now, fired[0])] + Stamp(fired[1..], now)
  }

  function Apply(w: Work, e: Event): Work {
    match e
    case Ask(s) => w.(power := w.power.(queued := w.power.queued + [s]), asked := w.asked + [s])
    case TickAt(now) =>
      var t := Ticked(w.power, now);
      w.(power := t.power, log := w.log + Stamp(t.fired, now), clock := now, ticks := w.ticks + {now})
  }

  function Play(w: Work, events: seq<Event>): Work
    decreases |events|
  {
    if events == [] then w else Play(Apply(w, events[0]), events[1..])
  }

  /** Time does not run backwards. */
  predicate Timely(from: Millis, events: seq<Event>)
    decreases |events|
  {
    events != [] ==>
      match events[0]
      case Ask(_) => Timely(from, events[1..])
      case TickAt(now) => from <= now && Timely(now, events[1..])
  }

  const FRESH := Work(IDLE, [], [], 0, {})

  // ----- What is asked is done, all of it and in order

  function AllSteps(asked: seq<Sequence>): seq<Timed> {
    if asked == [] then [] else StepsOf(asked[0]) + AllSteps(asked[1..])
  }

  function StepsDone(log: seq<Stamped>): seq<Timed> {
    if log == [] then [] else StepsDone(log[..|log| - 1]) + [log[|log| - 1].firing.step]
  }

  /** The steps still to come. */
  function StepsDue(p: Power): seq<Timed> {
    (if p.running.Some? then p.running.value.steps else []) + AllSteps(p.queued)
  }

  lemma {:induction false} AllStepsConcat(a: seq<Sequence>, b: seq<Sequence>)
    ensures AllSteps(a + b) == AllSteps(a) + AllSteps(b)
    decreases |a|
  {
    if a == [] {
      assert a + b == b;
    } else {
      assert (a + b)[1..] == a[1..] + b;
      AllStepsConcat(a[1..], b);
    }
  }

  // ----- How a log and what is still running fit together

  /** A step of the log is neither early nor out of its turn, nor held back when already due. */
  predicate EntryOk(log: seq<Stamped>, k: nat)
    requires k < |log|
  {
    var e := log[k];
    && e.firing.Due() <= e.now
    && (e.firing.step.at == 0 ==> e.firing.started == e.now)
    && (e.firing.step.at > 0 ==>
          && k > 0
          && e.firing.started == log[k - 1].firing.started
          && log[k - 1].now <= e.now
          && (e.firing.Due() <= log[k - 1].now ==> e.now == log[k - 1].now))
  }

  ghost predicate LogOk(log: seq<Stamped>) {
    forall k :: 0 <= k < |log| ==> EntryOk(log, k)
  }

  /** The sequence running carries on where the log ends. */
  ghost predicate Continues(log: seq<Stamped>, p: Power, clock: Millis) {
    p.running.Some? ==>
      var r := p.running.value;
      && r.started <= clock
      && (forall k :: 1 <= k < |r.steps| ==> r.steps[k].at > 0)
      && (r.steps != [] && r.steps[0].at == 0 ==> r.started == clock)
      && (r.steps != [] && r.steps[0].at > 0 ==>
            && log != []
            && var last := log[|log| - 1];
            && last.firing.started == r.started
            && last.now <= clock
            && (r.started + r.steps[0].at <= last.now ==> last.now == clock))
  }

  ghost predicate WorkInv(w: Work) {
    && LogOk(w.log)
    && Continues(w.log, w.power, w.clock)
    && StepsDone(w.log) + StepsDue(w.power) == AllSteps(w.asked)
  }

  /** Nothing due is left: between events, a sequence running waits for a step still to come. */
  ghost predicate Settled(w: Work) {
    w.power.running.Some? ==>
      var r := w.power.running.value;
      r.steps != [] && r.started + r.steps[0].at > w.clock
  }

  lemma FireKeeps(w: Work, r: Running)
    requires WorkInv(w) && w.power.running == Some(r)
    requires r.steps != [] && r.started + r.steps[0].at <= w.clock
    ensures WorkInv(Fire(w, r))
  {
    var entry := Stamped(w.clock, Firing(r.started, r.steps[0]));
    var log := w.log + [entry];
    assert log[..|log| - 1] == w.log;
    forall k | 0 <= k < |log|
      ensures EntryOk(log, k)
    {
      if k < |w.log| {
        assert EntryOk(w.log, k);
      }
    }
    assert r.steps == [r.steps[0]] + r.steps[1..];
    var due := r.steps[1..] + AllSteps(w.power.queued);
    assert StepsDone(w.log) + [r.steps[0]] + due == StepsDone(w.log) + ([r.steps[0]] + due);
    assert StepsDue(w.power) == [r.steps[0]] + due;
  }

  lemma BeginKeeps(w: Work)
    requires WorkInv(w) && w.power.running.None? && w.power.queued != []
    ensures WorkInv(w.(power := Power(Some(Running(w.clock, StepsOf(w.power.queued[0]))), w.power.queued[1..])))
  {
  }

  /** The state a tick leads to. */
  function Finish(w: Work): Work {
    var t := Ticked(w.power, w.clock);
    w.(power := t.power, log := w.log + Stamp(t.fired, w.clock))
  }

  function Fire(w: Work, r: Running): Work
    requires r.steps != []
  {
    w.(power := w.power.(running := Some(Running(r.started, r.steps[1..]))),
       log := w.log + [Stamped(w.clock, Firing(r.started, r.steps[0]))])
  }

  lemma FinishFired(w: Work, r: Running)
    requires w.power.running == Some(r) && r.steps != [] && r.started + r.steps[0].at <= w.clock
    ensures Finish(w) == Finish(Fire(w, r))
  {
    var entry, now := Stamped(w.clock, Firing(r.started, r.steps[0])), w.clock;
    var rest := Ticked(Fire(w, r).power, now);
    var whole := Ticked(w.power, now);
    assert whole.fired[1..] == rest.fired;
    assert Stamp(whole.fired, now) == [entry] + Stamp(rest.fired, now);
    assert w.log + ([entry] + Stamp(rest.fired, now)) == w.log + [entry] + Stamp(rest.fired, now);
  }

  /** A tick keeps the invariant from any state it passes through. */
  lemma {:induction false} TickKeeps(w: Work)
    requires WorkInv(w)
    ensures WorkInv(Finish(w)) && Settled(Finish(w))
    decreases |w.power.queued|, if w.power.running.Some? then |w.power.running.value.steps| + 1 else 0
  {
    var p := w.power;
    assert w.log + [] == w.log;
    match p.running
    case None =>
      if p.queued != [] {
        BeginKeeps(w);
        TickKeeps(w.(power := Power(Some(Running(w.clock, StepsOf(p.queued[0]))), p.queued[1..])));
      }
    case Some(r) =>
      if r.steps == [] {
        assert [] + AllSteps(p.queued) == AllSteps(p.queued);
        TickKeeps(w.(power := Power(None, p.queued)));
      } else if r.started + r.steps[0].at <= w.clock {
        FireKeeps(w, r);
        TickKeeps(Fire(w, r));
        FinishFired(w, r);
      }
  }

  lemma DueGrows(p: Power, s: Sequence)
    ensures StepsDue(p.(queued := p.queued + [s])) == StepsDue(p) + AllSteps([s])
  {
    AllStepsConcat(p.queued, [s]);
  }

  lemma AskKeeps(w: Work, s: Sequence)
    requires WorkInv(w)
    ensures WorkInv(Apply(w, Ask(s)))
  {
    AllStepsConcat(w.asked, [s]);
    DueGrows(w.power, s);
    var done, due, more := StepsDone(w.log), StepsDue(w.power), AllSteps([s]);
    assert done + (due + more) == done + due + more;
  }

  lemma EventKeeps(w: Work, e: Event)
    requires WorkInv(w) && Settled(w) && (e.TickAt? ==> w.clock <= e.now)
    ensures WorkInv(Apply(w, e)) && Settled(Apply(w, e))
  {
    match e
    case Ask(s) => AskKeeps(w, s);
    case TickAt(now) => TickKeeps(w.(clock := now, ticks := w.ticks + {now}));
  }

  lemma {:induction false} PlayKeeps(w: Work, events: seq<Event>)
    requires WorkInv(w) && Settled(w) && Timely(w.clock, events)
    ensures WorkInv(Play(w, events)) && Settled(Play(w, events))
    decreases |events|
  {
    if events != [] {
      EventKeeps(w, events[0]);
      PlayKeeps(Apply(w, events[0]), events[1..]);
    }
  }

  // ----- No step waits past a tick that could have done it

  ghost predicate Ascends(steps: seq<Timed>) {
    forall i, j :: 0 <= i < j < |steps| ==> steps[i].at < steps[j].at
  }

  /** No tick before the one that did a step, or before the clock, could have done it. */
  ghost predicate Prompt(w: Work) {
    && (forall t :: t in w.ticks ==> t <= w.clock)
    && (forall k :: 0 <= k < |w.log| ==> w.log[k].now in w.ticks)
    && (forall k, t :: 0 <= k < |w.log| && t in w.ticks && t < w.log[k].now ==> t < w.log[k].firing.Due())
    && (w.power.running.Some? ==> AwaitsLater(w, w.power.running.value))
  }

  ghost predicate AwaitsLater(w: Work, r: Running) {
    Ascends(r.steps)
    && forall i, t :: 0 <= i < |r.steps| && t in w.ticks && t < w.clock ==> t < r.started + r.steps[i].at
  }

  lemma FirePrompt(w: Work, r: Running)
    requires Prompt(w) && w.clock in w.ticks && w.power.running == Some(r) && r.steps != []
    ensures Prompt(Fire(w, r))
  {
    var f := Fire(w, r);
    assert AwaitsLater(w, r);
    forall k, t | 0 <= k < |f.log| && t in f.ticks && t < f.log[k].now
      ensures t < f.log[k].firing.Due()
    {
      if k < |w.log| {
        assert f.log[k] == w.log[k];
      } else {
        assert t < r.started + r.steps[0].at;
      }
    }
    forall i, t | 0 <= i < |r.steps[1..]| && t in f.ticks && t < f.clock
      ensures t < r.started + r.steps[1..][i].at
    {
      assert r.steps[1..][i] == r.steps[i + 1];
    }
  }

  lemma {:induction false} TickPrompt(w: Work)
    requires Prompt(w) && w.clock in w.ticks
    ensures Prompt(Finish(w))
    decreases |w.power.queued|, if w.power.running.Some? then |w.power.running.value.steps| + 1 else 0
  {
    var p := w.power;
    assert w.log + [] == w.log;
    match p.running
    case None =>
      if p.queued != [] {
        TickPrompt(w.(power := Power(Some(Running(w.clock, StepsOf(p.queued[0]))), p.queued[1..])));
      }
    case Some(r) =>
      if r.steps == [] {
        TickPrompt(w.(power := Power(None, p.queued)));
      } else if r.started + r.steps[0].at <= w.clock {
        FirePrompt(w, r);
        TickPrompt(Fire(w, r));
        FinishFired(w, r);
      }
  }

  /** The next tick finds every step still to come due later than the ticks before it. */
  lemma ClockMovesOn(w: Work, now: Millis)
    requires Prompt(w) && Settled(w) && w.clock <= now
    ensures Prompt(w.(clock := now, ticks := w.ticks + {now}))
  {
    var v := w.(clock := now, ticks := w.ticks + {now});
    if w.power.running.Some? {
      var r := w.power.running.value;
      forall i, t | 0 <= i < |r.steps| && t in v.ticks && t < now
        ensures t < r.started + r.steps[i].at
      {
        assert t in w.ticks && r.steps[0].at <= r.steps[i].at;
      }
    }
  }

  lemma EventPrompt(w: Work, e: Event)
    requires Prompt(w) && Settled(w) && (e.TickAt? ==> w.clock <= e.now)
    ensures Prompt(Apply(w, e))
  {
    match e
    case Ask(_) =>
    case TickAt(now) =>
      ClockMovesOn(w, now);
      TickPrompt(w.(clock := now, ticks := w.ticks + {now}));
  }

  lemma {:induction false} PlayPrompt(w: Work, events: seq<Event>)
    requires WorkInv(w) && Settled(w) && Prompt(w) && Timely(w.clock, events)
    ensures Prompt(Play(w, events))
    decreases |events|
  {
    if events != [] {
      EventKeeps(w, events[0]);
      EventPrompt(w, events[0]);
      PlayPrompt(Apply(w, events[0]), events[1..]);
    }
  }

  // ----- Results

  /** In every run, the steps done and the steps still due are the sequences asked for, in order. */
  lemma NothingLostOrReordered(events: seq<Event>)
    requires Timely(0, events)
    ensures var w := Play(FRESH, events); StepsDone(w.log) + StepsDue(w.power) == AllSteps(w.asked)
  {
    PlayKeeps(FRESH, events);
  }

  /** In every run each step is done by the first tick that is not before it is due. */
  lemma OnTime(events: seq<Event>)
    requires Timely(0, events)
    ensures var w := Play(FRESH, events);
            && (forall k :: 0 <= k < |w.log| ==> w.log[k].firing.Due() <= w.log[k].now && w.log[k].now in w.ticks)
            && (forall k, t :: 0 <= k < |w.log| && t in w.ticks && w.log[k].firing.Due() <= t ==> w.log[k].now <= t)
            && (w.power.running.Some? ==> NextDeadline(w.power).Some? && NextDeadline(w.power).value > w.clock)
  {
    PlayKeeps(FRESH, events);
    PlayPrompt(FRESH, events);
    var w := Play(FRESH, events);
    forall k | 0 <= k < |w.log|
      ensures w.log[k].firing.Due() <= w.log[k].now
    {
      assert EntryOk(w.log, k);
    }
  }

  /** The button's presses and releases, from a button released or pressed. */
  predicate Alternates(steps: seq<Timed>, pressed: bool) {
    steps != [] ==>
      var rest := steps[1..];
      if PwrKey(true) in steps[0].actions then
        !pressed && PwrKey(false) !in steps[0].actions && Alternates(rest, true)
      else if PwrKey(false) in steps[0].actions then pressed && Alternates(rest, false)
      else Alternates(rest, pressed)
  }

  /** Whether the button is down after these steps. */
  function Pressed(steps: seq<Timed>, pressed: bool): bool {
    if steps == [] then pressed
    else if PwrKey(true) in steps[0].actions then Pressed(steps[1..], true)
    else if PwrKey(false) in steps[0].actions then Pressed(steps[1..], false)
    else Pressed(steps[1..], pressed)
  }

  lemma {:induction false} AlternatesConcat(a: seq<Timed>, b: seq<Timed>, pressed: bool)
    ensures Alternates(a + b, pressed) <==> Alternates(a, pressed) && Alternates(b, Pressed(a, pressed))
    ensures Pressed(a + b, pressed) == Pressed(b, Pressed(a, pressed))
    decreases |a|
  {
    if a == [] {
      assert a + b == b;
    } else {
      assert (a + b)[1..] == a[1..] + b;
      AlternatesConcat(a[1..], b, true);
      AlternatesConcat(a[1..], b, false);
    }
  }

  lemma SequenceAlternates(s: Sequence)
    ensures Alternates(StepsOf(s), false) && !Pressed(StepsOf(s), false)
  {
    var steps := StepsOf(s);
    var last := steps[|steps| - 1..];
    assert last[1..] == [];
    assert last[0].actions[0] == PwrKey(false);
    assert Pressed(last, true) == Pressed([], false);
    assert Alternates(last, true) && !Pressed(last, true);
    var press := steps[|steps| - 2..];
    assert press[1..] == last;
    assert press[0].actions[if s == On then 0 else 1] == PwrKey(true);
    assert Alternates(press, false) && !Pressed(press, false);
    if s == On {
      assert steps[1..] == press;
    } else {
      assert steps == press;
    }
  }

  lemma {:induction false} AllAlternate(asked: seq<Sequence>)
    ensures Alternates(AllSteps(asked), false) && !Pressed(AllSteps(asked), false)
  {
    if asked != [] {
      SequenceAlternates(asked[0]);
      AllAlternate(asked[1..]);
      AlternatesConcat(StepsOf(asked[0]), AllSteps(asked[1..]), false);
    }
  }

  /** In every run presses and releases alternate, and with nothing due the button is released. */
  lemma PressesAlternate(events: seq<Event>)
    requires Timely(0, events)
    ensures var w := Play(FRESH, events);
            && Alternates(StepsDone(w.log), false)
            && (!IsBusy(w.power) ==> !Pressed(StepsDone(w.log), false))
  {
    PlayKeeps(FRESH, events);
    var w := Play(FRESH, events);
    AllAlternate(w.asked);
    AlternatesConcat(StepsDone(w.log), StepsDue(w.power), false);
    if !IsBusy(w.power) {
      assert StepsDone(w.log) + [] == StepsDone(w.log);
    }
  }

  // ----- How long the button is held

  lemma {:induction false} StepOfEntry(log: seq<Stamped>, k: nat)
    requires k < |log|
    ensures |StepsDone(log)| == |log| && StepsDone(log)[k] == log[k].firing.step
  {
    if k < |log| - 1 {
      StepOfEntry(log[..|log| - 1], k);
    } else if |log| > 1 {
      StepOfEntry(log[..|log| - 1], 0);
    }
  }

  /** How long each sequence means to hold the button. */
  function PulseOf(press: Timed): Millis {
    if press.at == 0 then PRESS_OFF_MS else PRESS_ON_MS
  }

  /** In what is asked for, a press is followed by its own release. */
  lemma {:induction false} ReleaseFollows(asked: seq<Sequence>, k: nat)
    requires k < |AllSteps(asked)| && PwrKey(true) in AllSteps(asked)[k].actions
    ensures k + 1 < |AllSteps(asked)|
    ensures var press, release := AllSteps(asked)[k], AllSteps(asked)[k + 1];
            PwrKey(false) in release.actions && release.at == press.at + PulseOf(press)
  {
    var first := StepsOf(asked[0]);
    if k < |first| {
      var release := AllSteps(asked)[k + 1];
      assert release.actions[0] == PwrKey(false);
    } else {
      ReleaseFollows(asked[1..], k - |first|);
    }
  }

  /** The press at `k` and the release after it, of one sequence. */
  lemma ReleaseOf(w: Work, k: nat)
    requires WorkInv(w) && k + 1 < |w.log| && PwrKey(true) in w.log[k].firing.step.actions
    ensures var press, release := w.log[k], w.log[k + 1];
            && PwrKey(false) in release.firing.step.actions
            && press.firing.Due() <= press.now <= release.now
            && release.firing.Due() == press.firing.Due() + PulseOf(press.firing.step)
            && (release.firing.Due() <= press.now ==> release.now == press.now)
            && release.firing.Due() <= release.now
            && (press.firing.step.at == 0 ==> press.now == press.firing.Due())
  {
    StepOfEntry(w.log, k);
    StepOfEntry(w.log, k + 1);
    assert AllSteps(w.asked)[k] == StepsDone(w.log)[k] && AllSteps(w.asked)[k + 1] == StepsDone(w.log)[k + 1];
    ReleaseFollows(w.asked, k);
    assert EntryOk(w.log, k) && EntryOk(w.log, k + 1);
  }

  /**
   In every run a press is held for less than its pulse if and only if some tick comes when the
   release is due but the pulse is not over; and for no time at all if and only if the press came as
   late as the whole pulse. Switching off, the press is never late and never short.
   */
  lemma PulseLength(events: seq<Event>, k: nat)
    requires Timely(0, events)
    requires var log := Play(FRESH, events).log;
             k + 1 < |log| && PwrKey(true) in log[k].firing.step.actions
    ensures var w := Play(FRESH, events);
            var press, release, pulse := w.log[k], w.log[k + 1], PulseOf(w.log[k].firing.step);
            var late, held := press.now - press.firing.Due(), release.now - press.now;
            && PwrKey(false) in release.firing.step.actions
            && late >= 0 && held >= 0
            && (held < pulse <==>
                exists t :: t in w.ticks && press.firing.Due() + pulse <= t < press.now + pulse)
            && (held == 0 <==> late >= pulse)
            && (press.firing.step.at == 0 ==> late == 0 && held >= PRESS_OFF_MS)
  {
    PlayKeeps(FRESH, events);
    OnTime(events);
    var w := Play(FRESH, events);
    ReleaseOf(w, k);
    assert w.log[k + 1].now in w.ticks;
  }

  /** The press just done, if it is released at all, was held for its whole pulse. */
  predicate HeldInFull(w: Work, k: nat) {
    k + 1 < |w.log| ==> w.log[k + 1].now - w.log[k].now >= PulseOf(w.log[k].firing.step)
  }

  /** A run only adds to the log. */
  lemma {:induction false} LogGrows(w: Work, events: seq<Event>)
    ensures w.log <= Play(w, events).log
    decreases |events|
  {
    if events != [] {
      LogGrows(Apply(w, events[0]), events[1..]);
    }
  }

  /** A tick when the head step is due does it. */
  lemma TickDoesHead(w: Work, now: Millis)
    requires w.power.running.Some? && w.power.running.value.steps != []
    requires w.power.running.value.started + w.power.running.value.steps[0].at <= now
    ensures var r := w.power.running.value;
            |Apply(w, TickAt(now)).log| > |w.log|
            && Apply(w, TickAt(now)).log[|w.log|] == Stamped(now, Firing(r.started, r.steps[0]))
  {
  }

  /** A press that is the last thing done waits for its release. */
  lemma PressWaits(w: Work)
    requires WorkInv(w) && Settled(w) && w.log != []
    requires PwrKey(true) in w.log[|w.log| - 1].firing.step.actions
    ensures var press := w.log[|w.log| - 1];
            && w.power.running.Some? && w.power.running.value.steps != []
            && w.power.running.value.started + w.power.running.value.steps[0].at
               == press.firing.Due() + PulseOf(press.firing.step)
  {
    var k := |w.log| - 1;
    StepOfEntry(w.log, k);
    assert AllSteps(w.asked)[k] == StepsDone(w.log)[k];
    ReleaseFollows(w.asked, k);
    assert AllSteps(w.asked)[k + 1] == StepsDue(w.power)[0];
    if w.power.running.None? {
      QueuedStartsFresh(w.power.queued);
    }
  }

  lemma QueuedStartsFresh(queued: seq<Sequence>)
    ensures queued != [] ==> AllSteps(queued) != [] && AllSteps(queued)[0].at == 0
  {
  }

  /**
   From any state of any run in which a press is the last step done, it is held in full however the
   run goes on if and only if it was not late.
   */
  lemma HeldInFullExactlyWhen(run: seq<Event>)
    requires Timely(0, run) && Play(FRESH, run).log != []
    requires var log := Play(FRESH, run).log; PwrKey(true) in log[|log| - 1].firing.step.actions
    ensures var w := Play(FRESH, run);
            var k := |w.log| - 1;
            (forall more :: Timely(w.clock, more) ==> HeldInFull(Play(w, more), k))
            <==> w.log[k].now == w.log[k].firing.Due()
  {
    PlayKeeps(FRESH, run);
    var w := Play(FRESH, run);
    var k := |w.log| - 1;
    if w.log[k].now == w.log[k].firing.Due() {
      forall more | Timely(w.clock, more)
        ensures HeldInFull(Play(w, more), k)
      {
        HeldWhenPunctual(w, more);
      }
    } else {
      var more := ShortContinuation(w);
    }
  }

  lemma HeldWhenPunctual(w: Work, more: seq<Event>)
    requires WorkInv(w) && Settled(w) && Timely(w.clock, more) && w.log != []
    requires PwrKey(true) in w.log[|w.log| - 1].firing.step.actions
    requires w.log[|w.log| - 1].now == w.log[|w.log| - 1].firing.Due()
    ensures HeldInFull(Play(w, more), |w.log| - 1)
  {
    var k := |w.log| - 1;
    PlayKeeps(w, more);
    LogGrows(w, more);
    if k + 1 < |Play(w, more).log| {
      ReleaseOf(Play(w, more), k);
    }
  }

  lemma ShortContinuation(w: Work) returns (more: seq<Event>)
    requires WorkInv(w) && Settled(w) && w.log != []
    requires PwrKey(true) in w.log[|w.log| - 1].firing.step.actions
    requires w.log[|w.log| - 1].now != w.log[|w.log| - 1].firing.Due()
    ensures Timely(w.clock, more) && !HeldInFull(Play(w, more), |w.log| - 1)
  {
    var k := |w.log| - 1;
    PressWaits(w);
    assert EntryOk(w.log, k);
    var r := w.power.running.value;
    var now := r.started + r.steps[0].at;
    more := [TickAt(now)];
    TickDoesHead(w, now);
    assert more[1..] == [];
    assert Play(w, more) == Apply(w, TickAt(now));
  }

  // ----- A short pulse, and a late one that is not short

  /** Power-on asked for, its first step at 0, and the press 400 ms late at 500. */
  lemma LatePress() returns (asked: Work, enabled: Work, pressed: Work)
    ensures asked == Apply(FRESH, Ask(On)) && enabled == Apply(asked, TickAt(0))
    ensures pressed == Apply(enabled, TickAt(500))
    ensures pressed.power == Power(Some(Running(0, StepsOf(On)[2..])), [])
    ensures pressed.log == [Stamped(0, Firing(0, StepsOf(On)[0])), Stamped(500, Firing(0, StepsOf(On)[1]))]
  {
    var steps := StepsOf(On);
    asked := Apply(FRESH, Ask(On));
    assert asked.power == Power(None, [On]);
    var waiting := Power(Some(Running(0, steps[1..])), []);
    assert steps[1..][0] == steps[1] && steps[1..][1..] == steps[2..] && steps[2..][0] == steps[2];
    assert Ticked(waiting, 0) == TickResult([], waiting);
    assert Ticked(Power(Some(Running(0, steps)), []), 0) == TickResult([Firing(0, steps[0])], waiting);
    assert Ticked(asked.power, 0) == TickResult([Firing(0, steps[0])], waiting);
    enabled := Apply(asked, TickAt(0));
    var pulsing := Power(Some(Running(0, steps[2..])), []);
    assert Ticked(pulsing, 500) == TickResult([], pulsing);
    assert Ticked(waiting, 500) == TickResult([Firing(0, steps[1])], pulsing);
    pressed := Apply(enabled, TickAt(500));
    var first, second := Firing(0, steps[0]), Firing(0, steps[1]);
    assert [first][1..] == [] && [second][1..] == [];
    assert Stamp([first], 0) == [Stamped(0, first)] && Stamp([second], 500) == [Stamped(500, second)];
    assert enabled.log == [Stamped(0, first)];
  }

  /** Released on time after a late press, the button was held for 600 ms; released late as well, for 1500 ms. */
  lemma LatePressMayBeShort() returns (asked: Work, enabled: Work, pressed: Work)
    ensures asked == Apply(FRESH, Ask(On)) && enabled == Apply(asked, TickAt(0))
    ensures pressed == Apply(enabled, TickAt(500))
    ensures |pressed.log| == 2 && PwrKey(true) in pressed.log[1].firing.step.actions
    ensures !HeldInFull(Apply(pressed, TickAt(1100)), 1) && HeldInFull(Apply(pressed, TickAt(2000)), 1)
    ensures |Apply(pressed, TickAt(1100)).log| > 2 && |Apply(pressed, TickAt(2000)).log| > 2
    ensures Apply(pressed, TickAt(1100)).log[2].now - pressed.log[1].now == 600
    ensures Apply(pressed, TickAt(2000)).log[2].now - pressed.log[1].now == 1500
  {
    asked, enabled, pressed := LatePress();
    assert StepsOf(On)[2..][0] == StepsOf(On)[2];
    assert StepsOf(On)[1].actions[0] == PwrKey(true);
    TickDoesHead(pressed, 1100);
    TickDoesHead(pressed, 2000);
  }

  // ----- When to tick

  /** Ticking before the deadline does nothing; ticking at it or later leaves less to do. */
  lemma DeadlineMakesProgress(w: Work, now: Millis)
    requires WorkInv(w) && Settled(w) && w.clock <= now
    ensures IsBusy(w.power) <==> NextDeadline(w.power).Some?
    ensures var after := Apply(w, TickAt(now));
            if IsBusy(w.power) && NextDeadline(w.power).value <= now
            then |StepsDue(after.power)| < |StepsDue(w.power)|
            else after.power == w.power && after.log == w.log
  {
    if IsBusy(w.power) && NextDeadline(w.power).value <= now {
      var p := w.power;
      var r := if p.running.Some? then p.running.value else Running(now, StepsOf(p.queued[0]));
      var begun := Power(Some(r), if p.running.Some? then p.queued else p.queued[1..]);
      assert Ticked(p, now) == Ticked(begun, now);
      FiredIsDue(Power(Some(Running(r.started, r.steps[1..])), begun.queued), now);
      assert StepsDue(begun) == StepsDue(p);
    } else {
      assert w.log + [] == w.log;
    }
  }

  lemma {:induction false} FiredIsDue(p: Power, now: Millis)
    ensures |StepsDue(Ticked(p, now).power)| + |Ticked(p, now).fired| == |StepsDue(p)|
    decreases |p.queued|, if p.running.Some? then |p.running.value.steps| + 1 else 0
  {
    match p.running
    case None =>
      if p.queued != [] {
        FiredIsDue(Power(Some(Running(now, StepsOf(p.queued[0]))), p.queued[1..]), now);
      }
    case Some(r) =>
      if r.steps == [] {
        FiredIsDue(Power(None, p.queued), now);
      } else if r.started + r.steps[0].at <= now {
        FiredIsDue(Power(Some(Running(r.started, r.steps[1..])), p.queued), now);
      }
  }
}
