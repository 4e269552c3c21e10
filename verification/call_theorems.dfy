/** What the call service guarantees over every run. */
module CallTheorems {
  import opened Options
  import opened Modem
  import opened CallService
  import opened CallWorld
  import opened CallDiscipline

  ghost predicate Inv(w: World) {
    && LineInv(w.sys.cm.line, w.now)
    && ViewInv(w)
    && RequestInv(w.sys, w.handled)
    && ReplyInv(w)
    && FreshInv(w)
    && LinkInv(w)
  }

  /** The user's steps, the timer and the clock. */
  predicate IsLocal(st: Step) {
    st.UserDial? || st.UserAnswer? || st.UserHangUp? || st.UserVolume? || st.UserDismiss? || st.Timer?
    || st.Elapse? || st.OtherSubmit?
  }

  lemma LocalKeepsLine(w: World, st: Step)
    requires LineInv(w.sys.cm.line, w.now) && IsLocal(st)
    ensures LineInv(Next(w, st).sys.cm.line, Next(w, st).now)
  {
    assert TrackedCall(w.sys.cm.line.(ended := None)) == TrackedCall(w.sys.cm.line);
  }

  lemma LocalKeepsRequests(w: World, st: Step)
    requires RequestInv(w.sys, w.handled) && IsLocal(st)
    ensures RequestInv(Next(w, st).sys, w.handled)
  {
    var x := w.sys;
    match st
    case UserDial(number) => DialKeeps(x, w.handled, number, w.now);
    case UserAnswer => ActKeeps(x, w.handled, AnswerCall);
    case UserHangUp => ActKeeps(x, w.handled, EndCalls);
    case UserVolume(gain) =>
      SameRequests(x, x.(cm := x.cm.(volume := gain)), w.handled);
      SubmitKeeps(x.(cm := x.cm.(volume := gain)), w.handled, SetOutputGain(gain));
    case UserDismiss => SameRequests(x, Dismiss(x), w.handled);
    case Timer => WantQueryKeeps(x, w.handled, w.now);
    case OtherSubmit => OtherSubmitKeeps(x, w.handled);
    case _ =>
  }

  lemma OtherSubmitKeeps(x: Sys, handled: set<RequestId>)
    requires RequestInv(x, handled)
    ensures RequestInv(x.(port := x.port.(nextId := x.port.nextId + 1)), handled)
  {
    var port := x.port.(nextId := x.port.nextId + 1);
    assert forall id: RequestId, r :: Open(port, handled, id, r) <==> Open(x.port, handled, id, r);
    forall id: RequestId, a
      ensures Listed(x.cm.actions, id, a) <==> Open(port, handled, id, RequestOf(a))
    {
      assert Listed(x.cm.actions, id, a) <==> Open(x.port, handled, id, RequestOf(a));
    }
    if x.cm.line.dial.Some? && x.cm.line.dial.value.Sent? {
      var number :| Open(x.port, handled, x.cm.line.dial.value.id, Dial(number));
      assert Open(port, handled, x.cm.line.dial.value.id, Dial(number));
    }
  }

  /** A local step submits at most one request, and which one. */
  ghost predicate LocalSubmits(w: World, st: Step, v: World) {
    var before, after := w.sys.port.sent, v.sys.port.sent;
    && before <= after && |after| <= |before| + 1
    && v.sys.port.nextId >= w.sys.port.nextId
    && (|after| == |before| + 1 ==>
          match after[|before|].request
          case Dial(number) => st == UserDial(number) && w.sys.cm.linkUp
          case Answer => st.UserAnswer? && w.sys.cm.linkUp
          case HangUp => st.UserHangUp? && w.sys.cm.linkUp
          case ListCalls => st.Timer?
          case SetOutputGain(g) => st == UserVolume(g) && w.sys.cm.linkUp
          case OtherRequest => false)
    && (st.UserVolume? && w.sys.cm.linkUp ==> |after| == |before| + 1)
    && v.sys.cm.volume == (if st.UserVolume? then st.gain else w.sys.cm.volume)
    && v.sys.cm.linkUp == w.sys.cm.linkUp
  }

  lemma LocalSubmissions(w: World, st: Step)
    requires IsLocal(st)
    ensures LocalSubmits(w, st, Next(w, st))
  {
  }

  lemma LocalKeepsRest(w: World, st: Step)
    requires ReplyInv(w) && FreshInv(w) && LinkInv(w) && IsLocal(st)
    ensures ReplyInv(Next(w, st)) && FreshInv(Next(w, st)) && LinkInv(Next(w, st))
  {
    var v := Next(w, st);
    LocalSubmissions(w, st);
    var before, after := w.sys.port.sent, v.sys.port.sent;
    if |after| == |before| + 1 {
      assert after == before + [after[|before|]];
      LatestGainAppend(before, w.configuredAt, after[|before|]);
    } else {
      assert after == before;
    }
  }

  lemma EnvironmentKeepsReplies(w: World, st: Step)
    requires ReplyInv(w) && Enabled(w, st) && !IsLocal(st)
    ensures ReplyInv(Next(w, st))
  {
    var v := Next(w, st);
    match st
    case CallUpdate(info) => ReplyInvAppend(w, v, Event(Urc(Call(info))));
    case CallHint(e, truth) => ReplyInvAppend(w, v, Event(e));
    case Noise(e) => ReplyInvAppend(w, v, Event(e));
    case Reply(id, result) => ReplyInvAppend(w, v, Completed(id, result));
    case LoseEvents(i, j) => ReplyInvLoss(w, i, j);
    case Deliver => ReplyInvDeliver(w);
    case TakeList(_) =>
    case SilentChange(_) =>
  }

  lemma DeliverKeepsInv(w: World)
    requires Inv(w) && w.notices != []
    ensures Inv(Delivered(w))
  {
    StepKeepsView(w, Deliver);
    ReplyInvDeliver(w);
    FreshDeliver(w);
    LinkDeliver(w);
    match w.notices[0]
    case Completed(id, result) =>
      DoneKeepsLine(w.sys, id, result, w.now);
      DoneKeepsRequests(w.sys, w.handled, id, result, w.now);
    case Event(e) =>
      EventKeepsLine(w.sys, e, w.now);
      EventKeepsRequests(w.sys, w.handled, e, w.now);
  }

  lemma StepKeepsInv(w: World, st: Step)
    requires Inv(w) && Enabled(w, st)
    ensures Inv(Next(w, st))
  {
    if st.Deliver? {
      DeliverKeepsInv(w);
    } else if IsLocal(st) {
      LocalKeepsLine(w, st);
      LocalKeepsRequests(w, st);
      LocalKeepsRest(w, st);
      UserKeepsView(w, st);
    } else {
      EnvironmentKeepsReplies(w, st);
      StepKeepsView(w, st);
    }
  }

  lemma {:induction false} RunKeepsInv(w: World, steps: seq<Step>)
    requires Inv(w) && CanTake(w, steps)
    ensures Inv(After(w, steps))
    decreases |steps|
  {
    if steps != [] {
      StepKeepsInv(w, steps[0]);
      RunKeepsInv(Next(w, steps[0]), steps[1..]);
    }
  }

  lemma StartInv()
    ensures Inv(START)
  {
    forall id: RequestId, a
      ensures Listed([], id, a) <==> Open(Port(0, []), {}, id, RequestOf(a))
    {
    }
  }

  /** Every reachable world satisfies the invariant. */
  lemma Safety(steps: seq<Step>)
    requires CanTake(START, steps)
    ensures Inv(After(START, steps))
  {
    StartInv();
    RunKeepsInv(START, steps);
  }

  // ----- Convergence

  /** Nothing is on its way to the service or asked for, and its last list query succeeded. */
  ghost predicate Quiet(w: World) {
    w.notices == [] && w.sys.cm.query.None? && w.sys.cm.synced
  }

  /** Whenever the service is quiet, its view is the modem's list. */
  lemma Convergence(steps: seq<Step>)
    requires CanTake(START, steps) && Quiet(After(START, steps))
    ensures var w := After(START, steps);
            && w.sys.cm.line.calls == LiveVoice(w.truth)
            && (w.sys.cm.line.tracked.Some? && w.sys.cm.line.tracked.value.index.Some? ==>
                  FindCall(LiveVoice(w.truth), w.sys.cm.line.tracked.value.index.value).Some?)
            && (w.sys.cm.line.tracked.None? ==> LiveVoice(w.truth) == [])
  {
    Safety(steps);
    QuietViewIsTrue(After(START, steps));
  }

  lemma QuietViewIsTrue(w: World)
    requires LineInv(w.sys.cm.line, w.now) && ViewInv(w) && Quiet(w)
    ensures w.sys.cm.line.calls == LiveVoice(w.truth)
    ensures w.sys.cm.line.tracked.Some? && w.sys.cm.line.tracked.value.index.Some? ==>
              FindCall(LiveVoice(w.truth), w.sys.cm.line.tracked.value.index.value).Some?
    ensures w.sys.cm.line.tracked.None? ==> LiveVoice(w.truth) == []
  {
    assert !HasHint([]);
  }

  /** The modem takes its list for the query in flight, if it has not yet, and the list reaches the service. */
  function Answering(w: World): seq<Step>
    requires w.sys.cm.query.Some?
  {
    var q := w.sys.cm.query.value;
    if q in w.taken then [Reply(q, Ok(Calls(w.taken[q]))), Deliver]
    else [TakeList(q), Reply(q, Ok(Calls(w.truth))), Deliver]
  }

  /** One answer from the modem, taken by the service: the view is true, unless the list is asked for again. */
  lemma OneAnswer(w: World)
    requires Inv(w) && w.notices == [] && w.sys.cm.query.Some?
    ensures CanTake(w, Answering(w))
    ensures var v := After(w, Answering(w));
            && Inv(v) && v.notices == [] && v.truth == w.truth
            && (if w.sys.cm.requery then v.sys.cm.query.Some? && !v.sys.cm.requery else Quiet(v))
  {
    var q := w.sys.cm.query.value;
    NotAnswered(w);
    if q in w.taken {
      TakenListAnswers(w);
    } else {
      StepKeepsInv(w, TakeList(q));
      TakenListAnswers(Next(w, TakeList(q)));
      StepFirst(w, TakeList(q), Answering(Next(w, TakeList(q))));
    }
  }

  lemma NotAnswered(w: World)
    requires Inv(w) && w.notices == [] && w.sys.cm.query.Some?
    ensures w.sys.cm.query.value !in w.answered && w.sys.cm.query.value < w.sys.port.nextId
  {
    assert Open(w.sys.port, w.handled, w.sys.cm.query.value, ListCalls);
  }

  lemma TakenListAnswers(w: World)
    requires Inv(w) && w.notices == [] && w.sys.cm.query.Some? && w.sys.cm.query.value in w.taken
    ensures CanTake(w, Answering(w))
    ensures var v := After(w, Answering(w));
            && Inv(v) && v.notices == [] && v.truth == w.truth
            && (if w.sys.cm.requery then v.sys.cm.query.Some? && !v.sys.cm.requery else Quiet(v))
  {
    var q := w.sys.cm.query.value;
    var reply := Reply(q, Ok(Calls(w.taken[q])));
    NotAnswered(w);
    StepKeepsInv(w, reply);
    var a := Next(w, reply);
    assert a.notices == [Completed(q, Ok(Calls(w.taken[q])))];
    StepKeepsInv(a, Deliver);
    AnswerTaken(a, q, w.taken[q]);
    TwoSteps(w, reply, Deliver);
  }

  lemma AnswerTaken(a: World, q: RequestId, list: seq<CallInfo>)
    requires a.notices == [Completed(q, Ok(Calls(list)))] && a.sys.cm.query == Some(q)
    ensures var v := Delivered(a);
            && v.notices == [] && v.truth == a.truth
            && (if a.sys.cm.requery then v.sys.cm.query.Some? && !v.sys.cm.requery else Quiet(v))
  {
  }

  lemma StepFirst(w: World, st: Step, rest: seq<Step>)
    requires Enabled(w, st) && CanTake(Next(w, st), rest)
    ensures CanTake(w, [st] + rest) && After(w, [st] + rest) == After(Next(w, st), rest)
  {
    assert ([st] + rest)[1..] == rest;
  }

  lemma TwoSteps(w: World, st: Step, next: Step)
    requires Enabled(w, st) && Enabled(Next(w, st), next)
    ensures CanTake(w, [st, next]) && After(w, [st, next]) == Next(Next(w, st), next)
  {
    assert [st, next][1..] == [next];
    assert [next][1..] == [];
    assert After(Next(w, st), [next]) == Next(Next(w, st), next);
  }

  lemma {:induction false} AfterConcat(w: World, a: seq<Step>, b: seq<Step>)
    requires CanTake(w, a) && CanTake(After(w, a), b)
    ensures CanTake(w, a + b) && After(w, a + b) == After(After(w, a), b)
    decreases |a|
  {
    if a == [] {
      assert a + b == b;
    } else {
      AfterConcat(Next(w, a[0]), a[1..], b);
      assert (a + b)[1..] == a[1..] + b;
    }
  }

  /** Steps by which no call changes, no event is lost and the user asks nothing of a call. */
  ghost predicate Uneventful(steps: seq<Step>) {
    forall k :: 0 <= k < |steps| ==> IsUneventful(steps[k])
  }

  predicate IsUneventful(st: Step) {
    st.Elapse? || st.Timer? || st.Deliver? || st.TakeList? || st.Reply? || st.Noise? || st.OtherSubmit?
    || st.UserVolume? || st.UserDismiss?
  }

  lemma Answers(w: World) returns (steps: seq<Step>)
    requires Inv(w) && w.notices == [] && w.sys.cm.query.Some?
    ensures Uneventful(steps) && |steps| <= (if w.sys.cm.requery then 6 else 3) && CanTake(w, steps)
    ensures var v := After(w, steps); Inv(v) && Quiet(v) && v.truth == w.truth
  {
    if w.sys.cm.requery {
      OneAnswer(w);
      var again := After(w, Answering(w));
      var more := FreshAnswer(again);
      AfterConcat(w, Answering(w), more);
      steps := Answering(w) + more;
    } else {
      steps := FreshAnswer(w);
    }
  }

  lemma FreshAnswer(w: World) returns (steps: seq<Step>)
    requires Inv(w) && w.notices == [] && w.sys.cm.query.Some? && !w.sys.cm.requery
    ensures Uneventful(steps) && |steps| <= 3 && CanTake(w, steps)
    ensures var v := After(w, steps); Inv(v) && Quiet(v) && v.truth == w.truth
  {
    OneAnswer(w);
    steps := Answering(w);
  }

  /** Handing over every notice that waits. */
  lemma {:induction false} Drain(w: World) returns (steps: seq<Step>)
    requires Inv(w)
    ensures Uneventful(steps) && |steps| == |w.notices| && CanTake(w, steps)
    ensures var v := After(w, steps); Inv(v) && v.notices == [] && v.truth == w.truth
    decreases |w.notices|
  {
    if w.notices == [] {
      steps := [];
    } else {
      StepKeepsInv(w, Deliver);
      var rest := Drain(Next(w, Deliver));
      steps := [Deliver] + rest;
      assert steps[1..] == rest;
    }
  }

  lemma PollWhenIdle(w: World) returns (steps: seq<Step>)
    requires Inv(w) && w.notices == [] && w.sys.cm.query.None? && !w.sys.cm.synced
    ensures Uneventful(steps) && |steps| == 2 && CanTake(w, steps)
    ensures var v := After(w, steps);
            Inv(v) && v.notices == [] && v.sys.cm.query.Some? && !v.sys.cm.requery && v.truth == w.truth
  {
    var a := Next(w, Elapse(POLL_MS));
    StepKeepsInv(w, Elapse(POLL_MS));
    StepKeepsInv(a, Timer);
    steps := [Elapse(POLL_MS), Timer];
    TwoSteps(w, Elapse(POLL_MS), Timer);
  }

  lemma Settle(w: World) returns (steps: seq<Step>)
    requires Inv(w) && w.notices == []
    ensures Uneventful(steps) && |steps| <= 6 && CanTake(w, steps)
    ensures var v := After(w, steps); Inv(v) && Quiet(v) && v.truth == w.truth
  {
    if w.sys.cm.query.Some? {
      steps := Answers(w);
    } else if !w.sys.cm.synced {
      var poll := PollWhenIdle(w);
      var more := Answers(After(w, poll));
      AfterConcat(w, poll, more);
      steps := poll + more;
    } else {
      steps := [];
    }
  }

  /**
   From every reachable world, once the modem leaves its list alone and answers the service's
   queries, at most six steps after the waiting notices are handed over the view is the truth.
   */
  lemma ViewBecomesTrue(run: seq<Step>) returns (steps: seq<Step>)
    requires CanTake(START, run)
    ensures Uneventful(steps) && CanTake(After(START, run), steps)
    ensures |steps| <= |After(START, run).notices| + 6
    ensures var w, v := After(START, run), After(After(START, run), steps);
            Quiet(v) && v.truth == w.truth && v.sys.cm.line.calls == LiveVoice(w.truth)
  {
    Safety(run);
    steps := Settling(After(START, run));
    QuietViewIsTrue(After(After(START, run), steps));
  }

  lemma Settling(w: World) returns (steps: seq<Step>)
    requires Inv(w)
    ensures Uneventful(steps) && |steps| <= |w.notices| + 6 && CanTake(w, steps)
    ensures var v := After(w, steps); Inv(v) && Quiet(v) && v.truth == w.truth
  {
    var drain := Drain(w);
    var more := Settle(After(w, drain));
    AfterConcat(w, drain, more);
    steps := drain + more;
  }

  // ----- Replies are applied only when fresh

  /**
   The reply to the list query is applied exactly when the query was submitted after the latest hint
   and the latest settled dial were handled; then the view becomes that list. Otherwise nothing shown
   changes and the list is asked for again.
   */
  lemma FreshReplies(w: World, q: RequestId, list: seq<CallInfo>)
    requires Inv(w) && w.notices != [] && w.notices[0] == Completed(q, Ok(Calls(list)))
    requires w.sys.cm.query == Some(q)
    ensures w.settledAt <= w.mark
    ensures var v := Delivered(w);
            if q >= w.mark then
              v.sys.cm.line.calls == LiveVoice(list) && v.sys.cm.query.None? && v.sys.cm.synced
            else
              v.sys.cm.line == w.sys.cm.line && v.sys.cm.query == Some(w.sys.port.nextId)
  {
    ReconcileFrame(w.sys.cm.line.(calls := LiveVoice(list)), true, w.now);
  }

  /**
   A list that neither is the truth nor is made it by what waits behind it is never shown: nothing
   shown changes when it is handed over, and the list is asked for again.
   */
  lemma StaleListNeverShown(steps: seq<Step>, q: RequestId, list: seq<CallInfo>)
    requires CanTake(START, steps) && After(START, steps).notices != []
    requires var w := After(START, steps);
             && w.notices[0] == Completed(q, Ok(Calls(list))) && w.sys.cm.query == Some(q)
             && !Explained(LiveVoice(list), w.notices[1..], w.truth)
    ensures var w := After(START, steps);
            && Delivered(w).sys.cm.line == w.sys.cm.line
            && Delivered(w).sys.cm.query == Some(w.sys.port.nextId)
  {
    Safety(steps);
    assert After(START, steps).notices[..0] == [];
  }

  /**
   Such lists arrive: a call is listed, the modem takes its list for the first query, the call ends,
   and the reply follows. It lists the call, and the call stays ended.
   */
  lemma StaleListArrives(info: CallInfo) returns (steps: seq<Step>)
    requires IsLiveVoice(info)
    ensures CanTake(START, steps) && steps != [] && steps[|steps| - 1] == Reply(0, Ok(Calls([info])))
    ensures var w := After(START, steps);
            && w.sys.cm.query == Some(0) && w.notices != []
            && w.notices[|w.notices| - 1] == Completed(0, Ok(Calls([info]))) && LiveVoice(w.truth) == []
    ensures CanTake(START, steps + [Deliver, Deliver, Deliver])
    ensures var s := After(START, steps + [Deliver, Deliver, Deliver]).sys.cm;
            s.line.calls == [] && s.line.tracked.None? && s.line.ended.Some? && s.query == Some(1)
  {
    var listed := CallIsListed(info);
    var rest, w := ListGoesStale(listed, info);
    steps := [Timer, CallUpdate(info)] + rest;
    AfterConcat(START, [Timer, CallUpdate(info)], rest);
    StaleListTaken(w, info);
    AfterConcat(START, steps, [Deliver, Deliver, Deliver]);
  }

  lemma CallIsListed(info: CallInfo) returns (w: World)
    ensures CanTake(START, [Timer, CallUpdate(info)]) && After(START, [Timer, CallUpdate(info)]) == w
    ensures w.sys.cm == INITIAL.(query := Some(0), lastQuery := Some(0)) && w.sys.port.nextId == 1
    ensures w.taken == map[] && w.answered == {} && w.truth == [info] && w.notices == [Event(Urc(Call(info)))]
  {
    w := Next(Next(START, Timer), CallUpdate(info));
    ListOfOne(info);
    TwoSteps(START, Timer, CallUpdate(info));
  }

  lemma ListGoesStale(w: World, info: CallInfo) returns (steps: seq<Step>, v: World)
    requires w.sys.port.nextId == 1 && w.taken == map[] && w.answered == {}
    requires w.truth == [info] && w.notices == [Event(Urc(Call(info)))]
    ensures |steps| == 3 && steps[2] == Reply(0, Ok(Calls([info])))
    ensures CanTake(w, steps) && After(w, steps) == v && v.sys == w.sys && v.now == w.now && LiveVoice(v.truth) == []
    ensures v.notices == w.notices + [Event(Urc(Call(info.(state := Disconnected))))]
                         + [Completed(0, Ok(Calls([info])))]
  {
    var gone := info.(state := Disconnected);
    var reply := Reply(0, Ok(Calls([info])));
    CallIsReplaced(info, gone);
    var c := Next(w, TakeList(0));
    var d := Next(c, CallUpdate(gone));
    v := Next(d, reply);
    TwoSteps(c, CallUpdate(gone), reply);
    StepFirst(w, TakeList(0), [CallUpdate(gone), reply]);
    steps := [TakeList(0)] + [CallUpdate(gone), reply];
  }

  lemma ListOfOne(c: CallInfo)
    ensures Upsert([], c) == [c] && Without([c], c.index) == []
    ensures LiveVoice([c]) == if IsLiveVoice(c) then [c] else []
  {
    FilterAppend([], c, c.index);
    SortAppend([], c);
    assert [] + [c] == [c];
  }

  lemma CallIsReplaced(info: CallInfo, gone: CallInfo)
    requires gone == info.(state := Disconnected)
    ensures Upsert([info], gone) == [gone] && LiveVoice([gone]) == []
  {
    ListOfOne(info);
    ListOfOne(gone);
    assert Upsert([info], gone) == Upsert([], gone);
  }

  lemma StaleListTaken(w: World, info: CallInfo)
    requires w.sys.cm == INITIAL.(query := Some(0), lastQuery := Some(0)) && w.sys.port.nextId == 1
    requires IsLiveVoice(info)
    requires w.notices == [Event(Urc(Call(info)))] + [Event(Urc(Call(info.(state := Disconnected))))]
                          + [Completed(0, Ok(Calls([info])))]
    ensures CanTake(w, [Deliver, Deliver, Deliver])
    ensures var s := After(w, [Deliver, Deliver, Deliver]).sys.cm;
            s.line.calls == [] && s.line.tracked.None? && s.line.ended.Some? && s.query == Some(1)
  {
    var gone := info.(state := Disconnected);
    CallComes(w.sys, info, w.now);
    var x := OnEvent(w.sys, Urc(Call(info)), w.now);
    CallGoes(x, info, w.now);
    ThreeHandedOver(w, Event(Urc(Call(info))), Event(Urc(Call(gone))), Completed(0, Ok(Calls([info]))));
  }

  lemma ThreeHandedOver(w: World, a: Notice, b: Notice, c: Notice)
    requires w.notices == [a] + [b] + [c]
    ensures CanTake(w, [Deliver, Deliver, Deliver])
    ensures After(w, [Deliver, Deliver, Deliver]).sys
            == Handle(Handle(Handle(w.sys, a, w.now), b, w.now), c, w.now)
  {
    var second := Delivered(w);
    var third := Delivered(second);
    assert second.notices[0] == b && third.notices[0] == c;
    TwoSteps(second, Deliver, Deliver);
    StepFirst(w, Deliver, [Deliver, Deliver]);
    assert [Deliver] + [Deliver, Deliver] == [Deliver, Deliver, Deliver];
  }

  lemma CallComes(x: Sys, info: CallInfo, now: Millis)
    requires x.cm == INITIAL.(query := Some(0), lastQuery := Some(0)) && IsLiveVoice(info)
    ensures var y := OnEvent(x, Urc(Call(info)), now);
            y.cm.line.calls == [info] && y.cm.line.tracked.Some? && y.cm.line.tracked.value.index == Some(info.index)
    ensures var y := OnEvent(x, Urc(Call(info)), now); y.cm.requery && y.cm.query == Some(0) && y.port == x.port
  {
    ListOfOne(info);
    ReconcileFrame(x.cm.line.(calls := [info]), false, now);
  }

  lemma CallGoes(x: Sys, info: CallInfo, now: Millis)
    requires x.cm.line.calls == [info] && x.cm.line.tracked.Some? && IsLiveVoice(info)
    requires x.cm.line.tracked.value.index == Some(info.index)
    ensures var y := OnEvent(x, Urc(Call(info.(state := Disconnected))), now);
            && y.cm.line.calls == [] && y.cm.line.tracked.None? && y.cm.line.ended.Some?
            && y.cm.query == x.cm.query && y.cm.requery == (x.cm.requery || x.cm.query.Some?) && y.port == x.port
  {
    ListOfOne(info);
    assert Updated([info], info.(state := Disconnected)) == [];
    ReconcileFrame(x.cm.line.(calls := []), false, now);
  }

  // ----- When a call ends

  /** A fresh list is handed over. */
  ghost predicate AppliesList(w: World, st: Step)
    requires Enabled(w, st)
  {
    st.Deliver? && IsList(w.notices[0]) && w.sys.cm.query == Some(w.notices[0].id) && !w.sys.cm.requery
  }

  ghost predicate NoneOutgoing(list: seq<CallInfo>) {
    forall c :: c in list && IsLiveVoice(c) ==> c.direction != Outgoing
  }

  ghost predicate NoneAt(list: seq<CallInfo>, index: nat) {
    forall c :: c in list && IsLiveVoice(c) ==> c.index != index
  }

  /**
   The three ways a dial that has not shown up yet is given up; the list in the third was asked for
   after the dial settled.
   */
  ghost predicate DialGivenUp(w: World, st: Step)
    requires Enabled(w, st)
  {
    var s := w.sys.cm;
    st.Deliver? &&
    var n := w.notices[0];
    || n == Event(Restarted)
    || (n.Completed? && s.query != Some(n.id) && s.line.dial == Some(Sent(n.id)) && !MayHaveStarted(n.result))
    || (AppliesList(w, st) && s.line.dial == Some(Settled) && n.id >= w.settledAt
        && NoneOutgoing(n.result.response.list))
  }

  /** The three ways the call tracked at `index` leaves the list. */
  ghost predicate CallGone(w: World, st: Step, index: nat)
    requires Enabled(w, st)
  {
    st.Deliver? &&
    var n := w.notices[0];
    || n == Event(Restarted)
    || (n.Event? && n.event.Urc? && n.event.urc.Call?
        && n.event.urc.info.index == index && n.event.urc.info.mode == Voice && n.event.urc.info.state == Disconnected)
    || (AppliesList(w, st) && NoneAt(n.result.response.list, index))
  }

  /** Reconciling ends the tracked call exactly when the list no longer supports it. */
  lemma ReconcileEnds(s: Line, fromQuery: bool, now: Millis)
    requires s.tracked.Some?
    ensures var t := Reconcile(s, fromQuery, now);
            t.over == s.over +
              if s.tracked.value.index.Some? then
                if exists c :: c in s.calls && c.index == s.tracked.value.index.value then 0 else 1
              else
                if exists c :: c in s.calls && c.direction == Outgoing then 0
                else if s.dial.None? || (fromQuery && s.dial == Some(Settled)) then 1 else 0
  {
    var a := Follow(s, fromQuery, now);
    assert PickUp(a).over == a.over;
  }

  /** A fresh list ends a dial not seen yet exactly when the dial has settled and no outgoing call is listed. */
  lemma ListEndsDial(s: Line, list: seq<CallInfo>, now: Millis)
    requires s.tracked.Some? && s.tracked.value.index.None? && s.dial.Some?
    ensures Reconcile(s.(calls := LiveVoice(list)), true, now).over
            == s.over + if s.dial == Some(Settled) && NoneOutgoing(list) then 1 else 0
  {
    LiveVoiceMembers(list);
    ReconcileEnds(s.(calls := LiveVoice(list)), true, now);
  }

  lemma ReplyEndsDial(w: World)
    requires LineInv(w.sys.cm.line, w.now) && FreshInv(w)
    requires w.notices != [] && w.notices[0].Completed? && w.sys.cm.line.dial.Some?
    ensures Delivered(w).sys.cm.line.over == w.sys.cm.line.over + if DialGivenUp(w, Deliver) then 1 else 0
  {
    var n, s := w.notices[0], w.sys.cm.line;
    if w.sys.cm.query == Some(n.id) {
      if IsList(n) {
        ListEndsDial(s, n.result.response.list, w.now);
      }
    } else if s.dial == Some(Sent(n.id)) {
      ReconcileEnds(s.(dial := None), false, w.now);
    }
  }

  lemma EventEndsDial(w: World)
    requires LineInv(w.sys.cm.line, w.now) && w.notices != [] && w.notices[0].Event? && w.sys.cm.line.dial.Some?
    ensures Delivered(w).sys.cm.line.over == w.sys.cm.line.over + if DialGivenUp(w, Deliver) then 1 else 0
  {
    var e, s := w.notices[0].event, w.sys.cm.line;
    if e.Urc? && e.urc.Call? {
      ReconcileEnds(s.(calls := Updated(s.calls, e.urc.info)), false, w.now);
    } else if e.Restarted? {
      ReconcileEnds(s.(calls := [], dial := None), false, w.now);
    }
  }

  /** A pending dial ends in exactly the three ways of `DialGivenUp`. */
  lemma DialEndsExactlyWhenGivenUp(w: World, st: Step)
    requires Inv(w) && Enabled(w, st) && w.sys.cm.line.dial.Some?
    ensures Next(w, st).sys.cm.line.over == w.sys.cm.line.over + if DialGivenUp(w, st) then 1 else 0
  {
    if st.Deliver? {
      if w.notices[0].Completed? {
        ReplyEndsDial(w);
      } else {
        EventEndsDial(w);
      }
    }
  }

  lemma ReplyEndsCall(w: World, index: nat)
    requires LineInv(w.sys.cm.line, w.now) && w.notices != [] && w.notices[0].Completed?
    requires w.sys.cm.line.tracked.Some? && w.sys.cm.line.tracked.value.index == Some(index)
    ensures Delivered(w).sys.cm.line.over == w.sys.cm.line.over + if CallGone(w, Deliver, index) then 1 else 0
  {
    var n, s := w.notices[0], w.sys.cm.line;
    if w.sys.cm.query == Some(n.id) && IsList(n) {
      LiveVoiceMembers(n.result.response.list);
      ReconcileEnds(s.(calls := LiveVoice(n.result.response.list)), true, w.now);
    }
  }

  /** An update ends the call tracked at `index` exactly when it says that call is disconnected. */
  lemma UpdateEndsCall(s: Line, info: CallInfo, index: nat, now: Millis)
    requires s.tracked.Some? && s.tracked.value.index == Some(index) && TrackedCall(s).Some?
    ensures Reconcile(s.(calls := Updated(s.calls, info)), false, now).over
            == s.over + if info.index == index && !IsLiveVoice(info) then 1 else 0
  {
    UpdatedMembers(s.calls, info);
    ReconcileEnds(s.(calls := Updated(s.calls, info)), false, now);
    assert TrackedCall(s).value in s.calls;
    assert index != info.index ==> TrackedCall(s).value in Updated(s.calls, info);
    assert index == info.index && IsLiveVoice(info) ==> info in Updated(s.calls, info);
  }

  lemma EventEndsCall(w: World, index: nat)
    requires LineInv(w.sys.cm.line, w.now) && w.notices != [] && w.notices[0].Event?
    requires w.sys.cm.line.tracked.Some? && w.sys.cm.line.tracked.value.index == Some(index)
    ensures Delivered(w).sys.cm.line.over == w.sys.cm.line.over + if CallGone(w, Deliver, index) then 1 else 0
  {
    EventEndsCallAt(w.sys, w.notices[0].event, index, w.now);
  }

  lemma EventEndsCallAt(x: Sys, e: Event, index: nat, now: Millis)
    requires x.cm.line.tracked.Some? && x.cm.line.tracked.value.index == Some(index) && TrackedCall(x.cm.line).Some?
    ensures OnEvent(x, e, now).cm.line.over == x.cm.line.over +
            if e.Restarted? || (e.Urc? && e.urc.Call? && e.urc.info.index == index && e.urc.info.mode == Voice
                                && e.urc.info.state == Disconnected)
            then 1 else 0
  {
    var s := x.cm.line;
    if e.Urc? && e.urc.Call? {
      UpdateEndsCall(s, e.urc.info, index, now);
    } else if e.Restarted? {
      ReconcileEnds(s.(calls := [], dial := None), false, now);
    }
  }

  /** A listed call ends in exactly the three ways of `CallGone`, and only once. */
  lemma CallEndsExactlyWhenGone(w: World, st: Step)
    requires Inv(w) && Enabled(w, st)
    requires w.sys.cm.line.tracked.Some? && w.sys.cm.line.tracked.value.index.Some?
    ensures Next(w, st).sys.cm.line.over ==
            w.sys.cm.line.over + if CallGone(w, st, w.sys.cm.line.tracked.value.index.value) then 1 else 0
  {
    if st.Deliver? {
      var index := w.sys.cm.line.tracked.value.index.value;
      if w.notices[0].Completed? {
        ReplyEndsCall(w, index);
      } else {
        EventEndsCall(w, index);
      }
    }
  }

  /** `t` is `s` after its tracked call ended at `now`, with `t.calls` listed. */
  ghost predicate Ends(s: Line, t: Line, now: Millis) {
    s.tracked.Some? &&
    if t.calls == [] then
      var c := s.tracked.value;
      t.tracked.None? && t.ended == Some(Ended(c.direction, c.number,
                                               if c.connectedAt.Some? then Some(now - c.connectedAt.value) else None))
    else t.tracked.Some? && t.tracked.value.index == Some(t.calls[0].index) && t.ended.None?
  }

  /** Seen once the tracked call has ended: the next call listed, lowest index first, else how it ended. */
  lemma AfterACallEnds(w: World, st: Step)
    requires Inv(w) && Enabled(w, st) && Next(w, st).sys.cm.line.over > w.sys.cm.line.over
    ensures Ends(w.sys.cm.line, Next(w, st).sys.cm.line, w.now)
    ensures Ascending(Next(w, st).sys.cm.line.calls)
  {
    StepKeepsView(w, st);
    if st.Deliver? {
      match w.notices[0]
      case Completed(id, result) => DoneEnds(w.sys, id, result, w.now);
      case Event(e) => EventEnds(w.sys, e, w.now);
    }
  }

  const TALKING := CallInfo(1, Incoming, Active, Voice, false, None)
  const KNOCKING := CallInfo(2, Incoming, CallState.Waiting, Voice, false, None)

  /** The first call shown since `now`, with `calls` listed. */
  function InCall(calls: seq<CallInfo>, now: Millis): Line {
    Line(calls, Some(Tracked(Some(1), Incoming, None, Some(now))), None, None, 1, 0)
  }

  /** From boot: a call is taken, another waits, the first ends. Its end is never shown. */
  lemma EndedCallNotShown(now: Millis)
    ensures var x := OnEvent(Sys(INITIAL, Port(0, [])), Urc(Call(TALKING)), now);
            var y := OnEvent(x, Urc(Call(KNOCKING)), now);
            var z := OnEvent(y, Urc(Call(TALKING.(state := Disconnected))), now);
            && StatusOf(y.cm.line) == Some(ShowActive(None, now))
            && z.cm.line.over == y.cm.line.over + 1 && z.cm.line.ended.None?
            && StatusOf(z.cm.line) == Some(ShowIncoming(None))
  {
    var x := OnEvent(Sys(INITIAL, Port(0, [])), Urc(Call(TALKING)), now);
    TalkingBegins(Sys(INITIAL, Port(0, [])), now);
    KnockingComes(x, now);
    TalkingEnds(OnEvent(x, Urc(Call(KNOCKING)), now), now);
  }

  lemma TalkingBegins(x: Sys, now: Millis)
    requires x.cm.line == INITIAL.line
    ensures OnEvent(x, Urc(Call(TALKING)), now).cm.line == InCall([TALKING], now)
  {
    ListOfOne(TALKING);
  }

  lemma KnockingComes(x: Sys, now: Millis)
    requires x.cm.line == InCall([TALKING], now)
    ensures OnEvent(x, Urc(Call(KNOCKING)), now).cm.line == InCall([TALKING, KNOCKING], now)
  {
    TwoListed(TALKING, KNOCKING);
    assert Refresh(InCall([TALKING, KNOCKING], now), now) == InCall([TALKING, KNOCKING], now);
  }

  lemma TalkingEnds(x: Sys, now: Millis)
    requires x.cm.line == InCall([TALKING, KNOCKING], now)
    ensures StatusOf(x.cm.line) == Some(ShowActive(None, now))
    ensures var t := OnEvent(x, Urc(Call(TALKING.(state := Disconnected))), now).cm.line;
            t.over == x.cm.line.over + 1 && t.ended.None? && StatusOf(t) == Some(ShowIncoming(None))
  {
    TwoListed(TALKING, KNOCKING);
    UpdateReconciles(x, TALKING.(state := Disconnected), [KNOCKING], now);
    TalkingIsShown(now);
    KnockingIsShown(now);
  }

  lemma UpdateReconciles(x: Sys, info: CallInfo, calls: seq<CallInfo>, now: Millis)
    requires info.mode == Voice && Updated(x.cm.line.calls, info) == calls
    ensures OnEvent(x, Urc(Call(info)), now).cm.line == Reconcile(x.cm.line.(calls := calls), false, now)
  {
  }

  lemma TalkingIsShown(now: Millis)
    ensures StatusOf(InCall([TALKING, KNOCKING], now)) == Some(ShowActive(None, now))
  {
    assert FindCall([TALKING, KNOCKING], 1) == Some(TALKING);
  }

  lemma KnockingIsShown(now: Millis)
    ensures var t := Reconcile(InCall([KNOCKING], now), false, now);
            t.over == 1 && t.ended.None? && StatusOf(t) == Some(ShowIncoming(None))
  {
    var s := InCall([KNOCKING], now);
    assert FindCall([KNOCKING], 1).None? && FindCall([KNOCKING], 2) == Some(KNOCKING);
    assert Follow(s, false, now) == End(s, now);
    assert Refresh(PickUp(End(s, now)), now) == PickUp(End(s, now));
  }

  lemma TwoListed(a: CallInfo, b: CallInfo)
    requires a.index < b.index && IsLiveVoice(b)
    ensures Updated([a], b) == [a, b] && Updated([a, b], a.(state := Disconnected)) == [b]
  {
    WithoutAbsent([a], b.index);
    SortAppend([a], b);
    FilterAppend([a], b, a.index);
    ListOfOne(a);
    assert [a] + [b] == [a, b] && [] + [b] == [b];
  }

  lemma ReconcileEndsTo(s: Line, fromQuery: bool, now: Millis)
    requires Reconcile(s, fromQuery, now).over > s.over
    ensures Ends(s, Reconcile(s, fromQuery, now), now)
  {
    var a := Follow(s, fromQuery, now);
    assert a == End(s, now);
  }

  lemma DoneEnds(x: Sys, id: RequestId, result: Result, now: Millis)
    requires OnDone(x, id, result, now).cm.line.over > x.cm.line.over
    ensures Ends(x.cm.line, OnDone(x, id, result, now).cm.line, now)
  {
    var s := x.cm.line;
    if x.cm.query == Some(id) {
      ReconcileEndsTo(s.(calls := LiveVoice(result.response.list)), true, now);
    } else if s.dial == Some(Sent(id)) {
      ReconcileEndsTo(s.(dial := None), false, now);
    }
  }

  lemma EventEnds(x: Sys, e: Event, now: Millis)
    requires OnEvent(x, e, now).cm.line.over > x.cm.line.over
    ensures Ends(x.cm.line, OnEvent(x, e, now).cm.line, now)
  {
    var s := x.cm.line;
    if e.Urc? {
      ReconcileEndsTo(s.(calls := Updated(s.calls, e.urc.info)), false, now);
    } else {
      ReconcileEndsTo(s.(calls := [], dial := None), false, now);
    }
  }

  // ----- Status, requests, gain and polling

  /** The status is always defined, and every call begun has ended or is the one tracked. */
  lemma StatusDefined(steps: seq<Step>)
    requires CanTake(START, steps)
    ensures var s := After(START, steps).sys.cm.line;
            && StatusOf(s).Some?
            && s.begun == s.over + (if s.tracked.Some? then 1 else 0)
            && (StatusOf(s).value.ShowActive? ==>
                  s.tracked.value.connectedAt == Some(StatusOf(s).value.since)
                  && StatusOf(s).value.since <= After(START, steps).now)
            && (StatusOf(s).value.ShowEnded? ==> s.calls == [])
  {
    Safety(steps);
  }

  /** At most one list query, one answer and one hang-up are outstanding. */
  lemma OneOutstandingOfEach(steps: seq<Step>, a: RequestId, b: RequestId, request: Request)
    requires CanTake(START, steps) && request in {ListCalls, Answer, HangUp}
    requires var w := After(START, steps);
             Open(w.sys.port, w.handled, a, request) && Open(w.sys.port, w.handled, b, request)
    ensures a == b
  {
    Safety(steps);
    var w := After(START, steps);
    if !request.ListCalls? {
      var kind := if request.Answer? then AnswerCall else EndCalls;
      assert RequestOf(kind) == request;
      assert Listed(w.sys.cm.actions, a, kind) && Listed(w.sys.cm.actions, b, kind);
    }
  }

  /** A dial, an answer or a hang-up leaves the service only while the latest link event is `Configured`. */
  lemma ActionsOnlyWhenLinked(w: World, st: Step, k: nat)
    requires Inv(w) && Enabled(w, st)
    requires |w.sys.port.sent| <= k < |Next(w, st).sys.port.sent|
    requires Next(w, st).sys.port.sent[k].request.Dial? || Next(w, st).sys.port.sent[k].request in {Answer, HangUp}
    ensures w.linked && (st.UserDial? || st.UserAnswer? || st.UserHangUp?)
  {
    if IsLocal(st) {
      LocalSubmissions(w, st);
    } else if st.Deliver? {
      DeliverSubmitsNoAction(w, k);
    }
  }

  lemma DeliverSubmitsNoAction(w: World, k: nat)
    requires w.notices != [] && |w.sys.port.sent| <= k < |Delivered(w).sys.port.sent|
    ensures var r := Delivered(w).sys.port.sent[k].request; r.ListCalls? || r.SetOutputGain?
  {
    match w.notices[0]
    case Completed(id, result) => DoneSubmits(w.sys, id, result, w.now);
    case Event(e) => EventSubmits(w.sys, e, w.now);
  }

  /** While the link is up the modem has been told the volume the user wants. */
  lemma VolumeApplied(steps: seq<Step>)
    requires CanTake(START, steps) && After(START, steps).linked
    ensures var w := After(START, steps);
            && w.configuredAt <= |w.sys.port.sent|
            && LatestGain(w.sys.port.sent[w.configuredAt..]) == w.sys.cm.volume <= 7
  {
    Safety(steps);
  }

  /** After the timer, a view that may be stale is being refreshed or was asked for recently. */
  lemma PolledOften(w: World)
    requires Inv(w) && (w.sys.cm.line.tracked.Some? || !w.sys.cm.synced)
    ensures var s := Next(w, Timer).sys.cm;
            s.query.Some? || (s.lastQuery.Some? && s.lastQuery.value <= w.now < s.lastQuery.value + 2000)
  {
  }
}
