/** What the user's actions send, what the status shows, and what is remembered of a call. */
module CallActions {
  import opened Options
  import opened Modem
  import opened CallService
  import opened CallWorld
  import opened CallDiscipline
  import opened CallTheorems

  // ----- What is sent

  ghost predicate Outstanding(x: Sys, handled: set<RequestId>, request: Request) {
    exists id: RequestId :: Open(x.port, handled, id, request)
  }

  /** An action in flight is an outstanding request. */
  lemma ActionOutstanding(x: Sys, handled: set<RequestId>, a: Action)
    requires RequestInv(x, handled)
    ensures Outstanding(Act(x, a), handled, RequestOf(a))
  {
    var y := Act(x, a);
    ActKeeps(x, handled, a);
    assert !InFlight(x.cm.actions, a) ==> y.cm.actions[|x.cm.actions|].1 == a;
    var i :| 0 <= i < |y.cm.actions| && y.cm.actions[i].1 == a;
    assert Listed(y.cm.actions, y.cm.actions[i].0, a);
    assert Open(y.port, handled, y.cm.actions[i].0, RequestOf(a));
  }

  /** A hang-up is taken exactly with a call and the link up, and then the modem has one to answer. */
  lemma HangUpIsSent(w: World)
    requires Inv(w)
    ensures var (x, outcome) := HangUpAll(w.sys);
            && (outcome == Accepted <==> w.sys.cm.line.tracked.Some? && w.sys.cm.linkUp)
            && (outcome == Accepted ==> Outstanding(x, w.handled, HangUp))
            && (outcome == Rejected(NoCall) <==> w.sys.cm.line.tracked.None?)
            && (outcome != Accepted ==> x == w.sys)
  {
    ActionOutstanding(w.sys, w.handled, EndCalls);
  }

  /** The tracked call is listed in one of `states`. */
  ghost predicate ListedAs(s: Line, states: set<CallState>) {
    s.tracked.Some? && exists c :: c in s.calls && s.tracked.value.index == Some(c.index) && c.state in states
  }

  lemma ListedIsTracked(s: Line, c: CallInfo)
    requires Ascending(s.calls) && c in s.calls && s.tracked.Some? && s.tracked.value.index == Some(c.index)
    ensures TrackedCall(s) == Some(c)
  {
  }

  /** An answer is taken exactly with a call ringing or waiting and the link up, and then one is sent or was. */
  lemma AnswerIsSent(w: World)
    requires Inv(w)
    ensures var (x, outcome) := AnswerRinging(w.sys);
            var rings := ListedAs(w.sys.cm.line, {Ringing, CallState.Waiting});
            && (outcome == Accepted <==> rings && w.sys.cm.linkUp)
            && (outcome == Accepted ==> Outstanding(x, w.handled, Answer))
            && (outcome == Rejected(NotReady) <==> rings && !w.sys.cm.linkUp)
            && (outcome == Rejected(NoCall) <==> w.sys.cm.line.tracked.None?)
            && (outcome != Accepted ==> x == w.sys)
  {
    ActionOutstanding(w.sys, w.handled, AnswerCall);
    var s := w.sys.cm.line;
    if c :| c in s.calls && s.tracked.Some? && s.tracked.value.index == Some(c.index) {
      ListedIsTracked(s, c);
    } else {
      assert TrackedCall(s).None?;
    }
  }

  /** A dial is taken exactly with no call and the link up; then it is sent, awaited and shown. */
  lemma DialIsSent(w: World, number: string)
    requires Inv(w)
    ensures var (x, outcome) := DialNumber(w.sys, number, w.now);
            var free := w.sys.cm.line.tracked.None? && w.sys.cm.line.calls == [];
            && (outcome == Accepted <==> free && w.sys.cm.linkUp)
            && (outcome == Accepted ==>
                  && x.cm.line.dial.Some? && x.cm.line.dial.value.Sent?
                  && Open(x.port, w.handled, x.cm.line.dial.value.id, Dial(number))
                  && StatusOf(x.cm.line) == Some(ShowDialling(number))
                  && x.cm.line.tracked == Some(Tracked(None, Outgoing, Some(number), None))
                  && x.cm.lastQuery == Some(w.now))
            && (outcome == Rejected(Refused.Busy) <==> !free)
            && (outcome != Accepted ==> x == w.sys)
  {
    OpenAfterSubmit(w.sys.port, w.handled, Dial(number));
  }

  // ----- What is shown

  /** The status of a listed call is that of its state, with the number known and the time it connected. */
  lemma StatusOfListed(w: World, c: CallInfo)
    requires Inv(w) && c in w.sys.cm.line.calls
    requires w.sys.cm.line.tracked.Some? && w.sys.cm.line.tracked.value.index == Some(c.index)
    ensures var status, t := StatusOf(w.sys.cm.line), w.sys.cm.line.tracked.value;
            && c.state != Disconnected
            && (c.number.Some? ==> t.number == c.number)
            && (c.state == Dialling ==> status == Some(ShowDialling(if t.number.Some? then t.number.value else "")))
            && (c.state == Alerting ==> status == Some(ShowAlerting(if t.number.Some? then t.number.value else "")))
            && (c.state in {Ringing, CallState.Waiting} ==> status == Some(ShowIncoming(t.number)))
            && (c.state in {Active, Held} ==>
                  t.connectedAt.Some? && status == Some(ShowActive(t.number, t.connectedAt.value)))
  {
    ListedIsTracked(w.sys.cm.line, c);
  }

  /** Without a listed call: the dial, the call that ended, or nothing. */
  lemma StatusOfUnlisted(w: World)
    requires Inv(w)
    ensures var status, s := StatusOf(w.sys.cm.line), w.sys.cm.line;
            && (s.tracked.None? && s.ended.None? ==> status == Some(Idle))
            && (s.tracked.None? && s.ended.Some? ==> status == Some(ShowEnded(s.ended.value)))
            && (s.tracked.Some? && s.tracked.value.index.None? && s.tracked.value.number.Some? ==>
                  status == Some(ShowDialling(s.tracked.value.number.value)))
  {
  }

  // ----- What is remembered

  /** `t` tracks the same call as `s`: a connect time stays, and a new one is `now`, the call being connected. */
  ghost predicate KeepsCall(s: Line, t: Line, now: Millis) {
    && s.tracked.Some? && t.tracked.Some?
    && t.tracked.value.direction == s.tracked.value.direction
    && (s.tracked.value.index.Some? ==> t.tracked.value.index == s.tracked.value.index)
    && (s.tracked.value.connectedAt.Some? ==> t.tracked.value.connectedAt == s.tracked.value.connectedAt)
    && (s.tracked.value.connectedAt.None? && t.tracked.value.connectedAt.Some? ==>
          t.tracked.value.connectedAt.value == now && ListedAs(t, {Active, Held}))
    && (s.tracked.value.number.Some? ==> t.tracked.value.number.Some?)
  }

  lemma ReconcileKeepsCall(s: Line, fromQuery: bool, now: Millis)
    requires s.tracked.Some? && Reconcile(s, fromQuery, now).over == s.over
    requires s.tracked.value.index.None? ==> s.tracked.value.direction == Outgoing
    ensures KeepsCall(s, Reconcile(s, fromQuery, now), now)
  {
    var a := Follow(s, fromQuery, now);
    assert PickUp(a) == a;
  }

  lemma SameCallKept(s: Line, t: Line, now: Millis)
    requires s.tracked.Some? && t.tracked == s.tracked
    ensures KeepsCall(s, t, now)
  {
  }

  lemma ListedKeepsCall(x: Sys, result: Result, now: Millis)
    requires LineInv(x.cm.line, now) && x.cm.line.tracked.Some?
    requires OnListed(x, result, now).cm.line.over == x.cm.line.over
    ensures KeepsCall(x.cm.line, OnListed(x, result, now).cm.line, now)
  {
    if result.Ok? && result.response.Calls? && !x.cm.requery {
      ReconcileKeepsCall(x.cm.line.(calls := LiveVoice(result.response.list)), true, now);
    } else {
      SameCallKept(x.cm.line, OnListed(x, result, now).cm.line, now);
    }
  }

  lemma DialledKeepsCall(x: Sys, result: Result, now: Millis)
    requires LineInv(x.cm.line, now) && x.cm.line.tracked.Some?
    requires OnDialled(x, result, now).cm.line.over == x.cm.line.over
    ensures KeepsCall(x.cm.line, OnDialled(x, result, now).cm.line, now)
  {
    if MayHaveStarted(result) {
      SameCallKept(x.cm.line, OnDialled(x, result, now).cm.line, now);
    } else {
      ReconcileKeepsCall(x.cm.line.(dial := None), false, now);
    }
  }

  lemma DoneKeepsCall(x: Sys, id: RequestId, result: Result, now: Millis)
    requires LineInv(x.cm.line, now) && x.cm.line.tracked.Some?
    requires OnDone(x, id, result, now).cm.line.over == x.cm.line.over
    ensures KeepsCall(x.cm.line, OnDone(x, id, result, now).cm.line, now)
  {
    if x.cm.query == Some(id) {
      ListedKeepsCall(x, result, now);
    } else if x.cm.line.dial == Some(Sent(id)) {
      DialledKeepsCall(x, result, now);
    } else {
      SameCallKept(x.cm.line, OnDone(x, id, result, now).cm.line, now);
    }
  }

  lemma EventKeepsCall(x: Sys, e: Event, now: Millis)
    requires LineInv(x.cm.line, now) && x.cm.line.tracked.Some?
    requires OnEvent(x, e, now).cm.line.over == x.cm.line.over
    ensures KeepsCall(x.cm.line, OnEvent(x, e, now).cm.line, now)
  {
    var s := x.cm.line;
    if e.Urc? && e.urc.Call? {
      if e.urc.info.mode == Voice {
        ReconcileKeepsCall(s.(calls := Updated(s.calls, e.urc.info)), false, now);
      }
    } else if e.Restarted? {
      ReconcileKeepsCall(s.(calls := [], dial := None), false, now);
    }
  }

  /** As long as the tracked call has not ended, its direction, index and connect time are kept. */
  lemma CallIsKept(w: World, st: Step)
    requires Inv(w) && Enabled(w, st) && w.sys.cm.line.tracked.Some?
    requires Next(w, st).sys.cm.line.over == w.sys.cm.line.over
    ensures KeepsCall(w.sys.cm.line, Next(w, st).sys.cm.line, w.now)
  {
    if st.Deliver? {
      match w.notices[0]
      case Completed(id, result) => DoneKeepsCall(w.sys, id, result, w.now);
      case Event(e) => EventKeepsCall(w.sys, e, w.now);
    } else {
      SameCallKept(w.sys.cm.line, Next(w, st).sys.cm.line, w.now);
    }
  }

  /** The first call of the list, as it is tracked from then on. */
  function AsListed(c: CallInfo, now: Millis): Tracked {
    Tracked(Some(c.index), c.direction, c.number, if c.state in {Active, Held} then Some(now) else None)
  }

  lemma ReconcilePicksUp(s: Line, fromQuery: bool, now: Millis)
    requires Ascending(s.calls) && Reconcile(s, fromQuery, now).begun > s.begun
    ensures s.calls != [] && Reconcile(s, fromQuery, now).tracked == Some(AsListed(s.calls[0], now))
  {
    var a := Follow(s, fromQuery, now);
    ListedIsTracked(PickUp(a), s.calls[0]);
  }

  /** A call picked up from the list is the one of lowest index, with its direction, number and state. */
  lemma PickedUpAsListed(w: World)
    requires Inv(w) && w.notices != [] && Delivered(w).sys.cm.line.begun > w.sys.cm.line.begun
    ensures var s := Delivered(w).sys.cm.line;
            s.calls != [] && Ascending(s.calls) && s.tracked == Some(AsListed(s.calls[0], w.now))
  {
    StepKeepsView(w, Deliver);
    match w.notices[0]
    case Completed(id, result) => DonePicksUp(w, id, result);
    case Event(e) => EventPicksUp(w.sys, e, w.now);
  }

  lemma DonePicksUp(w: World, id: RequestId, result: Result)
    requires ViewInv(w) && w.notices != [] && w.notices[0] == Completed(id, result)
    requires OnDone(w.sys, id, result, w.now).cm.line.begun > w.sys.cm.line.begun
    ensures var s := OnDone(w.sys, id, result, w.now).cm.line;
            s.calls != [] && s.tracked == Some(AsListed(s.calls[0], w.now))
  {
    var s := w.sys.cm.line;
    if w.sys.cm.query == Some(id) {
      LiveVoiceAscending(result.response.list);
      ReconcileFrame(s.(calls := LiveVoice(result.response.list)), true, w.now);
      ReconcilePicksUp(s.(calls := LiveVoice(result.response.list)), true, w.now);
    } else {
      ReconcileFrame(s.(dial := None), false, w.now);
      ReconcilePicksUp(s.(dial := None), false, w.now);
    }
  }

  lemma EventPicksUp(x: Sys, e: Event, now: Millis)
    requires Ascending(x.cm.line.calls) && OnEvent(x, e, now).cm.line.begun > x.cm.line.begun
    ensures var s := OnEvent(x, e, now).cm.line;
            s.calls != [] && s.tracked == Some(AsListed(s.calls[0], now))
  {
    var s := x.cm.line;
    if e.Urc? {
      UpdatedAscending(s.calls, e.urc.info);
      ReconcileFrame(s.(calls := Updated(s.calls, e.urc.info)), false, now);
      ReconcilePicksUp(s.(calls := Updated(s.calls, e.urc.info)), false, now);
    } else {
      ReconcileFrame(s.(calls := [], dial := None), false, now);
      ReconcilePicksUp(s.(calls := [], dial := None), false, now);
    }
  }

  // ----- What is asked for

  /** The timer asks for the list exactly when none is awaited, two seconds have passed, and it may be out of date. */
  lemma PollsExactlyWhen(w: World)
    requires Inv(w)
    ensures var x, s := Next(w, Timer).sys, w.sys.cm;
            var due := s.lastQuery.None? || w.now >= s.lastQuery.value + 2000;
            if s.query.None? && due && (s.line.tracked.Some? || !s.synced) then
              && x.cm == s.(query := x.cm.query, lastQuery := Some(w.now))
              && x.cm.query.Some? && w.sys.port.nextId <= x.cm.query.value
              && Open(x.port, w.handled, x.cm.query.value, ListCalls)
            else x == w.sys
  {
    OpenAfterSubmit(w.sys.port, w.handled, ListCalls);
  }

  /** After a notice that may mean the list has changed, other than an update itself, a list is awaited. */
  lemma HintsAskForList(w: World)
    requires Inv(w) && w.notices != [] && HintLike(w.sys.cm, w.notices[0])
    requires w.notices[0].Event? ==> IsHint(w.notices[0].event)
    ensures var v := Delivered(w); v.sys.cm.query.Some? && Open(v.sys.port, v.handled, v.sys.cm.query.value, ListCalls)
  {
    DeliverKeepsInv(w);
  }

  /** A query that fails leaves the calls as they are and the view to be asked for again. */
  lemma FailedListKeepsCalls(w: World, q: RequestId, result: Result)
    requires Inv(w) && w.notices != [] && w.notices[0] == Completed(q, result) && w.sys.cm.query == Some(q)
    requires !IsList(w.notices[0])
    ensures var s := Delivered(w).sys.cm;
            s.line == w.sys.cm.line && (if w.sys.cm.requery then s.query.Some? else s.query.None? && !s.synced)
  {
  }

  /** A restart of the modem forgets every call and the pending dial, and a list is awaited. */
  lemma RestartForgetsCalls(w: World)
    requires Inv(w) && w.notices != [] && w.notices[0] == Event(Restarted)
    ensures var s := Delivered(w).sys.cm;
            s.line.calls == [] && s.line.tracked.None? && s.line.dial.None? && !s.linkUp && s.query.Some?
  {
    var line := w.sys.cm.line.(calls := [], dial := None);
    ReconcileFrame(line, false, w.now);
    assert Follow(line, false, w.now).tracked.None?;
  }

  /** Dismissing the ended call leaves the rest: nothing to show, or what was shown. */
  lemma DismissClears(w: World)
    requires Inv(w)
    ensures var x := Next(w, UserDismiss).sys;
            && x.cm.line.ended.None? && x == w.sys.(cm := w.sys.cm.(line := x.cm.line))
            && x.cm.line == w.sys.cm.line.(ended := None)
            && StatusOf(x.cm.line) == if w.sys.cm.line.tracked.None? then Some(Idle) else StatusOf(w.sys.cm.line)
  {
    assert TrackedCall(w.sys.cm.line.(ended := None)) == TrackedCall(w.sys.cm.line);
  }
}
