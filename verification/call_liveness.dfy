/** Once the modem leaves its list alone and queries are answered, the view becomes true and stays so. */
module CallLiveness {
  import opened Options
  import opened Modem
  import opened CallService
  import opened CallWorld
  import opened CallTheorems

  ghost predicate ViewTrue(w: World) {
    w.sys.cm.line.calls == LiveVoice(w.truth)
  }

  /** From the notice at `n` on, nothing that waits says that the list may have changed. */
  ghost predicate CleanFrom(w: World, n: nat) {
    forall k :: n <= k < |w.notices| ==> !IsNews(w.notices[k])
  }

  /** How many lists may still be discarded as stale. */
  function Discards(s: State): nat {
    (if s.requery then 1 else 0) + |s.actions| + if s.line.dial.Some? && s.line.dial.value.Sent? then 1 else 0
  }

  /** The service is handed the list it asked for, fresh or not. */
  predicate TakesList(w: World, st: Step) {
    st.Deliver? && w.notices != [] && IsList(w.notices[0]) && w.sys.cm.query == Some(w.notices[0].id)
  }

  lemma StepStaysClean(w: World, st: Step, n: nat)
    requires Enabled(w, st) && IsUneventful(st) && CleanFrom(w, n)
    ensures Next(w, st).truth == w.truth
    ensures CleanFrom(Next(w, st), if st.Deliver? && n > 0 then n - 1 else n)
  {
    var v := Next(w, st);
    if st.Reply? {
      assert v.notices[|w.notices|] == Completed(st.id, st.result);
    } else if st.Noise? {
      assert v.notices[|w.notices|] == Event(st.event);
    }
  }

  lemma OtherReplyConverges(x: Sys, id: RequestId, result: Result, now: Millis)
    requires x.cm.requery ==> x.cm.query.Some?
    requires x.cm.query != Some(id)
    ensures var y := OnDone(x, id, result, now);
            Discards(y.cm) <= Discards(x.cm) && y.cm.line.calls == x.cm.line.calls
  {
    if x.cm.line.dial == Some(Sent(id)) {
      ReconcileFrame(x.cm.line.(dial := None), false, now);
    }
  }

  /** A list asked for and taken becomes the view, or is one fewer to be discarded; other replies leave the view. */
  lemma ReplyConverges(x: Sys, id: RequestId, result: Result, now: Millis)
    requires x.cm.requery ==> x.cm.query.Some?
    ensures var y, n := OnDone(x, id, result, now), Completed(id, result);
            && Discards(y.cm) <= Discards(x.cm)
            && (if TakesFresh(x.cm, n) then y.cm.line.calls == LiveVoice(n.result.response.list)
                else y.cm.line.calls == x.cm.line.calls)
            && (IsList(n) && x.cm.query == Some(id) ==> TakesFresh(x.cm, n) || Discards(y.cm) < Discards(x.cm))
  {
    if x.cm.query == Some(id) {
      if result.Ok? && result.response.Calls? {
        ReconcileFrame(x.cm.line.(calls := LiveVoice(result.response.list)), true, now);
      }
    } else {
      OtherReplyConverges(x, id, result, now);
    }
  }

  lemma {:induction false} NothingToReplay(calls: seq<CallInfo>, ns: seq<Notice>)
    requires forall k :: 0 <= k < |ns| ==> !IsNews(ns[k])
    ensures !HasHint(ns) && Replay(calls, ns) == calls
  {
    if ns != [] {
      NothingToReplay(calls, ns[..|ns| - 1]);
    }
  }

  /** With no news waiting, the fresh list handed over is the modem's. */
  lemma FreshListIsTrue(w: World)
    requires ViewInv(w) && CleanFrom(w, 0) && w.notices != [] && TakesFresh(w.sys.cm, w.notices[0])
    ensures LiveVoice(w.notices[0].result.response.list) == LiveVoice(w.truth)
  {
    assert w.notices[..0] == [];
    NothingToReplay(LiveVoice(w.notices[0].result.response.list), w.notices[1..]);
  }

  lemma NoiseIsIgnored(x: Sys, e: Event, now: Millis)
    requires !IsNews(Event(e))
    ensures OnEvent(x, e, now) == x
  {
  }

  lemma DeliverConverges(w: World)
    requires Inv(w) && CleanFrom(w, 0) && w.notices != []
    ensures var v := Delivered(w);
            && Discards(v.sys.cm) <= Discards(w.sys.cm)
            && (ViewTrue(w) ==> ViewTrue(v))
            && (TakesList(w, Deliver) ==> ViewTrue(v) || Discards(v.sys.cm) < Discards(w.sys.cm))
  {
    match w.notices[0]
    case Completed(id, result) =>
      ReplyConverges(w.sys, id, result, w.now);
      if TakesFresh(w.sys.cm, w.notices[0]) {
        FreshListIsTrue(w);
      }
    case Event(e) => NoiseIsIgnored(w.sys, e, w.now);
  }

  lemma StepConverges(w: World, st: Step)
    requires Inv(w) && CleanFrom(w, 0) && Enabled(w, st) && IsUneventful(st)
    ensures var v := Next(w, st);
            && Discards(v.sys.cm) <= Discards(w.sys.cm)
            && (ViewTrue(w) ==> ViewTrue(v))
            && (TakesList(w, st) ==> ViewTrue(v) || Discards(v.sys.cm) < Discards(w.sys.cm))
  {
    if st.Deliver? {
      DeliverConverges(w);
    }
  }

  /** How many of the lists it asked for the service is handed. */
  ghost function ListsTaken(w: World, steps: seq<Step>): nat
    requires CanTake(w, steps)
    decreases |steps|
  {
    if steps == [] then 0
    else (if TakesList(w, steps[0]) then 1 else 0) + ListsTaken(Next(w, steps[0]), steps[1..])
  }

  lemma {:induction false} CleanRunConverges(w: World, steps: seq<Step>)
    requires Inv(w) && CleanFrom(w, 0) && CanTake(w, steps) && Uneventful(steps)
    ensures ViewTrue(w) || ListsTaken(w, steps) > Discards(w.sys.cm) ==> ViewTrue(After(w, steps))
    ensures After(w, steps).truth == w.truth
    decreases |steps|
  {
    if steps != [] {
      var st := steps[0];
      StepKeepsInv(w, st);
      StepStaysClean(w, st, 0);
      StepConverges(w, st);
      CleanRunConverges(Next(w, st), steps[1..]);
    }
  }

  function Deliveries(steps: seq<Step>): nat {
    if steps == [] then 0 else (if steps[0].Deliver? then 1 else 0) + Deliveries(steps[1..])
  }

  /** Once every notice that waited has been handed over, no news waits. */
  lemma {:induction false} BecomesClean(w: World, steps: seq<Step>, n: nat)
    requires CleanFrom(w, n) && CanTake(w, steps) && Uneventful(steps) && Deliveries(steps) >= n
    ensures CleanFrom(After(w, steps), 0) && After(w, steps).truth == w.truth
    decreases |steps|
  {
    if steps != [] {
      var st := steps[0];
      StepStaysClean(w, st, n);
      BecomesClean(Next(w, st), steps[1..], if st.Deliver? && n > 0 then n - 1 else n);
    }
  }

  /** One query marked stale, two kinds of action and one dial: at most four lists are discarded. */
  lemma FewDiscards(w: World)
    requires Inv(w)
    ensures Discards(w.sys.cm) <= 4
  {
    var actions := w.sys.cm.actions;
    var a, b, c := KindAt(actions, 0), KindAt(actions, 1), KindAt(actions, 2);
    assert |actions| > 2 ==> a != b && a != c && b != c;
  }

  function KindAt(actions: seq<(RequestId, Action)>, i: nat): Action {
    if i < |actions| then actions[i].1 else AnswerCall
  }

  /**
   In every continuation of every run in which no call changes, no event is lost and the user asks
   nothing of a call: once the notices that waited are handed over, and then five of the lists the
   service asked for, the view is the modem's list, and stays so.
   */
  lemma EveryQuietRunConverges(run: seq<Step>, first: seq<Step>, later: seq<Step>)
    requires CanTake(START, run)
    requires CanTake(After(START, run), first) && Uneventful(first)
    requires Deliveries(first) >= |After(START, run).notices|
    requires CanTake(After(After(START, run), first), later) && Uneventful(later)
    requires ListsTaken(After(After(START, run), first), later) > 4
    ensures var v := After(After(After(START, run), first), later);
            ViewTrue(v) && v.truth == After(START, run).truth
  {
    var w := After(START, run);
    Safety(run);
    BecomesClean(w, first, |w.notices|);
    RunKeepsInv(w, first);
    FewDiscards(After(w, first));
    CleanRunConverges(After(w, first), later);
  }

  /** Until then a query is in flight, or the timer asks for one as soon as one is due. */
  lemma UntrueViewIsAskedFor(w: World)
    requires Inv(w) && CleanFrom(w, 0) && !ViewTrue(w)
    ensures var s := Next(w, Timer).sys.cm;
            s.query.Some? || (s.lastQuery.Some? && s.lastQuery.value <= w.now < s.lastQuery.value + 2000)
  {
    if w.sys.cm.query.None? && w.sys.cm.synced {
      NothingToReplay(w.sys.cm.line.calls, w.notices);
    }
  }
}
