/** Which requests the call service has outstanding, and how old the list it waits for may be. */
module CallDiscipline {
  import opened Options
  import opened Modem
  import opened CallService
  import opened CallWorld

  // ----- Outstanding requests

  /** The service submitted `request` as `id` and has not been handed the reply. */
  ghost predicate Open(port: Port, handled: set<RequestId>, id: RequestId, request: Request) {
    Submission(id, request) in port.sent && id !in handled
  }

  ghost predicate PortInv(port: Port, handled: set<RequestId>) {
    && (forall i :: 0 <= i < |port.sent| ==> port.sent[i].id < port.nextId)
    && (forall i, j :: 0 <= i < j < |port.sent| ==> port.sent[i].id < port.sent[j].id)
    && (forall id :: id in handled ==> id < port.nextId)
  }

  /** The only outstanding list query is `query`. */
  ghost predicate QueryOpen(query: Option<RequestId>, port: Port, handled: set<RequestId>) {
    && (query.Some? ==> Open(port, handled, query.value, ListCalls))
    && (forall id: RequestId :: Open(port, handled, id, ListCalls) ==> query == Some(id))
  }

  ghost predicate Listed(actions: seq<(RequestId, Action)>, id: RequestId, a: Action) {
    exists k :: 0 <= k < |actions| && actions[k] == (id, a)
  }

  /** The outstanding answers and hang-ups are exactly `actions`, one of each kind at most. */
  ghost predicate ActionsOpen(actions: seq<(RequestId, Action)>, port: Port, handled: set<RequestId>) {
    && (forall i, j :: 0 <= i < j < |actions| ==> actions[i].1 != actions[j].1)
    && (forall id: RequestId, a :: Listed(actions, id, a) <==> Open(port, handled, id, RequestOf(a)))
  }

  ghost predicate DialOpen(dial: Option<PendingDial>, port: Port, handled: set<RequestId>) {
    dial.Some? && dial.value.Sent? ==>
      exists number :: Open(port, handled, dial.value.id, Dial(number))
  }

  ghost predicate RequestInv(x: Sys, handled: set<RequestId>) {
    && PortInv(x.port, handled)
    && QueryOpen(x.cm.query, x.port, handled)
    && ActionsOpen(x.cm.actions, x.port, handled)
    && DialOpen(x.cm.line.dial, x.port, handled)
  }

  lemma OneRequestPerId(port: Port, handled: set<RequestId>, id: RequestId, a: Request, b: Request)
    requires PortInv(port, handled)
    requires Submission(id, a) in port.sent && Submission(id, b) in port.sent
    ensures a == b
  {
  }

  /** After a submission the outstanding requests are the old ones and the new one. */
  lemma OpenAfterSubmit(port: Port, handled: set<RequestId>, request: Request)
    requires PortInv(port, handled)
    ensures PortInv(Submitted(port, request), handled)
    ensures forall id: RequestId, r :: Open(Submitted(port, request), handled, id, r) <==>
                              Open(port, handled, id, r) || (id == port.nextId && r == request)
  {
    assert port.nextId !in handled;
  }

  lemma QueryAfterSubmit(query: Option<RequestId>, port: Port, handled: set<RequestId>, request: Request)
    requires PortInv(port, handled) && QueryOpen(query, port, handled)
    ensures !request.ListCalls? ==> QueryOpen(query, Submitted(port, request), handled)
    ensures request.ListCalls? && query.None? ==> QueryOpen(Some(port.nextId), Submitted(port, request), handled)
  {
    OpenAfterSubmit(port, handled, request);
  }

  lemma ActionsAfterSubmit(actions: seq<(RequestId, Action)>, port: Port, handled: set<RequestId>, request: Request)
    requires PortInv(port, handled) && ActionsOpen(actions, port, handled)
    requires !request.Answer? && !request.HangUp?
    ensures ActionsOpen(actions, Submitted(port, request), handled)
  {
    OpenAfterSubmit(port, handled, request);
    forall id: RequestId, a
      ensures Listed(actions, id, a) <==> Open(Submitted(port, request), handled, id, RequestOf(a))
    {
      assert Listed(actions, id, a) <==> Open(port, handled, id, RequestOf(a));
    }
  }

  lemma DialAfterSubmit(dial: Option<PendingDial>, port: Port, handled: set<RequestId>, request: Request)
    requires PortInv(port, handled) && DialOpen(dial, port, handled)
    ensures DialOpen(dial, Submitted(port, request), handled)
  {
    OpenAfterSubmit(port, handled, request);
    if dial.Some? && dial.value.Sent? {
      var number :| Open(port, handled, dial.value.id, Dial(number));
      assert Open(Submitted(port, request), handled, dial.value.id, Dial(number));
    }
  }

  lemma SubmitKeeps(x: Sys, handled: set<RequestId>, request: Request)
    requires RequestInv(x, handled)
    requires !request.Answer? && !request.HangUp? && !request.ListCalls?
    ensures RequestInv(x.(port := Submitted(x.port, request)), handled)
  {
    OpenAfterSubmit(x.port, handled, request);
    QueryAfterSubmit(x.cm.query, x.port, handled, request);
    ActionsAfterSubmit(x.cm.actions, x.port, handled, request);
    DialAfterSubmit(x.cm.line.dial, x.port, handled, request);
  }

  lemma WantQueryKeeps(x: Sys, handled: set<RequestId>, now: Millis)
    requires RequestInv(x, handled)
    ensures RequestInv(WantQuery(x, now), handled)
    ensures x.cm.query.None? ==> RequestInv(SubmitQuery(x, now), handled)
  {
    OpenAfterSubmit(x.port, handled, ListCalls);
    QueryAfterSubmit(x.cm.query, x.port, handled, ListCalls);
    ActionsAfterSubmit(x.cm.actions, x.port, handled, ListCalls);
    DialAfterSubmit(x.cm.line.dial, x.port, handled, ListCalls);
  }

  lemma ActKeeps(x: Sys, handled: set<RequestId>, a: Action)
    requires RequestInv(x, handled)
    ensures RequestInv(Act(x, a), handled)
  {
    if !InFlight(x.cm.actions, a) {
      var y := Act(x, a);
      var before, after := x.cm.actions, y.cm.actions;
      OpenAfterSubmit(x.port, handled, RequestOf(a));
      QueryAfterSubmit(x.cm.query, x.port, handled, RequestOf(a));
      DialAfterSubmit(x.cm.line.dial, x.port, handled, RequestOf(a));
      forall id: RequestId, b
        ensures Listed(after, id, b) <==> Open(y.port, handled, id, RequestOf(b))
      {
        assert Listed(before, id, b) <==> Open(x.port, handled, id, RequestOf(b));
        if Listed(before, id, b) {
          var k :| 0 <= k < |before| && before[k] == (id, b);
          assert after[k] == (id, b);
        }
        assert after[|before|] == (x.port.nextId, a);
        assert RequestOf(b) == RequestOf(a) <==> a == b;
      }
    }
  }

  lemma DialKeeps(x: Sys, handled: set<RequestId>, number: string, now: Millis)
    requires RequestInv(x, handled)
    ensures RequestInv(DialNumber(x, number, now).0, handled)
  {
    OpenAfterSubmit(x.port, handled, Dial(number));
    QueryAfterSubmit(x.cm.query, x.port, handled, Dial(number));
    ActionsAfterSubmit(x.cm.actions, x.port, handled, Dial(number));
    assert Open(Submitted(x.port, Dial(number)), handled, x.port.nextId, Dial(number));
  }

  // ----- Replies

  /** The state once the reply to `id` is taken off whatever was waiting for it. */
  function Cleared(s: State, id: RequestId): State {
    if s.query == Some(id) then s.(query := None, requery := false)
    else if s.line.dial == Some(Sent(id)) then s.(line := s.line.(dial := None))
    else
      var i := Position(s.actions, id);
      if i < |s.actions| then s.(actions := s.actions[..i] + s.actions[i + 1..]) else s
  }

  lemma QueryCleared(s: State, port: Port, handled: set<RequestId>, id: RequestId)
    requires RequestInv(Sys(s, port), handled)
    ensures QueryOpen(Cleared(s, id).query, port, handled + {id})
  {
    forall k: RequestId | Open(port, handled + {id}, k, ListCalls)
      ensures Cleared(s, id).query == Some(k)
    {
      assert Open(port, handled, k, ListCalls);
    }
  }

  lemma DialCleared(s: State, port: Port, handled: set<RequestId>, id: RequestId)
    requires RequestInv(Sys(s, port), handled)
    ensures DialOpen(Cleared(s, id).line.dial, port, handled + {id})
  {
    var dial := Cleared(s, id).line.dial;
    if dial.Some? && dial.value.Sent? {
      var number :| Open(port, handled, dial.value.id, Dial(number));
      if dial.value.id == id {
        OneRequestPerId(port, handled, id, Dial(number), ListCalls);
      }
      assert Open(port, handled + {id}, dial.value.id, Dial(number));
    }
  }

  lemma ActionsCleared(s: State, port: Port, handled: set<RequestId>, id: RequestId)
    requires RequestInv(Sys(s, port), handled)
    ensures ActionsOpen(Cleared(s, id).actions, port, handled + {id})
  {
    var rest := Cleared(s, id).actions;
    var i := Position(s.actions, id);
    if i < |s.actions| {
      assert Listed(s.actions, id, s.actions[i].1);
      assert Open(port, handled, id, RequestOf(s.actions[i].1));
      if s.query == Some(id) {
        OneRequestPerId(port, handled, id, RequestOf(s.actions[i].1), ListCalls);
      } else if s.line.dial == Some(Sent(id)) {
        var number :| Open(port, handled, id, Dial(number));
        OneRequestPerId(port, handled, id, RequestOf(s.actions[i].1), Dial(number));
      }
      assert rest == s.actions[..i] + s.actions[i + 1..];
    }
    forall k: RequestId, a
      ensures Listed(rest, k, a) <==> Open(port, handled + {id}, k, RequestOf(a))
    {
      assert Listed(s.actions, k, a) <==> Open(port, handled, k, RequestOf(a));
      ListedCleared(s.actions, i, k, a);
      if k == id && Listed(s.actions, k, a) && i < |s.actions| {
        assert Open(port, handled, id, RequestOf(s.actions[i].1));
        OneRequestPerId(port, handled, id, RequestOf(a), RequestOf(s.actions[i].1));
      }
    }
  }

  /** Removing position `i` from a list with one entry of each kind. */
  lemma ListedCleared(actions: seq<(RequestId, Action)>, i: nat, k: RequestId, a: Action)
    requires i <= |actions|
    requires forall p, q :: 0 <= p < q < |actions| ==> actions[p].1 != actions[q].1
    ensures i < |actions| ==>
              (Listed(actions[..i] + actions[i + 1..], k, a) <==> Listed(actions, k, a) && a != actions[i].1)
  {
    if i < |actions| {
      var rest := actions[..i] + actions[i + 1..];
      if Listed(actions, k, a) && a != actions[i].1 {
        var p :| 0 <= p < |actions| && actions[p] == (k, a);
        assert rest[if p < i then p else p - 1] == (k, a);
      }
      if Listed(rest, k, a) {
        var p :| 0 <= p < |rest| && rest[p] == (k, a);
        assert actions[if p < i then p else p + 1] == (k, a);
      }
    }
  }

  lemma ClearedKeeps(x: Sys, handled: set<RequestId>, id: RequestId)
    requires RequestInv(x, handled) && id < x.port.nextId
    ensures RequestInv(x.(cm := Cleared(x.cm, id)), handled + {id})
  {
    QueryCleared(x.cm, x.port, handled, id);
    DialCleared(x.cm, x.port, handled, id);
    ActionsCleared(x.cm, x.port, handled, id);
  }

  /** Only the pending dial may change, and only to one that waits for nothing. */
  lemma SameRequests(x: Sys, y: Sys, handled: set<RequestId>)
    requires RequestInv(x, handled)
    requires y.port == x.port && y.cm.query == x.cm.query && y.cm.actions == x.cm.actions
    requires y.cm.line.dial in {x.cm.line.dial, None, Some(Settled)}
    ensures RequestInv(y, handled)
  {
  }

  lemma DoneKeepsRequests(x: Sys, handled: set<RequestId>, id: RequestId, result: Result, now: Millis)
    requires RequestInv(x, handled) && id < x.port.nextId
    ensures RequestInv(OnDone(x, id, result, now), handled + {id})
  {
    var y := OnDone(x, id, result, now);
    var c := x.(cm := Cleared(x.cm, id));
    var line := x.cm.line;
    ClearedKeeps(x, handled, id);
    WantQueryKeeps(c, handled + {id}, now);
    if x.cm.query == Some(id) {
      if !x.cm.requery {
        if result.Ok? && result.response.Calls? {
          ReconcileFrame(line.(calls := LiveVoice(result.response.list)), true, now);
        }
        SameRequests(c, y, handled + {id});
      }
    } else if line.dial == Some(Sent(id)) {
      if MayHaveStarted(result) {
        var settled := x.(cm := x.cm.(line := line.(dial := Some(Settled))));
        SameRequests(c, settled, handled + {id});
        WantQueryKeeps(settled, handled + {id}, now);
      } else {
        ReconcileFrame(line.(dial := None), false, now);
        SameRequests(c, y, handled + {id});
      }
    }
  }

  lemma EventKeepsRequests(x: Sys, handled: set<RequestId>, e: Event, now: Millis)
    requires RequestInv(x, handled)
    ensures RequestInv(OnEvent(x, e, now), handled)
  {
    var s := x.cm;
    if e.Configured? {
      SubmitKeeps(x, handled, SetOutputGain(s.volume));
      var port := if s.volume != MAX_GAIN then Submitted(x.port, SetOutputGain(s.volume)) else x.port;
      var y := Sys(s.(linkUp := true), port);
      SameRequests(x.(port := port), y, handled);
      WantQueryKeeps(y, handled, now);
    } else if e.LinkLost? {
      var y := x.(cm := s.(linkUp := false));
      SameRequests(x, y, handled);
      WantQueryKeeps(y, handled, now);
    } else if e.Restarted? {
      var line := s.line.(calls := [], dial := None);
      ReconcileFrame(line, false, now);
      var y := x.(cm := s.(linkUp := false, line := Reconcile(line, false, now)));
      SameRequests(x, y, handled);
      WantQueryKeeps(y, handled, now);
    } else if e.Urc? && e.urc.Call? {
      ReconcileFrame(s.line.(calls := Updated(s.line.calls, e.urc.info)), false, now);
      SameRequests(x, OnEvent(x, e, now), handled);
    } else {
      WantQueryKeeps(x, handled, now);
    }
  }

  // ----- Replies on their way

  /** Every answered request has exactly one reply, waiting in line or already handled. */
  ghost predicate ReplyInv(w: World) {
    && w.handled <= w.answered
    && (forall id :: id in w.answered ==> id < w.sys.port.nextId)
    && (forall k :: 0 <= k < |w.notices| && w.notices[k].Completed? ==>
          w.notices[k].id in w.answered && w.notices[k].id !in w.handled)
    && DistinctReplies(w.notices)
    && (forall id :: id in w.answered && id !in w.handled ==> Waiting(w.notices, id))
  }

  ghost predicate Waiting(ns: seq<Notice>, id: RequestId) {
    exists k :: 0 <= k < |ns| && ns[k].Completed? && ns[k].id == id
  }

  lemma ReplyInvAppend(w: World, v: World, n: Notice)
    requires ReplyInv(w)
    requires v.notices == w.notices + [n] && v.handled == w.handled && v.sys.port == w.sys.port
    requires v.answered == if n.Completed? then w.answered + {n.id} else w.answered
    requires n.Completed? ==> n.id !in w.answered && n.id < w.sys.port.nextId
    ensures ReplyInv(v)
  {
    forall id | id in v.answered && id !in v.handled
      ensures Waiting(v.notices, id)
    {
      if id in w.answered {
        var k :| 0 <= k < |w.notices| && w.notices[k].Completed? && w.notices[k].id == id;
        assert v.notices[k] == w.notices[k];
      } else {
        assert v.notices[|w.notices|] == n;
      }
    }
  }

  lemma WaitsAfterLoss(ns: seq<Notice>, i: nat, j: nat, id: RequestId)
    requires i < j <= |ns| && (forall k :: i <= k < j ==> ns[k].Event?) && Waiting(ns, id)
    ensures Waiting(Lossy(ns, i, j), id)
  {
    var k :| 0 <= k < |ns| && ns[k].Completed? && ns[k].id == id;
    assert Lossy(ns, i, j)[if k < i then k else k - (j - i - 1)] == ns[k];
  }

  /** No two replies are for one request. */
  ghost predicate DistinctReplies(ns: seq<Notice>) {
    forall i, j :: 0 <= i < j < |ns| && ns[i].Completed? && ns[j].Completed? ==> ns[i].id != ns[j].id
  }

  lemma DistinctAfterLoss(ns: seq<Notice>, i: nat, j: nat)
    requires i < j <= |ns| && DistinctReplies(ns)
    ensures DistinctReplies(Lossy(ns, i, j))
  {
    var lossy := Lossy(ns, i, j);
    forall k, l | 0 <= k < l < |lossy| && lossy[k].Completed? && lossy[l].Completed?
      ensures lossy[k].id != lossy[l].id
    {
      ReplyAfterLoss(ns, i, j, k);
      ReplyAfterLoss(ns, i, j, l);
    }
  }

  lemma ReplyInvLoss(w: World, i: nat, j: nat)
    requires ReplyInv(w) && Enabled(w, LoseEvents(i, j))
    ensures ReplyInv(Next(w, LoseEvents(i, j)))
  {
    var v := Next(w, LoseEvents(i, j));
    assert v.notices == Lossy(w.notices, i, j);
    forall k | 0 <= k < |v.notices| && v.notices[k].Completed?
      ensures v.notices[k].id in w.answered && v.notices[k].id !in w.handled
    {
      ReplyAfterLoss(w.notices, i, j, k);
    }
    DistinctAfterLoss(w.notices, i, j);
    forall id | id in v.answered && id !in v.handled
      ensures Waiting(v.notices, id)
    {
      WaitsAfterLoss(w.notices, i, j, id);
    }
  }

  lemma HandlePortGrows(x: Sys, n: Notice, now: Millis)
    ensures Handle(x, n, now).port.nextId >= x.port.nextId
  {
  }

  lemma ReplyInvDeliver(w: World)
    requires ReplyInv(w) && w.notices != []
    ensures ReplyInv(Delivered(w))
  {
    var v := Delivered(w);
    HandlePortGrows(w.sys, w.notices[0], w.now);
    assert forall k :: 0 <= k < |v.notices| ==> v.notices[k] == w.notices[k + 1];
    forall id | id in v.answered && id !in v.handled
      ensures Waiting(v.notices, id)
    {
      var k :| 0 <= k < |w.notices| && w.notices[k].Completed? && w.notices[k].id == id;
      assert v.notices[k - 1] == w.notices[k];
    }
  }

  // ----- The age of the list awaited, the link and the gain

  /** The reply awaited will be discarded exactly when it was asked for before `mark`. */
  ghost predicate Fresh(s: State, mark: RequestId, nextId: RequestId) {
    && (s.requery ==> s.query.Some?)
    && (s.query.Some? ==> s.query.value < nextId && (s.requery <==> s.query.value < mark))
  }

  ghost predicate PolledBy(s: State, now: Millis) {
    s.lastQuery.Some? ==> s.lastQuery.value <= now
  }

  /** A query's reply will be applied exactly when it was submitted after the latest hint or settled dial. */
  ghost predicate FreshInv(w: World) {
    && Fresh(w.sys.cm, w.mark, w.sys.port.nextId)
    && w.settledAt <= w.mark <= w.sys.port.nextId
    && PolledBy(w.sys.cm, w.now)
  }

  /** The gain the latest of `sent` sets; maximum gain, as configured, if none does. */
  function LatestGain(sent: seq<Submission>): Gain {
    if sent == [] then MAX_GAIN
    else if sent[|sent| - 1].request.SetOutputGain? then sent[|sent| - 1].request.gain
    else LatestGain(sent[..|sent| - 1])
  }

  ghost predicate LinkInv(w: World) {
    && w.sys.cm.linkUp == w.linked
    && w.configuredAt <= |w.sys.port.sent|
    && (w.linked ==> LatestGain(w.sys.port.sent[w.configuredAt..]) == w.sys.cm.volume)
  }

  lemma LatestGainAppend(sent: seq<Submission>, at: nat, sub: Submission)
    requires at <= |sent|
    ensures LatestGain((sent + [sub])[at..]) ==
            if sub.request.SetOutputGain? then sub.request.gain else LatestGain(sent[at..])
  {
    assert (sent + [sub])[at..] == sent[at..] + [sub];
    assert (sent[at..] + [sub])[..|sent[at..]|] == sent[at..];
  }

  lemma DoneFresh(x: Sys, id: RequestId, result: Result, now: Millis, mark: RequestId)
    requires Fresh(x.cm, mark, x.port.nextId) && mark <= x.port.nextId && PolledBy(x.cm, now)
    ensures var y, hint := OnDone(x, id, result, now), HintLike(x.cm, Completed(id, result));
            Fresh(y.cm, if hint then x.port.nextId else mark, y.port.nextId) && PolledBy(y.cm, now)
  {
  }

  lemma EventFresh(x: Sys, e: Event, now: Millis, mark: RequestId)
    requires Fresh(x.cm, mark, x.port.nextId) && mark <= x.port.nextId && PolledBy(x.cm, now)
    ensures var y, hint := OnEvent(x, e, now), HintLike(x.cm, Event(e));
            Fresh(y.cm, if hint then x.port.nextId else mark, y.port.nextId) && PolledBy(y.cm, now)
  {
  }

  lemma FreshDeliver(w: World)
    requires FreshInv(w) && w.notices != []
    ensures FreshInv(Delivered(w))
  {
    HandlePortGrows(w.sys, w.notices[0], w.now);
    match w.notices[0]
    case Completed(id, result) => DoneFresh(w.sys, id, result, w.now, w.mark);
    case Event(e) => EventFresh(w.sys, e, w.now, w.mark);
  }

  /** What handling a notice submits, and that it leaves the volume alone. */
  ghost predicate Submits(x: Sys, y: Sys, extra: seq<Request>) {
    && y.cm.volume == x.cm.volume
    && |y.port.sent| == |x.port.sent| + |extra|
    && y.port.sent[..|x.port.sent|] == x.port.sent
    && forall k :: 0 <= k < |extra| ==> y.port.sent[|x.port.sent| + k].request == extra[k]
  }

  lemma DoneSubmitsAtMost(x: Sys, id: RequestId, result: Result, now: Millis)
    ensures var y := OnDone(x, id, result, now);
            && y.cm.linkUp == x.cm.linkUp && y.cm.volume == x.cm.volume
            && (y.port == x.port || y.port == Submitted(x.port, ListCalls))
  {
  }

  lemma DoneSubmits(x: Sys, id: RequestId, result: Result, now: Millis)
    ensures var y := OnDone(x, id, result, now);
            y.cm.linkUp == x.cm.linkUp && (Submits(x, y, []) || Submits(x, y, [ListCalls]))
  {
    DoneSubmitsAtMost(x, id, result, now);
    var y := OnDone(x, id, result, now);
    if y.port == x.port {
      assert Submits(x, y, []);
    } else {
      assert Submits(x, y, [ListCalls]);
    }
  }

  lemma EventSubmits(x: Sys, e: Event, now: Millis)
    ensures var y := OnEvent(x, e, now);
            && y.cm.linkUp == (if e.LinkLost? || e.Restarted? then false else e.Configured? || x.cm.linkUp)
            && (if e.Configured? && x.cm.volume != MAX_GAIN then
                  Submits(x, y, [SetOutputGain(x.cm.volume)]) || Submits(x, y, [SetOutputGain(x.cm.volume), ListCalls])
                else Submits(x, y, []) || Submits(x, y, [ListCalls]))
  {
    var y := OnEvent(x, e, now);
    if e.Configured? && x.cm.volume != MAX_GAIN {
      var g := SetOutputGain(x.cm.volume);
      if x.cm.query.Some? {
        assert Submits(x, y, [g]);
      } else {
        assert Submits(x, y, [g, ListCalls]);
      }
    } else if y.port == x.port {
      assert Submits(x, y, []);
    } else {
      assert y.port == Submitted(x.port, ListCalls);
      assert Submits(x, y, [ListCalls]);
    }
  }

  lemma GainOfExtra(sent: seq<Submission>, at: nat, extra: seq<Request>)
    requires at + |extra| == |sent| && forall k :: 0 <= k < |extra| ==> sent[at + k].request == extra[k]
    ensures extra in {[], [ListCalls]} ==> LatestGain(sent[at..]) == MAX_GAIN
    ensures forall g :: extra in {[SetOutputGain(g)], [SetOutputGain(g), ListCalls]} ==> LatestGain(sent[at..]) == g
  {
    var s := sent[at..];
    assert forall k :: 0 <= k < |extra| ==> s[k].request == extra[k];
    if |extra| == 2 {
      assert s[..1][0] == s[0] && s[..1][..0] == [];
    }
  }

  lemma GainAfterQuery(before: seq<Submission>, after: seq<Submission>, at: nat)
    requires at <= |before| && before <= after && |after| <= |before| + 1
    requires |after| == |before| + 1 ==> after[|before|].request == ListCalls
    ensures LatestGain(after[at..]) == LatestGain(before[at..])
  {
    if |after| == |before| + 1 {
      assert after == before + [after[|before|]];
      LatestGainAppend(before, at, after[|before|]);
    } else {
      assert after == before;
    }
  }

  lemma LinkDeliver(w: World)
    requires LinkInv(w) && w.notices != []
    ensures LinkInv(Delivered(w))
  {
    var x, n, y := w.sys, w.notices[0], Handle(w.sys, w.notices[0], w.now);
    var at := |x.port.sent|;
    match n
    case Completed(id, result) =>
      DoneSubmits(x, id, result, w.now);
      GainAfterQuery(x.port.sent, y.port.sent, w.configuredAt);
    case Event(e) =>
      EventSubmits(x, e, w.now);
      if e.Configured? {
        var g := SetOutputGain(x.cm.volume);
        if Submits(x, y, []) { GainOfExtra(y.port.sent, at, []); }
        if Submits(x, y, [ListCalls]) { GainOfExtra(y.port.sent, at, [ListCalls]); }
        if Submits(x, y, [g]) { GainOfExtra(y.port.sent, at, [g]); }
        if Submits(x, y, [g, ListCalls]) { GainOfExtra(y.port.sent, at, [g, ListCalls]); }
      } else {
        GainAfterQuery(x.port.sent, y.port.sent, w.configuredAt);
      }
  }
}
