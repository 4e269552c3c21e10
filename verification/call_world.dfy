/**
 The call service in its environment, over whole runs.

 The environment is a modem with its own ("true") call list, a first-in first-out line of notices to
 the service, and other services sharing the port. Every request gets exactly one reply, in any order.
 For a request the modem takes its list at any moment between the submission and the reply, so a list
 may be out of date when it is sent, and by more when it is handed over. A change of the true list is
 announced either by a `+CLCC` update or by some other hint, and received bytes may be lost, which
 leaves a `BytesLost` in place of the events they carried.
 */
module CallWorld {
  import opened Options
  import opened Modem
  import opened CallService

  /**
   `taken`: the list the modem took for a request; `answered`: ids whose reply was sent; `handled`:
   ids whose reply reached the service's owner.
   The last four fields are history, read off the notices delivered: whether the latest link event was
   `Configured`; how much had been submitted before it; the port's next id when the latest hint, and
   when the latest settled dial, was handled.
   */
  datatype World = World(
    sys: Sys,
    now: Millis,
    truth: seq<CallInfo>,
    notices: seq<Notice>,
    taken: map<RequestId, seq<CallInfo>>,
    answered: set<RequestId>,
    handled: set<RequestId>,
    linked: bool,
    configuredAt: nat,
    mark: RequestId,
    settledAt: RequestId)

  const START := World(Sys(INITIAL, Port(0, [])), 0, [], [], map[], {}, {}, false, 0, 0, 0)

  datatype Step =
    | UserDial(number: string)
    | UserAnswer
    | UserHangUp
    | UserVolume(gain: Gain)
    | UserDismiss
    | Timer
    | Elapse(ms: nat)
    | OtherSubmit
    | CallUpdate(info: CallInfo)
    | CallHint(hint: Event, truth: seq<CallInfo>)
    | SilentChange(truth: seq<CallInfo>)
    | Noise(event: Event)
    | LoseEvents(from: nat, to: nat)
    | TakeList(id: RequestId)
    | Reply(id: RequestId, result: Result)
    | Deliver

  /** Events, other than a `+CLCC` update, that say the list may have changed. */
  predicate IsHint(e: Event) {
    match e
    case Urc(u) => !u.Call? && !u.Unrelated?
    case UnexpectedPrompt => false
    case _ => true
  }

  predicate IsVoiceUpdate(e: Event) {
    e.Urc? && e.urc.Call? && e.urc.info.mode == Voice
  }

  /** The true list after the update `info` announces. */
  function Upsert(truth: seq<CallInfo>, info: CallInfo): seq<CallInfo> {
    SortByIndex(Without(truth, info.index) + [info])
  }

  ghost predicate Enabled(w: World, st: Step) {
    match st
    case CallUpdate(info) =>
      // A call keeps its mode while it is listed.
      forall c :: c in w.truth && c.index == info.index ==> (c.mode == Voice <==> info.mode == Voice)
    case CallHint(e, truth) => IsHint(e) && Ascending(truth)
    case SilentChange(truth) => Ascending(truth) && LiveVoice(truth) == LiveVoice(w.truth)
    case Noise(e) => !IsHint(e) && !(e.Urc? && e.urc.Call?)
    case LoseEvents(i, j) => i < j <= |w.notices| && forall k :: i <= k < j ==> w.notices[k].Event?
    case TakeList(id) => id < w.sys.port.nextId && id !in w.answered && id !in w.taken
    case Reply(id, result) =>
      id < w.sys.port.nextId && id !in w.answered
      && (result.Ok? && result.response.Calls? ==> id in w.taken && result.response.list == w.taken[id])
    case Deliver => w.notices != []
    case _ => true
  }

  /** Whether a reply settles the pending dial: the modem has started the call if it ever will. */
  predicate Settles(s: State, n: Notice) {
    n.Completed? && s.query != Some(n.id) && s.line.dial == Some(Sent(n.id)) && MayHaveStarted(n.result)
  }

  /** Whether the service treats `n` as a sign that an earlier list may be out of date. */
  predicate HintLike(s: State, n: Notice) {
    match n
    case Event(e) => IsHint(e) || IsVoiceUpdate(e)
    case Completed(id, result) =>
      Settles(s, n)
      || (s.query != Some(id) && s.line.dial != Some(Sent(id))
          && var i := Position(s.actions, id);
             i < |s.actions| && (s.actions[i].1.EndCalls? || result.Err?))
  }

  function Delivered(w: World): World
    requires w.notices != []
  {
    var n := w.notices[0];
    var port := w.sys.port;
    w.(sys := Handle(w.sys, n, w.now),
       notices := w.notices[1..],
       handled := if n.Completed? then w.handled + {n.id} else w.handled,
       linked := if n.Event? && n.event in {LinkLost, Restarted} then false
                 else if n == Event(Configured) then true else w.linked,
       configuredAt := if n == Event(Configured) then |port.sent| else w.configuredAt,
       mark := if HintLike(w.sys.cm, n) then port.nextId else w.mark,
       settledAt := if Settles(w.sys.cm, n) then port.nextId else w.settledAt)
  }

  ghost function Next(w: World, st: Step): World
    requires Enabled(w, st)
  {
    match st
    case UserDial(number) => w.(sys := DialNumber(w.sys, number, w.now).0)
    case UserAnswer => w.(sys := AnswerRinging(w.sys).0)
    case UserHangUp => w.(sys := HangUpAll(w.sys).0)
    case UserVolume(gain) => w.(sys := SetVolume(w.sys, gain))
    case UserDismiss => w.(sys := Dismiss(w.sys))
    case Timer => w.(sys := Tick(w.sys, w.now))
    case Elapse(ms) => w.(now := w.now + ms)
    case OtherSubmit => w.(sys := w.sys.(port := w.sys.port.(nextId := w.sys.port.nextId + 1)))
    case CallUpdate(info) => w.(truth := Upsert(w.truth, info), notices := w.notices + [Event(Urc(Call(info)))])
    case CallHint(e, truth) => w.(truth := truth, notices := w.notices + [Event(e)])
    case SilentChange(truth) => w.(truth := truth)
    case Noise(e) => w.(notices := w.notices + [Event(e)])
    case LoseEvents(i, j) => w.(notices := w.notices[..i] + [Event(BytesLost)] + w.notices[j..])
    case TakeList(id) => w.(taken := w.taken[id := w.truth])
    case Reply(id, result) => w.(notices := w.notices + [Completed(id, result)], answered := w.answered + {id})
    case Deliver => Delivered(w)
  }

  /** `steps` can be taken one after the other from `w`, ending in `After(w, steps)`. */
  ghost predicate CanTake(w: World, steps: seq<Step>)
    decreases |steps|
  {
    steps == [] || (Enabled(w, steps[0]) && CanTake(Next(w, steps[0]), steps[1..]))
  }

  ghost function After(w: World, steps: seq<Step>): World
    requires CanTake(w, steps)
    decreases |steps|
  {
    if steps == [] then w else After(Next(w, steps[0]), steps[1..])
  }

  // ----- The calls and the one tracked

  /** What `Reconcile` needs to find. */
  ghost predicate Coherent(s: Line, now: Millis) {
    && (forall c :: c in s.calls ==> IsLiveVoice(c))
    && s.begun == s.over + (if s.tracked.Some? then 1 else 0)
    && (s.ended.Some? && s.ended.value.connectedMs.Some? ==> s.ended.value.connectedMs.value >= 0)
    && (s.tracked.None? ==> s.dial.None?)
    && (s.tracked.Some? ==>
          var t := s.tracked.value;
          && s.ended.None?
          && (t.index.Some? ==> s.dial.None?)
          && (t.index.None? ==> t.direction == Outgoing && t.connectedAt.None?)
          && (t.connectedAt.Some? ==> t.connectedAt.value <= now))
  }

  ghost predicate IndexListed(s: Line) {
    s.tracked.Some? && s.tracked.value.index.Some? ==> TrackedCall(s).Some?
  }

  ghost predicate DialAwaited(s: Line) {
    s.tracked.Some? && s.tracked.value.index.None? ==>
      s.dial.Some? && forall c :: c in s.calls ==> c.direction != Outgoing
  }

  /** What holds between operations. */
  ghost predicate LineInv(s: Line, now: Millis) {
    && Coherent(s, now)
    && IndexListed(s)
    && DialAwaited(s)
    && (s.tracked.None? ==> s.calls == [])
    && (TrackedCall(s).Some? && TrackedCall(s).value.state in {Active, Held} ==>
          s.tracked.value.connectedAt.Some?)
    && (TrackedCall(s).Some? && TrackedCall(s).value.number.Some? ==>
          s.tracked.value.number == TrackedCall(s).value.number)
  }

  lemma FollowKeeps(s: Line, fromQuery: bool, now: Millis)
    requires Coherent(s, now)
    ensures var a := Follow(s, fromQuery, now); Coherent(a, now) && IndexListed(a) && DialAwaited(a)
  {
  }

  lemma PickUpKeeps(s: Line, now: Millis)
    requires Coherent(s, now) && IndexListed(s) && DialAwaited(s)
    ensures var b := PickUp(s); Coherent(b, now) && IndexListed(b) && DialAwaited(b)
    ensures PickUp(s).tracked.None? ==> s.calls == []
  {
  }

  lemma RefreshKeeps(s: Line, now: Millis)
    requires Coherent(s, now) && IndexListed(s) && DialAwaited(s)
    requires s.tracked.None? ==> s.calls == []
    ensures LineInv(Refresh(s, now), now)
  {
    assert TrackedCall(Refresh(s, now)) == TrackedCall(s);
  }

  lemma ReconcileEstablishes(s: Line, fromQuery: bool, now: Millis)
    requires Coherent(s, now)
    ensures LineInv(Reconcile(s, fromQuery, now), now)
  {
    FollowKeeps(s, fromQuery, now);
    PickUpKeeps(Follow(s, fromQuery, now), now);
    RefreshKeeps(PickUp(Follow(s, fromQuery, now)), now);
  }

  lemma ReconcileFrame(s: Line, fromQuery: bool, now: Millis)
    ensures Reconcile(s, fromQuery, now).calls == s.calls
    ensures Reconcile(s, fromQuery, now).dial in {s.dial, None}
  {
    var a := Follow(s, fromQuery, now);
    assert a.calls == s.calls && a.dial in {s.dial, None};
    var b := PickUp(a);
    assert b.calls == a.calls && b.dial == a.dial;
  }

  lemma ListedKeepsLine(x: Sys, result: Result, now: Millis)
    requires LineInv(x.cm.line, now)
    ensures LineInv(OnListed(x, result, now).cm.line, now)
  {
    if result.Ok? && result.response.Calls? {
      LiveVoiceMembers(result.response.list);
      ReconcileEstablishes(x.cm.line.(calls := LiveVoice(result.response.list)), true, now);
    }
  }

  lemma SettlingKeepsLine(s: Line, now: Millis)
    requires LineInv(s, now) && s.dial.Some?
    ensures LineInv(s.(dial := Some(Settled)), now)
  {
    assert TrackedCall(s.(dial := Some(Settled))) == TrackedCall(s);
  }

  lemma DialledKeepsLine(x: Sys, result: Result, now: Millis)
    requires LineInv(x.cm.line, now) && x.cm.line.dial.Some?
    ensures LineInv(OnDialled(x, result, now).cm.line, now)
  {
    if MayHaveStarted(result) {
      SettlingKeepsLine(x.cm.line, now);
    } else {
      ReconcileEstablishes(x.cm.line.(dial := None), false, now);
    }
  }

  lemma DoneKeepsLine(x: Sys, id: RequestId, result: Result, now: Millis)
    requires LineInv(x.cm.line, now)
    ensures LineInv(OnDone(x, id, result, now).cm.line, now)
  {
    if x.cm.query == Some(id) {
      ListedKeepsLine(x, result, now);
    } else if x.cm.line.dial == Some(Sent(id)) {
      DialledKeepsLine(x, result, now);
    }
  }

  lemma EventKeepsLine(x: Sys, e: Event, now: Millis)
    requires LineInv(x.cm.line, now)
    ensures LineInv(OnEvent(x, e, now).cm.line, now)
  {
    var s := x.cm.line;
    if e.Urc? && e.urc.Call? {
      UpdatedMembers(s.calls, e.urc.info);
      ReconcileEstablishes(s.(calls := Updated(s.calls, e.urc.info)), false, now);
    } else if e.Restarted? {
      ReconcileEstablishes(s.(calls := [], dial := None), false, now);
    }
  }

  lemma UpdatedMembers(calls: seq<CallInfo>, info: CallInfo)
    ensures forall c :: c in Updated(calls, info) <==>
                          (c in calls && c.index != info.index) || (c == info && IsLiveVoice(info))
  {
    var rest := Without(calls, info.index);
    WithoutMembers(calls, info.index);
    SortMembers(rest + [info]);
  }

  lemma {:induction false} SortMembers(list: seq<CallInfo>)
    ensures forall c :: c in SortByIndex(list) <==> c in list
  {
    if list != [] {
      var front := list[..|list| - 1];
      SortMembers(front);
      InsertMembers(SortByIndex(front), list[|list| - 1]);
      assert list == front + [list[|list| - 1]];
    }
  }

  // ----- The view and the truth

  /** One pending notice applied to a list. */
  function Apply(calls: seq<CallInfo>, n: Notice): seq<CallInfo> {
    if n.Event? && IsVoiceUpdate(n.event) then Updated(calls, n.event.urc.info) else calls
  }

  function Replay(calls: seq<CallInfo>, ns: seq<Notice>): seq<CallInfo> {
    if ns == [] then calls else Apply(Replay(calls, ns[..|ns| - 1]), ns[|ns| - 1])
  }

  ghost predicate HasHint(ns: seq<Notice>) {
    exists k :: 0 <= k < |ns| && ns[k].Event? && IsHint(ns[k].event)
  }

  /** The pending notices account for the difference between `calls` and the truth. */
  ghost predicate Explained(calls: seq<CallInfo>, ns: seq<Notice>, truth: seq<CallInfo>) {
    HasHint(ns) || Replay(calls, ns) == LiveVoice(truth)
  }

  predicate IsList(n: Notice) {
    n.Completed? && n.result.Ok? && n.result.response.Calls?
  }

  /** A notice that marks a list query in flight as stale. */
  predicate IsNews(n: Notice) {
    n.Event? && (IsHint(n.event) || IsVoiceUpdate(n.event))
  }

  ghost predicate HasNews(ns: seq<Notice>) {
    exists k :: 0 <= k < |ns| && IsNews(ns[k])
  }

  /** A list replied to `q`, unless news ahead of it has it discarded, accounts for the truth with what follows. */
  ghost predicate RepliesExplained(q: RequestId, ns: seq<Notice>, truth: seq<CallInfo>) {
    forall p :: 0 <= p < |ns| && IsList(ns[p]) && ns[p].id == q ==>
      HasNews(ns[..p]) || Explained(LiveVoice(ns[p].result.response.list), ns[p + 1..], truth)
  }

  /** A query not marked stale: its list is yet to be taken, about to be discarded, or accounted for. */
  ghost predicate QueryExplained(w: World, q: RequestId) {
    && (q in w.taken && q !in w.answered ==> HasNews(w.notices) || LiveVoice(w.taken[q]) == LiveVoice(w.truth))
    && RepliesExplained(q, w.notices, w.truth)
  }

  ghost predicate AllAscending(w: World) {
    && Ascending(w.truth)
    && Ascending(w.sys.cm.line.calls)
    && (forall id :: id in w.taken ==> Ascending(w.taken[id]))
    && (forall p :: 0 <= p < |w.notices| && IsList(w.notices[p]) ==> Ascending(w.notices[p].result.response.list))
  }

  /** Nothing is known yet of requests to come. */
  ghost predicate IdsIssued(w: World) {
    && (forall id :: id in w.taken ==> id < w.sys.port.nextId)
    && (forall p :: 0 <= p < |w.notices| && w.notices[p].Completed? ==> w.notices[p].id < w.sys.port.nextId)
  }

  ghost predicate ViewInv(w: World) {
    var s := w.sys.cm;
    && AllAscending(w)
    && IdsIssued(w)
    && (s.query.Some? && !s.requery ==> QueryExplained(w, s.query.value))
    && (s.query.None? && s.synced ==> Explained(s.line.calls, w.notices, w.truth))
  }

  lemma {:induction false} ReplayFirst(calls: seq<CallInfo>, n: Notice, rest: seq<Notice>)
    ensures Replay(calls, [n] + rest) == Replay(Apply(calls, n), rest)
  {
    if rest == [] {
      assert [n] + rest == [n];
      assert Replay(calls, [n][..0]) == calls;
    } else {
      var front, last := rest[..|rest| - 1], rest[|rest| - 1];
      ReplayFirst(calls, n, front);
      assert ([n] + rest)[..|rest|] == [n] + front;
    }
  }

  /** Taking the first notice: what is left still accounts for the truth, unless it was the hint. */
  lemma ExplainedFirst(calls: seq<CallInfo>, ns: seq<Notice>, truth: seq<CallInfo>)
    requires ns != [] && Explained(calls, ns, truth)
    ensures (ns[0].Event? && IsHint(ns[0].event)) || Explained(Apply(calls, ns[0]), ns[1..], truth)
  {
    if HasHint(ns) {
      var k :| 0 <= k < |ns| && ns[k].Event? && IsHint(ns[k].event);
      assert k > 0 ==> ns[1..][k - 1] == ns[k];
    } else {
      assert ns == [ns[0]] + ns[1..];
      ReplayFirst(calls, ns[0], ns[1..]);
    }
  }

  /** Adding a notice that is a hint, or that turns the old truth into the new. */
  lemma ExplainedLast(calls: seq<CallInfo>, ns: seq<Notice>, n: Notice, truth: seq<CallInfo>, changed: seq<CallInfo>)
    requires Explained(calls, ns, truth)
    requires (n.Event? && IsHint(n.event)) || Apply(LiveVoice(truth), n) == LiveVoice(changed)
    ensures Explained(calls, ns + [n], changed)
  {
    var all := ns + [n];
    assert all[|ns|] == n && all[..|ns|] == ns;
    if HasHint(ns) {
      var k :| 0 <= k < |ns| && ns[k].Event? && IsHint(ns[k].event);
      assert all[k] == ns[k];
    }
  }

  lemma NewsLast(ns: seq<Notice>, n: Notice)
    ensures HasNews(ns + [n]) <==> HasNews(ns) || IsNews(n)
  {
    var all := ns + [n];
    assert all[|ns|] == n;
    if HasNews(ns) {
      var k :| 0 <= k < |ns| && IsNews(ns[k]);
      assert all[k] == ns[k];
    }
  }

  /** The same for the lists on their way, the new notice perhaps being one that is the old truth. */
  lemma RepliesLast(q: RequestId, ns: seq<Notice>, n: Notice, truth: seq<CallInfo>, changed: seq<CallInfo>)
    requires RepliesExplained(q, ns, truth)
    requires (n.Event? && IsHint(n.event)) || Apply(LiveVoice(truth), n) == LiveVoice(changed)
    requires IsList(n) && n.id == q ==> HasNews(ns) || LiveVoice(n.result.response.list) == LiveVoice(truth)
    ensures RepliesExplained(q, ns + [n], changed)
  {
    var all := ns + [n];
    forall p | 0 <= p < |all| && IsList(all[p]) && all[p].id == q
      ensures HasNews(all[..p]) || Explained(LiveVoice(all[p].result.response.list), all[p + 1..], changed)
    {
      SplitLast(ns, n, p);
      if p < |ns| && !HasNews(ns[..p]) {
        ExplainedLast(LiveVoice(ns[p].result.response.list), ns[p + 1..], n, truth, changed);
      }
    }
  }

  lemma SplitLast(ns: seq<Notice>, n: Notice, p: nat)
    requires p <= |ns|
    ensures (ns + [n])[..p] == ns[..p]
    ensures p < |ns| ==> (ns + [n])[p] == ns[p] && (ns + [n])[p + 1..] == ns[p + 1..] + [n]
    ensures p == |ns| ==> (ns + [n])[p] == n && (ns + [n])[p + 1..] == [] && ns[..p] == ns
  {
  }

  /** The update a `+CLCC` carries does to the view exactly what happened to the truth. */
  lemma UpdateMatchesTruth(truth: seq<CallInfo>, info: CallInfo)
    requires Ascending(truth)
    requires forall c :: c in truth && c.index == info.index ==> (c.mode == Voice <==> info.mode == Voice)
    ensures Ascending(Upsert(truth, info))
    ensures Apply(LiveVoice(truth), Event(Urc(Call(info)))) == LiveVoice(Upsert(truth, info))
  {
    UpsertInserts(truth, info);
    LiveVoiceOfInsert(Without(truth, info.index), info);
    LiveVoiceOfWithout(truth, info.index);
    LiveVoiceAscending(truth);
    ApplyUpdate(LiveVoice(truth), info);
    if info.mode != Voice {
      NoVoiceAt(truth, info.index);
    }
  }

  lemma NoVoiceAt(truth: seq<CallInfo>, index: nat)
    requires forall c :: c in truth && c.index == index ==> c.mode != Voice
    ensures Without(LiveVoice(truth), index) == LiveVoice(truth)
  {
    LiveVoiceMembers(truth);
    WithoutAbsent(LiveVoice(truth), index);
  }

  lemma UpsertInserts(truth: seq<CallInfo>, info: CallInfo)
    requires Ascending(truth)
    ensures Ascending(Without(truth, info.index)) && Ascending(Upsert(truth, info))
    ensures Upsert(truth, info) == Insert(Without(truth, info.index), info)
  {
    var rest := Without(truth, info.index);
    WithoutMembers(truth, info.index);
    WithoutAscending(truth, info.index);
    SortAppend(rest, info);
    InsertAscending(rest, info);
  }

  lemma ApplyUpdate(calls: seq<CallInfo>, info: CallInfo)
    requires Ascending(calls)
    ensures Apply(calls, Event(Urc(Call(info)))) ==
            if info.mode != Voice then calls
            else if IsLiveVoice(info) then Insert(Without(calls, info.index), info)
            else Without(calls, info.index)
  {
    WithoutAscending(calls, info.index);
    SortAppend(Without(calls, info.index), info);
  }

  lemma SortAppend(list: seq<CallInfo>, c: CallInfo)
    requires Ascending(list)
    ensures SortByIndex(list + [c]) == Insert(list, c)
  {
    assert (list + [c])[..|list|] == list;
    SortOfAscending(list);
  }

  lemma {:induction false} WithoutAbsent(list: seq<CallInfo>, index: nat)
    requires forall c :: c in list ==> c.index != index
    ensures Without(list, index) == list
  {
    if list != [] {
      var front := list[..|list| - 1];
      assert forall c :: c in front ==> c in list;
      WithoutAbsent(front, index);
      Rejoin(list);
    }
  }

  lemma UpdatedAscending(calls: seq<CallInfo>, info: CallInfo)
    requires Ascending(calls)
    ensures Ascending(Updated(calls, info))
  {
    WithoutAscending(calls, info.index);
    WithoutMembers(calls, info.index);
    SortAppend(Without(calls, info.index), info);
    InsertAscending(Without(calls, info.index), info);
  }

  /** The notices with those from `i` up to `j` replaced by the word that bytes were lost. */
  function Lossy(ns: seq<Notice>, i: nat, j: nat): seq<Notice>
    requires i < j <= |ns|
  {
    ns[..i] + [Event(BytesLost)] + ns[j..]
  }

  /** Losing events leaves a hint where they were, ahead of or behind every list. */
  lemma LossExplained(calls: seq<CallInfo>, ns: seq<Notice>, i: nat, j: nat, q: RequestId, truth: seq<CallInfo>)
    requires i < j <= |ns| && forall k :: i <= k < j ==> ns[k].Event?
    ensures HasNews(Lossy(ns, i, j)) && Explained(calls, Lossy(ns, i, j), truth)
    ensures RepliesExplained(q, Lossy(ns, i, j), truth)
  {
    var lossy := Lossy(ns, i, j);
    assert lossy[i] == Event(BytesLost);
    forall p | 0 <= p < |lossy| && IsList(lossy[p])
      ensures HasNews(lossy[..p]) || HasHint(lossy[p + 1..])
    {
      if p < i {
        assert lossy[p + 1..][i - p - 1] == Event(BytesLost);
      } else {
        assert lossy[..p][i] == Event(BytesLost);
      }
    }
  }

  /** A reply left after the loss is a reply that was there, in its place among the replies. */
  lemma ReplyAfterLoss(ns: seq<Notice>, i: nat, j: nat, k: nat)
    requires i < j <= |ns| && k < |Lossy(ns, i, j)| && Lossy(ns, i, j)[k].Completed?
    ensures k != i && Lossy(ns, i, j)[k] == ns[if k < i then k else k + (j - i - 1)]
  {
  }

  lemma LossKeepsView(w: World, i: nat, j: nat)
    requires ViewInv(w) && Enabled(w, LoseEvents(i, j))
    ensures ViewInv(Next(w, LoseEvents(i, j)))
  {
    var v, s := Next(w, LoseEvents(i, j)), w.sys.cm;
    LossExplained(s.line.calls, w.notices, i, j, if s.query.Some? then s.query.value else 0, w.truth);
    forall p | 0 <= p < |v.notices| && v.notices[p].Completed?
      ensures v.notices[p] in w.notices
    {
      ReplyAfterLoss(w.notices, i, j, p);
    }
  }

  /** `n` is the list asked for, and no news has come since. */
  predicate TakesFresh(s: State, n: Notice) {
    IsList(n) && s.query == Some(n.id) && !s.requery
  }

  /** What handling a notice does to the list and the query. */
  ghost predicate Handled(x: Sys, n: Notice, y: Sys) {
    var s, t := x.cm, y.cm;
    && (n.Event? && IsHint(n.event) ==> t.query.Some?)
    && (t.query.None? && t.synced ==>
          if s.query.Some? then TakesFresh(s, n) && t.line.calls == LiveVoice(n.result.response.list)
          else s.synced && t.line.calls == Apply(s.line.calls, n))
    && (t.query.Some? && !t.requery ==>
          t.query.value >= x.port.nextId
          || (s.query == t.query && !s.requery && !IsNews(n) && (n.Completed? ==> s.query != Some(n.id))))
    && (t.line.calls == Apply(s.line.calls, n) || t.line.calls == []
        || (IsList(n) && t.line.calls == LiveVoice(n.result.response.list)))
    && y.port.nextId >= x.port.nextId
  }

  lemma ListedChangesView(x: Sys, id: RequestId, result: Result, now: Millis)
    requires x.cm.query == Some(id)
    ensures Handled(x, Completed(id, result), OnListed(x, result, now))
  {
    if result.Ok? && result.response.Calls? {
      ReconcileFrame(x.cm.line.(calls := LiveVoice(result.response.list)), true, now);
    }
  }

  lemma DoneChangesView(x: Sys, id: RequestId, result: Result, now: Millis)
    requires x.cm.query != Some(id)
    ensures Handled(x, Completed(id, result), OnDone(x, id, result, now))
  {
    if x.cm.line.dial == Some(Sent(id)) {
      ReconcileFrame(x.cm.line.(dial := None), false, now);
    }
  }

  lemma HandleChangesView(x: Sys, n: Notice, now: Millis)
    ensures Handled(x, n, Handle(x, n, now))
  {
    match n
    case Completed(id, result) =>
      if x.cm.query == Some(id) {
        ListedChangesView(x, id, result, now);
      } else {
        DoneChangesView(x, id, result, now);
      }
    case Event(e) =>
      if e.Urc? && e.urc.Call? {
        ReconcileFrame(x.cm.line.(calls := Updated(x.cm.line.calls, e.urc.info)), false, now);
      } else if e.Restarted? {
        ReconcileFrame(x.cm.line.(calls := [], dial := None), false, now);
      }
  }

  lemma DeliverKeepsAscending(w: World)
    requires AllAscending(w) && w.notices != [] && Handled(w.sys, w.notices[0], Delivered(w).sys)
    ensures AllAscending(Delivered(w))
  {
    var n := w.notices[0];
    if IsList(n) {
      LiveVoiceAscending(n.result.response.list);
    } else if n.Event? && n.event.Urc? && n.event.urc.Call? {
      UpdatedAscending(w.sys.cm.line.calls, n.event.urc.info);
    }
  }

  /** A query not yet marked stale stays accounted for when something else than news is handed over. */
  lemma RepliesFirst(q: RequestId, ns: seq<Notice>, truth: seq<CallInfo>)
    requires ns != [] && !IsNews(ns[0]) && RepliesExplained(q, ns, truth)
    ensures RepliesExplained(q, ns[1..], truth)
    ensures HasNews(ns) ==> HasNews(ns[1..])
  {
    var rest := ns[1..];
    forall p | 0 <= p < |rest| && IsList(rest[p]) && rest[p].id == q
      ensures HasNews(rest[..p]) || Explained(LiveVoice(rest[p].result.response.list), rest[p + 1..], truth)
    {
      assert rest[p] == ns[p + 1] && rest[p + 1..] == ns[p + 2..];
      if HasNews(ns[..p + 1]) {
        NewsFirst(ns[..p + 1]);
        assert ns[..p + 1][1..] == rest[..p];
      }
    }
    if HasNews(ns) {
      NewsFirst(ns);
    }
  }

  lemma NewsFirst(ns: seq<Notice>)
    requires HasNews(ns) && !IsNews(ns[0])
    ensures HasNews(ns[1..])
  {
    var k :| 0 <= k < |ns| && IsNews(ns[k]);
    assert ns[1..][k - 1] == ns[k];
  }

  lemma DeliverKeepsView(w: World)
    requires ViewInv(w) && w.notices != []
    ensures ViewInv(Delivered(w))
  {
    var n, v := w.notices[0], Delivered(w);
    var s, t := w.sys.cm, v.sys.cm;
    HandleChangesView(w.sys, n, w.now);
    DeliverKeepsAscending(w);
    if t.query.Some? && !t.requery && t.query.value < w.sys.port.nextId {
      RepliesFirst(t.query.value, w.notices, w.truth);
    }
    if t.query.None? && t.synced {
      if s.query.Some? {
        assert w.notices[..0] == [];
      } else {
        ExplainedFirst(s.line.calls, w.notices, w.truth);
      }
    }
  }

  lemma UserKeepsView(w: World, st: Step)
    requires ViewInv(w)
    requires st.UserDial? || st.UserAnswer? || st.UserHangUp? || st.UserVolume? || st.UserDismiss? || st.Timer?
             || st.Elapse? || st.OtherSubmit?
    ensures ViewInv(Next(w, st))
  {
  }

  /** A notice joins the line and the truth changes with it. */
  lemma NoticeKeepsView(w: World, v: World, n: Notice)
    requires ViewInv(w) && Ascending(v.truth)
    requires v.sys == w.sys && v.taken == w.taken && v.notices == w.notices + [n]
    requires v.answered == if n.Completed? then w.answered + {n.id} else w.answered
    requires (n.Event? && IsHint(n.event)) || Apply(LiveVoice(w.truth), n) == LiveVoice(v.truth)
    requires n.Completed? ==>
               n.id < w.sys.port.nextId && n.id !in w.answered
               && (IsList(n) ==> n.id in w.taken && n.result.response.list == w.taken[n.id])
    ensures ViewInv(v)
  {
    var s := w.sys.cm;
    NewsLast(w.notices, n);
    if s.query.Some? && !s.requery {
      RepliesLast(s.query.value, w.notices, n, w.truth, v.truth);
    } else if s.query.None? && s.synced {
      ExplainedLast(s.line.calls, w.notices, n, w.truth, v.truth);
    }
  }

  lemma SilenceKeepsView(w: World, truth: seq<CallInfo>)
    requires ViewInv(w) && Enabled(w, SilentChange(truth))
    ensures ViewInv(Next(w, SilentChange(truth)))
  {
  }

  lemma StepKeepsView(w: World, st: Step)
    requires ViewInv(w) && Enabled(w, st)
    ensures ViewInv(Next(w, st))
  {
    match st
    case CallUpdate(info) =>
      UpdateMatchesTruth(w.truth, info);
      NoticeKeepsView(w, Next(w, st), Event(Urc(Call(info))));
    case CallHint(e, truth) => NoticeKeepsView(w, Next(w, st), Event(e));
    case Noise(e) => NoticeKeepsView(w, Next(w, st), Event(e));
    case Reply(id, result) => NoticeKeepsView(w, Next(w, st), Completed(id, result));
    case LoseEvents(i, j) => LossKeepsView(w, i, j);
    case Deliver => DeliverKeepsView(w);
    case TakeList(_) =>
    case SilentChange(_) => SilenceKeepsView(w, st.truth);
    case _ => UserKeepsView(w, st);
  }
}
