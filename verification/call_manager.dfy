/**
 The call service: a view of the modem's voice call, kept true by querying.

 `State` and `Sys` are the service as values, with one function per operation; the class
 `CallManager` is the service as the program runs it, each method proved to compute its function.
 */
module CallService {
  import opened Options
  import opened Modem

  const POLL_MS: Millis := 2000

  datatype Tracked = Tracked(index: Option<nat>, direction: Direction, number: Option<string>,
                             connectedAt: Option<Millis>)

  datatype PendingDial = Sent(id: RequestId) | Settled

  datatype Action = AnswerCall | EndCalls

  datatype Ended = Ended(direction: Direction, number: Option<string>, connectedMs: Option<int>)

  datatype Refused = NotReady | Busy | NoCall | NotIncoming

  datatype Outcome = Accepted | Rejected(why: Refused)

  datatype Status =
    | Idle
    | ShowDialling(number: string)
    | ShowAlerting(number: string)
    | ShowActive(caller: Option<string>, since: Millis)
    | ShowIncoming(caller: Option<string>)
    | ShowEnded(ended: Ended)

  /** The calls as last known and the one shown. `begun` and `over` are history: calls tracked and ended so far. */
  datatype Line = Line(
    calls: seq<CallInfo>,
    tracked: Option<Tracked>,
    dial: Option<PendingDial>,
    ended: Option<Ended>,
    begun: nat,
    over: nat)

  /** All of the service's fields. */
  datatype State = State(
    line: Line,
    query: Option<RequestId>,
    requery: bool,
    lastQuery: Option<Millis>,
    synced: bool,
    actions: seq<(RequestId, Action)>,
    volume: Gain,
    linkUp: bool)

  /** The service and the port it submits to. */
  datatype Sys = Sys(cm: State, port: Port)

  const INITIAL := State(Line([], None, None, None, 0, 0), None, false, None, false, [], MAX_GAIN, false)

  // ----- Reading

  /** The tracked call's entry in the list. */
  function TrackedCall(s: Line): Option<CallInfo> {
    if s.tracked.Some? && s.tracked.value.index.Some? then FindCall(s.calls, s.tracked.value.index.value) else None
  }

  /** What the user sees; `None` stands for the arm that must be unreachable (a disconnected call listed). */
  function StatusOf(s: Line): Option<Status> {
    if s.tracked.None? then
      Some(if s.ended.Some? then ShowEnded(s.ended.value) else Idle)
    else
      var number := s.tracked.value.number;
      var text := if number.Some? then number.value else "";
      match TrackedCall(s)
      case None => Some(ShowDialling(text))
      case Some(c) =>
        match c.state
        case Dialling => Some(ShowDialling(text))
        case Alerting => Some(ShowAlerting(text))
        case Active | Held =>
          Some(ShowActive(number, if s.tracked.value.connectedAt.Some? then s.tracked.value.connectedAt.value else 0))
        case Ringing | Waiting => Some(ShowIncoming(number))
        case Disconnected => None
  }

  // ----- Queries

  function SubmitQuery(x: Sys, now: Millis): Sys {
    Sys(x.cm.(query := Some(x.port.nextId), lastQuery := Some(now)), Submitted(x.port, ListCalls))
  }

  function WantQuery(x: Sys, now: Millis): Sys {
    if x.cm.query.Some? then x.(cm := x.cm.(requery := true)) else SubmitQuery(x, now)
  }

  // ----- Reconciling the tracked call with the list

  function End(s: Line, now: Millis): Line {
    if s.tracked.None? then s
    else
      var t := s.tracked.value;
      var ms := if t.connectedAt.Some? then Some(now - t.connectedAt.value) else None;
      s.(tracked := None, dial := None, ended := Some(Ended(t.direction, t.number, ms)), over := s.over + 1)
  }

  /** Adopt the call we dialled, or end a tracked call that has left the list. */
  function Follow(s: Line, fromQuery: bool, now: Millis): Line {
    if s.tracked.None? then s
    else
      match s.tracked.value.index
      case None =>
        var c := FirstOutgoing(s.calls);
        if c.Some? then s.(tracked := Some(s.tracked.value.(index := Some(c.value.index))), dial := None)
        else if s.dial.None? || (fromQuery && s.dial == Some(Settled)) then End(s, now)
        else s
      case Some(i) =>
        if FindCall(s.calls, i).None? then End(s, now) else s
  }

  /** With nothing tracked, track the first call listed. */
  function PickUp(s: Line): Line {
    if s.tracked.None? && s.calls != [] then
      var c := s.calls[0];
      s.(ended := None, tracked := Some(Tracked(Some(c.index), c.direction, c.number, None)), begun := s.begun + 1)
    else s
  }

  /** Copy the tracked call's number and note when it connected. */
  function Refresh(s: Line, now: Millis): Line {
    var c := TrackedCall(s);
    if c.None? then s
    else
      var t := s.tracked.value;
      var t1 := if c.value.number.Some? then t.(number := c.value.number) else t;
      var t2 := if t1.connectedAt.None? && c.value.state in {Active, Held} then t1.(connectedAt := Some(now)) else t1;
      s.(tracked := Some(t2))
  }

  function Reconcile(s: Line, fromQuery: bool, now: Millis): Line {
    Refresh(PickUp(Follow(s, fromQuery, now)), now)
  }

  // ----- User actions

  function DialNumber(x: Sys, number: string, now: Millis): (Sys, Outcome) {
    var s := x.cm.line;
    if s.tracked.Some? || s.calls != [] then (x, Rejected(Refused.Busy))
    else if !x.cm.linkUp then (x, Rejected(NotReady))
    else
      var dialling := s.(dial := Some(Sent(x.port.nextId)), ended := None, begun := s.begun + 1,
                         tracked := Some(Tracked(None, Outgoing, Some(number), None)));
      (Sys(x.cm.(line := dialling, lastQuery := Some(now)), Submitted(x.port, Dial(number))), Accepted)
  }

  function RequestOf(a: Action): Request {
    match a
    case AnswerCall => Answer
    case EndCalls => HangUp
  }

  predicate InFlight(actions: seq<(RequestId, Action)>, a: Action) {
    exists i :: 0 <= i < |actions| && actions[i].1 == a
  }

  function Act(x: Sys, a: Action): Sys {
    if InFlight(x.cm.actions, a) then x
    else Sys(x.cm.(actions := x.cm.actions + [(x.port.nextId, a)]), Submitted(x.port, RequestOf(a)))
  }

  function AnswerRinging(x: Sys): (Sys, Outcome) {
    var status := StatusOf(x.cm.line);
    if status.Some? && status.value.ShowIncoming? then
      if !x.cm.linkUp then (x, Rejected(NotReady)) else (Act(x, AnswerCall), Accepted)
    else (x, Rejected(if x.cm.line.tracked.Some? then NotIncoming else NoCall))
  }

  function HangUpAll(x: Sys): (Sys, Outcome) {
    if x.cm.line.tracked.None? then (x, Rejected(NoCall))
    else if !x.cm.linkUp then (x, Rejected(NotReady))
    else (Act(x, EndCalls), Accepted)
  }

  function SetVolume(x: Sys, gain: Gain): Sys {
    Sys(x.cm.(volume := gain), if x.cm.linkUp then Submitted(x.port, SetOutputGain(gain)) else x.port)
  }

  function Dismiss(x: Sys): Sys {
    x.(cm := x.cm.(line := x.cm.line.(ended := None)))
  }

  function Tick(x: Sys, now: Millis): Sys {
    var due := x.cm.lastQuery.None? || now >= x.cm.lastQuery.value + POLL_MS;
    if x.cm.query.None? && due && (x.cm.line.tracked.Some? || !x.cm.synced) then SubmitQuery(x, now) else x
  }

  // ----- Notices

  function Position(actions: seq<(RequestId, Action)>, id: RequestId): (i: nat)
    ensures i <= |actions|
    ensures i < |actions| ==> actions[i].0 == id
    ensures forall k :: 0 <= k < i ==> actions[k].0 != id
  {
    if actions == [] || actions[0].0 == id then 0 else 1 + Position(actions[1..], id)
  }

  /** Whether a reply to the dial request leaves open that the call was started. */
  predicate MayHaveStarted(result: Result) {
    result.Ok? || result.error.Unknown? || result.error.Malformed?
  }

  /** The reply to the list query. */
  function OnListed(x: Sys, result: Result, now: Millis): Sys {
    var s := x.cm.(query := None, requery := false);
    if x.cm.requery then SubmitQuery(x.(cm := s), now)
    else if result.Ok? && result.response.Calls? then
      var listed := s.line.(calls := LiveVoice(result.response.list));
      x.(cm := s.(synced := true, line := Reconcile(listed, true, now)))
    else x.(cm := s.(synced := false))
  }

  /** The reply to the pending dial. */
  function OnDialled(x: Sys, result: Result, now: Millis): Sys {
    var s := x.cm;
    if MayHaveStarted(result) then WantQuery(x.(cm := s.(line := s.line.(dial := Some(Settled)))), now)
    else x.(cm := s.(line := Reconcile(s.line.(dial := None), false, now)))
  }

  /** The reply to the action at position `i`. */
  function OnActed(x: Sys, i: nat, result: Result, now: Millis): Sys
    requires i < |x.cm.actions|
  {
    var s := x.cm;
    var y := x.(cm := s.(actions := s.actions[..i] + s.actions[i + 1..]));
    if s.actions[i].1.EndCalls? || result.Err? then WantQuery(y, now) else y
  }

  function OnDone(x: Sys, id: RequestId, result: Result, now: Millis): Sys {
    if x.cm.query == Some(id) then OnListed(x, result, now)
    else if x.cm.line.dial == Some(Sent(id)) then OnDialled(x, result, now)
    else
      var i := Position(x.cm.actions, id);
      if i < |x.cm.actions| then OnActed(x, i, result, now) else x
  }

  /** The list after one `+CLCC` URC. */
  function Updated(calls: seq<CallInfo>, info: CallInfo): seq<CallInfo> {
    var rest := Without(calls, info.index);
    if IsLiveVoice(info) then SortByIndex(rest + [info]) else rest
  }

  /** A `+CLCC` URC: the list is updated at once, and a list under way may be older than it. */
  function OnCallUpdate(x: Sys, info: CallInfo, now: Millis): Sys {
    if info.mode != Voice then x
    else
      var s := x.cm;
      var line := Reconcile(s.line.(calls := Updated(s.line.calls, info)), false, now);
      x.(cm := s.(requery := s.requery || s.query.Some?, line := line))
  }

  /** Calls die with the modem. */
  function OnRestarted(x: Sys, now: Millis): Sys {
    var line := Reconcile(x.cm.line.(calls := [], dial := None), false, now);
    WantQuery(x.(cm := x.cm.(linkUp := false, line := line)), now)
  }

  function OnEvent(x: Sys, e: Event, now: Millis): Sys {
    var s := x.cm;
    match e
    case Urc(Call(info)) => OnCallUpdate(x, info, now)
    case Urc(Unrelated) => x
    case UnexpectedPrompt => x
    case Urc(_) => WantQuery(x, now)
    case BytesLost => WantQuery(x, now)
    case LinkLost => WantQuery(x.(cm := s.(linkUp := false)), now)
    case Restarted => OnRestarted(x, now)
    case Configured =>
      var port := if s.volume != MAX_GAIN then Submitted(x.port, SetOutputGain(s.volume)) else x.port;
      WantQuery(Sys(s.(linkUp := true), port), now)
  }

  function Handle(x: Sys, n: Notice, now: Millis): Sys {
    match n
    case Completed(id, result) => OnDone(x, id, result, now)
    case Event(e) => OnEvent(x, e, now)
  }

  // ----- The service as it runs

  class CallManager {
    var calls: seq<CallInfo>
    var tracked: Option<Tracked>
    var dial: Option<PendingDial>
    var ended: Option<Ended>
    var query: Option<RequestId>
    var requery: bool
    var lastQuery: Option<Millis>
    var synced: bool
    var actions: seq<(RequestId, Action)>
    var volume: Gain
    var linkUp: bool
    ghost var begun: nat
    ghost var over: nat

    ghost function Value(): State
      reads this
    {
      State(TheLine(), query, requery, lastQuery, synced, actions, volume, linkUp)
    }

    ghost function TheLine(): Line
      reads this
    {
      Line(calls, tracked, dial, ended, begun, over)
    }

    ghost function With(port: ModemPort): Sys
      reads this, port
    {
      Sys(Value(), port.Value())
    }

    constructor ()
      ensures Value() == INITIAL
    {
      calls, tracked, dial, ended := [], None, None, None;
      query, requery, lastQuery, synced := None, false, None, false;
      actions, volume, linkUp := [], MAX_GAIN, false;
      begun, over := 0, 0;
    }

    method GetStatus() returns (r: Option<Status>)
      ensures r == StatusOf(TheLine())
    {
      if tracked.None? {
        if ended.None? {
          return Some(Idle);
        }
        return Some(ShowEnded(ended.value));
      }
      var t := tracked.value;
      var state: Option<CallState> := None;
      if t.index.Some? {
        var c := FindCall(calls, t.index.value);
        if c.Some? {
          state := Some(c.value.state);
        }
      }
      var text := if t.number.Some? then t.number.value else "";
      if state.None? || state.value.Dialling? {
        r := Some(ShowDialling(text));
      } else if state.value.Alerting? {
        r := Some(ShowAlerting(text));
      } else if state.value.Active? || state.value.Held? {
        r := Some(ShowActive(t.number, if t.connectedAt.Some? then t.connectedAt.value else 0));
      } else if state.value.Disconnected? {
        r := None;
      } else {
        r := Some(ShowIncoming(t.number));
      }
    }

    method DismissEnded(port: ModemPort)
      modifies this`ended
      ensures With(port) == Dismiss(old(With(port)))
    {
      ended := None;
    }

    method StartDial(port: ModemPort, number: string, now: Millis) returns (r: Outcome)
      modifies this, port
      ensures (With(port), r) == DialNumber(old(With(port)), number, now)
    {
      if tracked.Some? || calls != [] {
        return Rejected(Refused.Busy);
      }
      if !linkUp {
        return Rejected(NotReady);
      }
      var id := port.Submit(Dial(number));
      dial := Some(Sent(id));
      ended := None;
      tracked := Some(Tracked(None, Outgoing, Some(number), None));
      lastQuery := Some(now);
      begun := begun + 1;
      r := Accepted;
    }

    method StartAnswer(port: ModemPort) returns (r: Outcome)
      modifies this, port
      ensures (With(port), r) == AnswerRinging(old(With(port)))
    {
      var status := GetStatus();
      if status.Some? && status.value.ShowIncoming? {
        if !linkUp {
          return Rejected(NotReady);
        }
        Perform(port, AnswerCall);
        r := Accepted;
      } else if tracked.Some? {
        r := Rejected(NotIncoming);
      } else {
        r := Rejected(NoCall);
      }
    }

    method StartHangUp(port: ModemPort) returns (r: Outcome)
      modifies this, port
      ensures (With(port), r) == HangUpAll(old(With(port)))
    {
      if tracked.None? {
        return Rejected(NoCall);
      }
      if !linkUp {
        return Rejected(NotReady);
      }
      Perform(port, EndCalls);
      r := Accepted;
    }

    method Perform(port: ModemPort, a: Action)
      modifies this`actions, port
      ensures With(port) == Act(old(With(port)), a)
    {
      for i := 0 to |actions|
        invariant forall k :: 0 <= k < i ==> actions[k].1 != a
      {
        if actions[i].1 == a {
          return;
        }
      }
      var id := port.Submit(RequestOf(a));
      actions := actions + [(id, a)];
    }

    method ChangeVolume(port: ModemPort, gain: Gain)
      modifies this`volume, port
      ensures With(port) == SetVolume(old(With(port)), gain)
    {
      volume := gain;
      if linkUp {
        var _ := port.Submit(SetOutputGain(gain));
      }
    }

    method OnTick(port: ModemPort, now: Millis)
      modifies this, port
      ensures With(port) == Tick(old(With(port)), now)
    {
      var due := lastQuery.None? || now >= lastQuery.value + POLL_MS;
      if query.None? && due && (tracked.Some? || !synced) {
        StartQuery(port, now);
      }
    }

    method HandleNotice(port: ModemPort, n: Notice, now: Millis)
      modifies this, port
      ensures With(port) == Handle(old(With(port)), n, now)
    {
      match n {
        case Completed(id, result) => HandleDone(port, id, result, now);
        case Event(e) => HandleEvent(port, e, now);
      }
    }

    method HandleDone(port: ModemPort, id: RequestId, result: Result, now: Millis)
      modifies this, port
      ensures With(port) == OnDone(old(With(port)), id, result, now)
    {
      if query == Some(id) {
        HandleListed(port, result, now);
      } else if dial == Some(Sent(id)) {
        HandleDialled(port, result, now);
      } else {
        var i := Position(actions, id);
        if i < |actions| {
          HandleActed(port, i, result, now);
        }
      }
    }

    method HandleListed(port: ModemPort, result: Result, now: Millis)
      modifies this, port
      ensures With(port) == OnListed(old(With(port)), result, now)
    {
      var again := requery;
      query, requery := None, false;
      if again {
        StartQuery(port, now);
      } else if result.Ok? && result.response.Calls? {
        synced := true;
        AdoptList(result.response.list, now);
      } else {
        synced := false;
      }
    }

    method AdoptList(list: seq<CallInfo>, now: Millis)
      modifies this`calls, this`tracked, this`dial, this`ended, this`begun, this`over
      ensures TheLine() == Reconcile(old(TheLine()).(calls := LiveVoice(list)), true, now)
    {
      calls := LiveVoice(list);
      ReconcileTracked(true, now);
    }

    method HandleDialled(port: ModemPort, result: Result, now: Millis)
      modifies this, port
      ensures With(port) == OnDialled(old(With(port)), result, now)
    {
      if MayHaveStarted(result) {
        dial := Some(Settled);
        RequestQuery(port, now);
      } else {
        dial := None;
        ReconcileTracked(false, now);
      }
    }

    method HandleActed(port: ModemPort, i: nat, result: Result, now: Millis)
      requires i < |actions|
      modifies this, port
      ensures With(port) == OnActed(old(With(port)), i, result, now)
    {
      var action := actions[i].1;
      actions := actions[..i] + actions[i + 1..];
      if action.EndCalls? || result.Err? {
        RequestQuery(port, now);
      }
    }

    method HandleEvent(port: ModemPort, e: Event, now: Millis)
      modifies this, port
      ensures With(port) == OnEvent(old(With(port)), e, now)
    {
      match e {
        case Urc(Call(info)) => HandleCallUpdate(port, info, now);
        case Urc(Unrelated) =>
        case UnexpectedPrompt =>
        case Urc(_) => RequestQuery(port, now);
        case BytesLost => RequestQuery(port, now);
        case LinkLost =>
          linkUp := false;
          RequestQuery(port, now);
        case Restarted => HandleRestarted(port, now);
        case Configured =>
          linkUp := true;
          if volume != MAX_GAIN {
            var _ := port.Submit(SetOutputGain(volume));
          }
          RequestQuery(port, now);
      }
    }

    method HandleRestarted(port: ModemPort, now: Millis)
      modifies this, port
      ensures With(port) == OnRestarted(old(With(port)), now)
    {
      linkUp := false;
      DropCalls(now);
      RequestQuery(port, now);
    }

    method DropCalls(now: Millis)
      modifies this`calls, this`tracked, this`dial, this`ended, this`begun, this`over
      ensures TheLine() == Reconcile(old(TheLine()).(calls := [], dial := None), false, now)
    {
      calls, dial := [], None;
      ReconcileTracked(false, now);
    }

    method HandleCallUpdate(port: ModemPort, info: CallInfo, now: Millis)
      modifies this
      ensures With(port) == OnCallUpdate(old(With(port)), info, now)
    {
      if info.mode == Voice {
        requery := requery || query.Some?;
        AdoptUpdate(info, now);
      }
    }

    method AdoptUpdate(info: CallInfo, now: Millis)
      modifies this`calls, this`tracked, this`dial, this`ended, this`begun, this`over
      ensures TheLine() == Reconcile(old(TheLine()).(calls := Updated(old(calls), info)), false, now)
    {
      UpdateList(info);
      ReconcileTracked(false, now);
    }

    method UpdateList(info: CallInfo)
      modifies this`calls
      ensures calls == Updated(old(calls), info)
    {
      calls := Without(calls, info.index);
      if IsLiveVoice(info) {
        calls := calls + [info];
        calls := SortByIndex(calls);
      }
    }

    method RequestQuery(port: ModemPort, now: Millis)
      modifies this`query, this`requery, this`lastQuery, port
      ensures With(port) == WantQuery(old(With(port)), now)
    {
      if query.Some? {
        requery := true;
      } else {
        StartQuery(port, now);
      }
    }

    method StartQuery(port: ModemPort, now: Millis)
      modifies this`query, this`lastQuery, port
      ensures With(port) == SubmitQuery(old(With(port)), now)
    {
      var id := port.Submit(ListCalls);
      query := Some(id);
      lastQuery := Some(now);
    }

    method ReconcileTracked(fromQuery: bool, now: Millis)
      modifies this`tracked, this`dial, this`ended, this`begun, this`over
      ensures TheLine() == Reconcile(old(TheLine()), fromQuery, now)
    {
      FollowTracked(fromQuery, now);
      if tracked.None? && calls != [] {
        var c := calls[0];
        ended := None;
        tracked := Some(Tracked(Some(c.index), c.direction, c.number, None));
        begun := begun + 1;
      }
      assert TheLine() == PickUp(Follow(old(TheLine()), fromQuery, now));
      RefreshTracked(now);
    }

    method FollowTracked(fromQuery: bool, now: Millis)
      modifies this`tracked, this`dial, this`ended, this`begun, this`over
      ensures TheLine() == Follow(old(TheLine()), fromQuery, now)
    {
      if tracked.Some? {
        match tracked.value.index {
          case None =>
            var c := FirstOutgoing(calls);
            if c.Some? {
              tracked := Some(tracked.value.(index := Some(c.value.index)));
              dial := None;
            } else if dial.None? || (fromQuery && dial == Some(Settled)) {
              EndTracked(now);
            }
          case Some(i) =>
            var c := FindCall(calls, i);
            if c.None? {
              EndTracked(now);
            }
        }
      }
    }

    method RefreshTracked(now: Millis)
      modifies this`tracked
      ensures TheLine() == Refresh(old(TheLine()), now)
    {
      if tracked.Some? && tracked.value.index.Some? {
        var c := FindCall(calls, tracked.value.index.value);
        if c.Some? {
          if c.value.number.Some? {
            tracked := Some(tracked.value.(number := c.value.number));
          }
          if tracked.value.connectedAt.None? && c.value.state in {Active, Held} {
            tracked := Some(tracked.value.(connectedAt := Some(now)));
          }
        }
      }
    }

    method EndTracked(now: Millis)
      modifies this`tracked, this`dial, this`ended, this`begun, this`over
      ensures TheLine() == End(old(TheLine()), now)
    {
      if tracked.Some? {
        var t := tracked.value;
        tracked := None;
        dial := None;
        ended := Some(Ended(t.direction, t.number,
                            if t.connectedAt.Some? then Some(now - t.connectedAt.value) else None));
        over := over + 1;
      }
    }
  }
}
