/** What the call service sees of the modem: calls, events, requests and the port. */
module Modem {
  import opened Options

  type Millis = nat
  type RequestId = nat
  type Gain = level: nat | level <= MAX_GAIN

  const MAX_GAIN := 7

  datatype Direction = Outgoing | Incoming

  datatype CallState = Active | Held | Dialling | Alerting | Ringing | Waiting | Disconnected

  datatype CallMode = Voice | Data | Fax | OtherMode(code: nat)

  /** One call, as reported by `+CLCC`: the query reply and the URC share the format. */
  datatype CallInfo = CallInfo(index: nat, direction: Direction, state: CallState, mode: CallMode,
                               multiparty: bool, number: Option<string>)

  datatype Unsolicited =
    | Call(info: CallInfo)
    | Ring
    | CallerId
    | ConnectedLine
    | VoiceCallBegin
    | VoiceCallEnd
    | NoCarrier
    | Busy
    | NoAnswer
    | Unrelated

  datatype Event =
    | Urc(urc: Unsolicited)
    | Restarted
    | Configured
    | LinkLost
    | BytesLost
    | UnexpectedPrompt

  datatype RequestError = Failed | Unknown | NotSent | Malformed

  datatype Response = Done | Calls(list: seq<CallInfo>) | OtherResponse

  datatype Result = Ok(response: Response) | Err(error: RequestError)

  datatype Notice = Completed(id: RequestId, result: Result) | Event(event: Event)

  datatype Request =
    | Dial(number: string)
    | Answer
    | HangUp
    | ListCalls
    | SetOutputGain(gain: Gain)
    | OtherRequest

  /** A request handed to the port, with the id the port gave it. */
  datatype Submission = Submission(id: RequestId, request: Request)

  /** The port as a value: the next fresh id and everything the call service submitted. */
  datatype Port = Port(nextId: RequestId, sent: seq<Submission>)

  function Submitted(port: Port, request: Request): Port {
    Port(port.nextId + 1, port.sent + [Submission(port.nextId, request)])
  }

  /** The port as the service holds it. `Value` is its abstract state. */
  class ModemPort {
    var nextId: RequestId
    ghost var sent: seq<Submission>

    ghost function Value(): Port
      reads this
    {
      Port(nextId, sent)
    }

    constructor ()
      ensures Value() == Port(0, [])
    {
      nextId, sent := 0, [];
    }

    method Submit(request: Request) returns (id: RequestId)
      modifies this
      ensures id == old(nextId) && Value() == Submitted(old(Value()), request)
    {
      id := nextId;
      sent := sent + [Submission(id, request)];
      nextId := nextId + 1;
    }
  }

  // ----- Call lists

  predicate IsLiveVoice(c: CallInfo) {
    c.mode == Voice && c.state != Disconnected
  }

  /** The entries a full list contributes to the view. */
  function LiveVoice(list: seq<CallInfo>): seq<CallInfo> {
    if list == [] then []
    else LiveVoice(list[..|list| - 1]) + if IsLiveVoice(list[|list| - 1]) then [list[|list| - 1]] else []
  }

  /** `list` without the entries for call `index`. */
  function Without(list: seq<CallInfo>, index: nat): seq<CallInfo> {
    if list == [] then []
    else Without(list[..|list| - 1], index) + if list[|list| - 1].index != index then [list[|list| - 1]] else []
  }

  /** Insert `c` after every entry whose index is not larger, scanning from the end. */
  function Insert(list: seq<CallInfo>, c: CallInfo): seq<CallInfo> {
    if list == [] || list[|list| - 1].index <= c.index then list + [c]
    else Insert(list[..|list| - 1], c) + [list[|list| - 1]]
  }

  /** Stable sort by call index. */
  function SortByIndex(list: seq<CallInfo>): seq<CallInfo> {
    if list == [] then [] else Insert(SortByIndex(list[..|list| - 1]), list[|list| - 1])
  }

  ghost predicate Ascending(list: seq<CallInfo>) {
    forall i, j :: 0 <= i < j < |list| ==> list[i].index < list[j].index
  }

  function FirstOutgoing(calls: seq<CallInfo>): (r: Option<CallInfo>)
    ensures r.None? ==> forall c :: c in calls ==> c.direction != Outgoing
    ensures r.Some? ==> r.value in calls && r.value.direction == Outgoing
  {
    if calls == [] then None
    else if calls[0].direction == Outgoing then Some(calls[0])
    else FirstOutgoing(calls[1..])
  }

  function FindCall(calls: seq<CallInfo>, index: nat): (r: Option<CallInfo>)
    ensures r.None? ==> forall c :: c in calls ==> c.index != index
    ensures r.Some? ==> r.value in calls && r.value.index == index
  {
    if calls == [] then None
    else if calls[0].index == index then Some(calls[0])
    else FindCall(calls[1..], index)
  }

  lemma {:induction false} LiveVoiceMembers(list: seq<CallInfo>)
    ensures forall c :: c in LiveVoice(list) <==> c in list && IsLiveVoice(c)
  {
    if list != [] {
      LiveVoiceMembers(list[..|list| - 1]);
      assert list == list[..|list| - 1] + [list[|list| - 1]];
    }
  }

  lemma {:induction false} LiveVoiceAscending(list: seq<CallInfo>)
    requires Ascending(list)
    ensures Ascending(LiveVoice(list))
  {
    if list != [] {
      var front := list[..|list| - 1];
      LiveVoiceAscending(front);
      LiveVoiceMembers(front);
      assert forall c :: c in front ==> c.index < list[|list| - 1].index;
      assert forall c :: c in LiveVoice(front) ==> c in front;
    }
  }

  lemma {:induction false} WithoutMembers(list: seq<CallInfo>, index: nat)
    ensures forall c :: c in Without(list, index) <==> c in list && c.index != index
  {
    if list != [] {
      WithoutMembers(list[..|list| - 1], index);
      assert list == list[..|list| - 1] + [list[|list| - 1]];
    }
  }

  lemma {:induction false} WithoutAscending(list: seq<CallInfo>, index: nat)
    requires Ascending(list)
    ensures Ascending(Without(list, index))
  {
    if list != [] {
      var front := list[..|list| - 1];
      WithoutAscending(front, index);
      WithoutMembers(front, index);
    }
  }

  lemma {:induction false} InsertMembers(list: seq<CallInfo>, c: CallInfo)
    ensures forall x :: x in Insert(list, c) <==> x in list || x == c
  {
    if list != [] && list[|list| - 1].index > c.index {
      InsertMembers(list[..|list| - 1], c);
      assert list == list[..|list| - 1] + [list[|list| - 1]];
    }
  }

  lemma {:induction false} InsertAscending(list: seq<CallInfo>, c: CallInfo)
    requires Ascending(list)
    requires forall x :: x in list ==> x.index != c.index
    ensures Ascending(Insert(list, c))
  {
    if list != [] && list[|list| - 1].index > c.index {
      var front, last := list[..|list| - 1], list[|list| - 1];
      assert forall x :: x in front ==> x in list && x.index < last.index;
      InsertAscending(front, c);
      InsertMembers(front, c);
    }
  }

  /** An entry whose index is not below any other goes at the end. */
  lemma InsertLast(list: seq<CallInfo>, c: CallInfo)
    requires forall x :: x in list ==> x.index <= c.index
    ensures Insert(list, c) == list + [c]
  {
    if list != [] {
      assert list[|list| - 1] in list;
    }
  }

  lemma Rejoin(list: seq<CallInfo>)
    requires list != []
    ensures list[..|list| - 1] + [list[|list| - 1]] == list
  {
  }

  lemma AddNothing(list: seq<CallInfo>)
    ensures list + [] == list
  {
  }

  lemma {:induction false} SortOfAscending(list: seq<CallInfo>)
    requires Ascending(list)
    ensures SortByIndex(list) == list
  {
    if list != [] {
      var front, last := list[..|list| - 1], list[|list| - 1];
      SortOfAscending(front);
      assert forall x :: x in front ==> x.index <= last.index;
      InsertLast(front, last);
      Rejoin(list);
    }
  }

  lemma {:induction false} LiveVoiceOfWithout(list: seq<CallInfo>, index: nat)
    ensures LiveVoice(Without(list, index)) == Without(LiveVoice(list), index)
  {
    if list != [] {
      var front, last := list[..|list| - 1], list[|list| - 1];
      LiveVoiceOfWithout(front, index);
      FilterAppend(Without(front, index), last, index);
      FilterAppend(LiveVoice(front), last, index);
    }
  }

  /** How the two filters treat one more entry at the end. */
  lemma FilterAppend(list: seq<CallInfo>, c: CallInfo, index: nat)
    ensures LiveVoice(list + [c]) == LiveVoice(list) + if IsLiveVoice(c) then [c] else []
    ensures Without(list + [c], index) == Without(list, index) + if c.index != index then [c] else []
    ensures LiveVoice(list + []) == LiveVoice(list) && Without(list + [], index) == Without(list, index)
  {
    assert (list + [c])[..|list|] == list;
    assert list + [] == list;
  }

  /** A smaller entry goes before the last. */
  lemma InsertBeforeLast(front: seq<CallInfo>, last: CallInfo, c: CallInfo)
    requires last.index > c.index
    ensures Insert(front + [last], c) == Insert(front, c) + [last]
  {
    assert (front + [last])[..|front|] == front;
  }

  lemma LiveVoiceOfLast(list: seq<CallInfo>, c: CallInfo)
    requires forall x :: x in list ==> x.index <= c.index
    ensures LiveVoice(Insert(list, c)) == if IsLiveVoice(c) then Insert(LiveVoice(list), c) else LiveVoice(list)
  {
    FilterAppend(list, c, 0);
    LiveVoiceMembers(list);
    InsertLast(list, c);
    InsertLast(LiveVoice(list), c);
  }

  /** Filtering commutes with a sorted insertion. */
  lemma {:induction false} LiveVoiceOfInsert(list: seq<CallInfo>, c: CallInfo)
    requires Ascending(list)
    ensures LiveVoice(Insert(list, c)) == if IsLiveVoice(c) then Insert(LiveVoice(list), c) else LiveVoice(list)
  {
    if list == [] || list[|list| - 1].index <= c.index {
      assert forall x :: x in list ==> x.index <= c.index;
      LiveVoiceOfLast(list, c);
    } else {
      var front, last := list[..|list| - 1], list[|list| - 1];
      Rejoin(list);
      LiveVoiceOfInsert(front, c);
      InsertBeforeLast(front, last, c);
      FilterAppend(Insert(front, c), last, 0);
      FilterAppend(front, last, 0);
      if IsLiveVoice(last) {
        InsertBeforeLast(LiveVoice(front), last, c);
      } else {
        AddNothing(LiveVoice(front));
        AddNothing(LiveVoice(Insert(front, c)));
      }
    }
  }
}
