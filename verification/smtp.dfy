/**
 The SMTP submission session over a stream that may fail at any point, against a server that may
 answer anything.

 `Session` is the protocol as a table of exchanges, each a few writes and the reply code that must
 follow. `Send` is the program, step by step, proved to do exactly what the table says.
 */
module Smtp {
  import opened Options
  import B = Base64
  import E = Emails

  // ----- The stream

  /** A completed operation on the stream. */
  datatype Entry = Wrote(data: string) | Heard(line: string)

  /**
   What the server will still say (`None` is a failed read, as is having nothing left), which of the
   coming writes will succeed, and what has happened so far.
   */
  datatype Link = Link(replies: seq<Option<string>>, accepts: seq<bool>, log: seq<Entry>)

  function LineRead(w: Link): (Link, Option<string>) {
    if w.replies == [] then (w, None)
    else if w.replies[0].None? then (w.(replies := w.replies[1..]), None)
    else (w.(replies := w.replies[1..], log := w.log + [Heard(w.replies[0].value)]), w.replies[0])
  }

  function Written(w: Link, data: string): (Link, bool) {
    if w.accepts == [] then (w, false)
    else if !w.accepts[0] then (w.(accepts := w.accepts[1..]), false)
    else (w.(accepts := w.accepts[1..], log := w.log + [Wrote(data)]), true)
  }

  class SmtpStream {
    var replies: seq<Option<string>>
    var accepts: seq<bool>
    ghost var log: seq<Entry>

    ghost function Value(): Link
      reads this
    {
      Link(replies, accepts, log)
    }

    constructor (replies: seq<Option<string>>, accepts: seq<bool>)
      ensures Value() == Link(replies, accepts, [])
    {
      this.replies, this.accepts, log := replies, accepts, [];
    }

    method ReadLine() returns (line: Option<string>)
      modifies this
      ensures (Value(), line) == LineRead(old(Value()))
    {
      if replies == [] {
        return None;
      }
      line := replies[0];
      replies := replies[1..];
      if line.Some? {
        log := log + [Heard(line.value)];
      }
    }

    method WriteAll(data: string) returns (ok: bool)
      modifies this
      ensures (Value(), ok) == Written(old(Value()), data)
    {
      if accepts == [] {
        return false;
      }
      ok := accepts[0];
      accepts := accepts[1..];
      if ok {
        log := log + [Wrote(data)];
      }
    }
  }

  // ----- Replies

  predicate IsDigit(c: char) {
    '0' <= c <= '9'
  }

  function DigitValue(c: char): nat
    requires IsDigit(c)
  {
    (c - '0') as nat
  }

  /** The first three characters as an unsigned number; a leading plus sign is allowed. */
  function CodeOf(line: string): Option<nat> {
    if |line| < 3 || !IsDigit(line[1]) || !IsDigit(line[2]) then None
    else if IsDigit(line[0]) then Some(DigitValue(line[0]) * 100 + DigitValue(line[1]) * 10 + DigitValue(line[2]))
    else if line[0] == '+' then Some(DigitValue(line[1]) * 10 + DigitValue(line[2]))
    else None
  }

  /** A hyphen after the code: the reply goes on. */
  predicate GoesOn(line: string) {
    |line| >= 4 && line[3] == '-'
  }

  function Digit(d: nat): char
    requires d < 10
  {
    '0' + d as char
  }

  /** A one-line reply: the three digits of its code. */
  function Answer(code: nat): string
    requires code < 1000
  {
    [Digit(code / 100), Digit(code / 10 % 10), Digit(code % 10)]
  }

  lemma AnswerHasCode(code: nat)
    requires code < 1000
    ensures CodeOf(Answer(code)) == Some(code) && !GoesOn(Answer(code))
  {
    assert code == code / 100 * 100 + code / 10 % 10 * 10 + code % 10;
  }

  lemma DigitsOf(a: nat, b: nat, c: nat)
    requires a < 10 && b < 10 && c < 10
    ensures var n := a * 100 + b * 10 + c;
            n < 1000 && n / 100 == a && n / 10 % 10 == b && n % 10 == c
  {
  }

  lemma DigitsRead(line: string, code: nat)
    requires |line| >= 3 && code < 1000 && line[..3] == Answer(code)
    ensures CodeOf(line) == Some(code)
  {
    assert line[0] == line[..3][0] && line[1] == line[..3][1] && line[2] == line[..3][2];
    AnswerHasCode(code);
  }

  lemma PlusRead(line: string, code: nat)
    requires |line| >= 3 && code < 100 && line[..3] == "+" + Answer(code)[1..]
    ensures CodeOf(line) == Some(code)
  {
    assert line[0] == line[..3][0] && line[1] == line[..3][1] && line[2] == line[..3][2];
    assert code == code / 10 % 10 * 10 + code % 10;
  }

  lemma CodeRead(line: string, code: nat)
    requires CodeOf(line) == Some(code)
    ensures |line| >= 3 && code < 1000
    ensures line[..3] == Answer(code) || (code < 100 && line[..3] == "+" + Answer(code)[1..])
  {
    DigitsOf(if IsDigit(line[0]) then DigitValue(line[0]) else 0, DigitValue(line[1]), DigitValue(line[2]));
    assert line[..3] == [line[0], line[1], line[2]];
  }

  /** A line has a code exactly when it begins with its three digits, or with a plus sign and two. */
  lemma CodeIsNumber(line: string, code: nat)
    ensures CodeOf(line) == Some(code) <==>
              && |line| >= 3 && code < 1000
              && (line[..3] == Answer(code) || (code < 100 && line[..3] == "+" + Answer(code)[1..]))
  {
    if CodeOf(line) == Some(code) {
      CodeRead(line, code);
    }
    if |line| >= 3 && code < 1000 && line[..3] == Answer(code) {
      DigitsRead(line, code);
    }
    if |line| >= 3 && code < 100 && line[..3] == "+" + Answer(code)[1..] {
      PlusRead(line, code);
    }
  }

  /** One reply, which may span several lines: the code of its last line, if all its lines are well formed. */
  function ReplyRead(w: Link): (Link, Option<nat>)
    decreases |w.replies|
  {
    var (next, line) := LineRead(w);
    if line.None? || CodeOf(line.value).None? then (next, None)
    else if GoesOn(line.value) then ReplyRead(next)
    else (next, CodeOf(line.value))
  }

  /** A reply as a server writes it: each line but the last has a hyphen after the code. */
  function ReplyLines(code: nat, texts: seq<string>, last: string): seq<Option<string>>
    requires code < 1000
  {
    if texts == [] then [Some(Answer(code) + last)]
    else [Some(Answer(code) + "-" + texts[0])] + ReplyLines(code, texts[1..], last)
  }

  /** Such a reply is read to its end and no further, and gives its code. */
  lemma {:induction false} ReplyIsRead(w: Link, code: nat, texts: seq<string>, last: string, rest: seq<Option<string>>)
    requires code < 1000 && (last == "" || last[0] != '-')
    requires w.replies == ReplyLines(code, texts, last) + rest
    ensures ReplyRead(w).1 == Some(code) && ReplyRead(w).0.replies == rest && ReplyRead(w).0.accepts == w.accepts
    decreases |texts|
  {
    var line := w.replies[0].value;
    assert line[..3] == Answer(code);
    CodeIsNumber(line, code);
    if texts == [] {
      assert w.replies[1..] == rest;
    } else {
      assert w.replies[1..] == ReplyLines(code, texts[1..], last) + rest;
      ReplyIsRead(LineRead(w).0, code, texts[1..], last, rest);
    }
  }

  method ReadReply(stream: SmtpStream) returns (code: Option<nat>)
    modifies stream
    ensures (stream.Value(), code) == ReplyRead(old(stream.Value()))
  {
    while true
      invariant ReplyRead(stream.Value()) == ReplyRead(old(stream.Value()))
      decreases |stream.replies|
    {
      var line := stream.ReadLine();
      if line.None? || |line.value| < 3 {
        return None;
      }
      code := CodeOf(line.value);
      if code.None? || !GoesOn(line.value) {
        return;
      }
    }
  }

  // ----- The protocol as a table

  /** Some writes, and the reply code that must follow them. */
  datatype Exchange = Exchange(out: seq<string>, code: nat)

  function AllWritten(w: Link, out: seq<string>): (Link, bool)
    decreases |out|
  {
    if out == [] then (w, true)
    else
      var (next, ok) := Written(w, out[0]);
      if ok then AllWritten(next, out[1..]) else (next, false)
  }

  function Exchanged(w: Link, e: Exchange): (Link, bool) {
    var (sent, ok) := AllWritten(w, e.out);
    if !ok then (sent, false)
    else
      var (heard, code) := ReplyRead(sent);
      (heard, code == Some(e.code))
  }

  function AllExchanged(w: Link, es: seq<Exchange>): (Link, bool)
    decreases |es|
  {
    if es == [] then (w, true)
    else
      var (next, ok) := Exchanged(w, es[0]);
      if ok then AllExchanged(next, es[1..]) else (next, false)
  }

  /** The exchanges, then QUIT, whose reply does not matter. */
  function Session(w: Link, es: seq<Exchange>, quit: seq<string>): (Link, bool) {
    var (done, ok) := AllExchanged(w, es);
    if !ok then (done, false)
    else
      var (left, said) := AllWritten(done, quit);
      if said then (ReplyRead(left).0, true) else (left, false)
  }

  function Command(line: string, code: nat): Exchange {
    Exchange([line, E.CRLF], code)
  }

  function Plan(hostname: string, username: seq<B.Byte>, password: seq<B.Byte>, email: E.Email): seq<Exchange> {
    [Exchange([], 220),
     Command("EHLO " + hostname, 250),
     Command("AUTH LOGIN", 334),
     Command(B.Encoded(username), 334),
     Command(B.Encoded(password), 235),
     Command("MAIL FROM:<" + email.from + ">", 250),
     Command("RCPT TO:<" + email.to + ">", 250),
     Command("DATA", 354),
     Exchange([E.Wire(E.Lines(email)), ".\r\n"], 250)]
  }

  const QUIT: seq<string> := ["QUIT", E.CRLF]

  // ----- The program

  method WriteLine(stream: SmtpStream, line: string) returns (ok: bool)
    modifies stream
    ensures (stream.Value(), ok) == AllWritten(old(stream.Value()), [line, E.CRLF])
  {
    ok := WriteTwo(stream, line, E.CRLF);
  }

  method WriteTwo(stream: SmtpStream, first: string, second: string) returns (ok: bool)
    modifies stream
    ensures (stream.Value(), ok) == AllWritten(old(stream.Value()), [first, second])
  {
    TwoWrites(stream.Value(), first, second);
    ok := stream.WriteAll(first);
    if ok {
      ok := stream.WriteAll(second);
    }
  }

  lemma TwoWrites(w: Link, first: string, second: string)
    ensures AllWritten(w, [first, second]) ==
            var (next, ok) := Written(w, first);
            if ok then Written(next, second) else (next, false)
  {
    var (next, ok) := Written(w, first);
    assert [first, second][1..] == [second];
    assert AllWritten(next, [second]) == Written(next, second) by {
      assert [second][1..] == [];
      assert AllWritten(Written(next, second).0, []) == (Written(next, second).0, true);
    }
  }

  /** A command line and the reply it must get. */
  method Say(stream: SmtpStream, line: string, code: nat) returns (ok: bool)
    modifies stream
    ensures (stream.Value(), ok) == Exchanged(old(stream.Value()), Command(line, code))
  {
    ok := WriteLine(stream, line);
    if ok {
      var reply := ReadReply(stream);
      ok := reply == Some(code);
    }
  }

  method SendData(stream: SmtpStream, email: E.Email) returns (ok: bool)
    modifies stream
    ensures (stream.Value(), ok) == Exchanged(old(stream.Value()), Exchange([E.Wire(E.Lines(email)), ".\r\n"], 250))
  {
    var body := E.ToRfc5322(email);
    ok := WriteTwo(stream, body, ".\r\n");
    if ok {
      var reply := ReadReply(stream);
      ok := reply == Some(250);
    }
  }

  /** The greeting, EHLO and the login: the plan's first five exchanges. */
  method LogIn(stream: SmtpStream, hostname: string, username: seq<B.Byte>, password: seq<B.Byte>, ghost email: E.Email)
    returns (ok: bool)
    modifies stream
    ensures var plan := Plan(hostname, username, password, email);
            AllExchanged(old(stream.Value()), plan) ==
            if ok then AllExchanged(stream.Value(), plan[5..]) else (stream.Value(), false)
  {
    ghost var plan := Plan(hostname, username, password, email);
    assert plan[0..] == plan;
    ExchangesNext(stream.Value(), plan, 0);
    var greeting := ReadReply(stream);
    if greeting != Some(220) {
      return false;
    }
    ExchangesNext(stream.Value(), plan, 1);
    ok := Say(stream, "EHLO " + hostname, 250);
    if !ok {
      return;
    }
    ExchangesNext(stream.Value(), plan, 2);
    ok := Say(stream, "AUTH LOGIN", 334);
    if !ok {
      return;
    }
    ExchangesNext(stream.Value(), plan, 3);
    var user := B.Encode(username);
    ok := Say(stream, user, 334);
    if !ok {
      return;
    }
    ExchangesNext(stream.Value(), plan, 4);
    var secret := B.Encode(password);
    ok := Say(stream, secret, 235);
  }

  /** The envelope and the message: the plan's other exchanges. */
  method Deliver(stream: SmtpStream, email: E.Email, ghost plan: seq<Exchange>) returns (ok: bool)
    requires |plan| == 9
    requires plan[5] == Command("MAIL FROM:<" + email.from + ">", 250)
    requires plan[6] == Command("RCPT TO:<" + email.to + ">", 250)
    requires plan[7] == Command("DATA", 354)
    requires plan[8] == Exchange([E.Wire(E.Lines(email)), ".\r\n"], 250)
    modifies stream
    ensures (stream.Value(), ok) == AllExchanged(old(stream.Value()), plan[5..])
  {
    ExchangesNext(stream.Value(), plan, 5);
    ok := Say(stream, "MAIL FROM:<" + email.from + ">", 250);
    if !ok {
      return;
    }
    ExchangesNext(stream.Value(), plan, 6);
    ok := Say(stream, "RCPT TO:<" + email.to + ">", 250);
    if !ok {
      return;
    }
    ExchangesNext(stream.Value(), plan, 7);
    ok := Say(stream, "DATA", 354);
    if !ok {
      return;
    }
    ExchangesNext(stream.Value(), plan, 8);
    ok := SendData(stream, email);
    assert plan[9..] == [];
  }

  /** Send an email; true stands for `Ok`. */
  method Send(stream: SmtpStream, hostname: string, username: seq<B.Byte>, password: seq<B.Byte>, email: E.Email)
    returns (ok: bool)
    modifies stream
    ensures (stream.Value(), ok) == Session(old(stream.Value()), Plan(hostname, username, password, email), QUIT)
  {
    ok := LogIn(stream, hostname, username, password, email);
    if !ok {
      return;
    }
    ok := Deliver(stream, email, Plan(hostname, username, password, email));
    if !ok {
      return;
    }
    ok := WriteLine(stream, "QUIT");
    if !ok {
      return;
    }
    var _ := ReadReply(stream);
  }

  lemma ExchangesNext(w: Link, es: seq<Exchange>, i: nat)
    requires i < |es|
    ensures AllExchanged(w, es[i..]) ==
            var (next, ok) := Exchanged(w, es[i]);
            if ok then AllExchanged(next, es[i + 1..]) else (next, false)
  {
    assert es[i..][0] == es[i] && es[i..][1..] == es[i + 1..];
  }

  // ----- What a session leaves on the wire

  function WritesOf(log: seq<Entry>): seq<string> {
    if log == [] then []
    else WritesOf(log[..|log| - 1]) + if log[|log| - 1].Wrote? then [log[|log| - 1].data] else []
  }

  /** The codes of the replies that were read to their end. */
  function RepliesOf(log: seq<Entry>): seq<nat> {
    if log == [] then []
    else RepliesOf(log[..|log| - 1]) + CodesIn(log[|log| - 1])
  }

  function CodesIn(e: Entry): seq<nat> {
    if e.Heard? && CodeOf(e.line).Some? && !GoesOn(e.line) then [CodeOf(e.line).value] else []
  }

  function OutOf(es: seq<Exchange>): seq<string> {
    if es == [] then [] else OutOf(es[..|es| - 1]) + es[|es| - 1].out
  }

  function CodesOf(es: seq<Exchange>): (codes: seq<nat>)
    ensures |codes| == |es|
  {
    if es == [] then [] else CodesOf(es[..|es| - 1]) + [es[|es| - 1].code]
  }

  /** The first exchange only listens; every other writes twice. */
  predicate Paired(es: seq<Exchange>) {
    es != [] && es[0].out == [] && forall k :: 0 < k < |es| ==> |es[k].out| == 2
  }

  /** Each write was made only once the replies before it, in order, had the codes expected so far. */
  ghost predicate Ordered(log: seq<Entry>, codes: seq<nat>) {
    forall i :: 0 <= i < |log| && log[i].Wrote? ==> WriteAllowed(log, codes, i)
  }

  ghost predicate WriteAllowed(log: seq<Entry>, codes: seq<nat>, i: nat)
    requires i < |log|
  {
    var k := 1 + |WritesOf(log[..i])| / 2;
    k <= |codes| && RepliesOf(log[..i]) == codes[..k]
  }

  lemma LogAppend(log: seq<Entry>, e: Entry)
    ensures WritesOf(log + [e]) == WritesOf(log) + if e.Wrote? then [e.data] else []
    ensures RepliesOf(log + [e]) == RepliesOf(log) + CodesIn(e)
  {
    assert (log + [e])[..|log|] == log;
  }

  lemma OrderedAppend(log: seq<Entry>, e: Entry, codes: seq<nat>)
    requires Ordered(log, codes)
    requires e.Wrote? ==>
               var k := 1 + |WritesOf(log)| / 2; k <= |codes| && RepliesOf(log) == codes[..k]
    ensures Ordered(log + [e], codes)
  {
    var more := log + [e];
    forall i | 0 <= i < |more| && more[i].Wrote?
      ensures WriteAllowed(more, codes, i)
    {
      if i < |log| {
        assert WriteAllowed(log, codes, i);
        assert more[..i] == log[..i];
      } else {
        assert more[..i] == log;
      }
    }
  }

  /** Reading a reply writes nothing and adds the code it returns. */
  lemma {:induction false} ReplyLogged(w: Link, codes: seq<nat>)
    requires Ordered(w.log, codes)
    ensures var (next, code) := ReplyRead(w);
            && WritesOf(next.log) == WritesOf(w.log)
            && RepliesOf(next.log) == RepliesOf(w.log) + (if code.Some? then [code.value] else [])
            && Ordered(next.log, codes)
    decreases |w.replies|
  {
    var (next, line) := LineRead(w);
    if line.Some? {
      LogAppend(w.log, Heard(line.value));
      OrderedAppend(w.log, Heard(line.value), codes);
      if CodeOf(line.value).Some? && GoesOn(line.value) {
        ReplyLogged(next, codes);
      }
    }
  }

  /** The state after `n` exchanges went well. */
  ghost predicate Reached(w: Link, es: seq<Exchange>, n: nat)
    requires n <= |es|
  {
    WritesOf(w.log) == OutOf(es[..n]) && RepliesOf(w.log) == CodesOf(es[..n])
    && Ordered(w.log, CodesOf(es))
  }

  /** The state after a failure in exchange `n`, or in QUIT if `n` is the number of exchanges. */
  ghost predicate StoppedAt(w: Link, es: seq<Exchange>, quit: seq<string>, n: nat)
    requires n <= |es|
  {
    var last := if n < |es| then es[n].out else quit;
    && OutOf(es[..n]) <= WritesOf(w.log) <= OutOf(es[..n]) + last
    && (n == |es| ==> WritesOf(w.log) < OutOf(es) + quit)
    && CodesOf(es[..n]) <= RepliesOf(w.log)
    && (n < |es| ==> !(CodesOf(es[..n + 1]) <= RepliesOf(w.log)))
    && (n == |es| ==> RepliesOf(w.log) == CodesOf(es))
    && Ordered(w.log, CodesOf(es))
  }

  lemma {:induction false} CodesPrefix(es: seq<Exchange>, n: nat)
    requires n <= |es|
    ensures CodesOf(es[..n]) == CodesOf(es)[..n]
    decreases |es|
  {
    if n == |es| {
      assert es[..n] == es;
    } else {
      assert es[..|es| - 1][..n] == es[..n];
      CodesPrefix(es[..|es| - 1], n);
    }
  }

  lemma {:induction false} OutLength(es: seq<Exchange>, n: nat)
    requires Paired(es) && 0 < n <= |es|
    ensures |OutOf(es[..n])| == 2 * (n - 1)
  {
    if n == 1 {
      assert es[..1][..0] == [] && OutOf([]) == [];
    } else {
      OutLength(es, n - 1);
      assert es[..n][..n - 1] == es[..n - 1];
    }
  }

  /** Two writes in their place: both are ordered, and a failure leaves a proper part of them. */
  lemma PairWritten(w: Link, out: seq<string>, es: seq<Exchange>, n: nat)
    requires Paired(es) && 0 < n <= |es| && |out| == 2 && Reached(w, es, n)
    ensures var (next, ok) := AllWritten(w, out);
            && RepliesOf(next.log) == CodesOf(es[..n])
            && Ordered(next.log, CodesOf(es))
            && OutOf(es[..n]) <= WritesOf(next.log) <= OutOf(es[..n]) + out
            && (ok <==> WritesOf(next.log) == OutOf(es[..n]) + out)
  {
    assert out == [out[0], out[1]];
    TwoWrites(w, out[0], out[1]);
    OutLength(es, n);
    CodesPrefix(es, n);
    WriteLogged(w, out[0], CodesOf(es), n);
    var (first, ok) := Written(w, out[0]);
    if ok {
      WriteLogged(first, out[1], CodesOf(es), n);
      assert OutOf(es[..n]) + [out[0]] + [out[1]] == OutOf(es[..n]) + out;
    }
  }

  lemma WriteLogged(w: Link, data: string, codes: seq<nat>, n: nat)
    requires Ordered(w.log, codes) && n <= |codes| && RepliesOf(w.log) == codes[..n]
    requires 1 + |WritesOf(w.log)| / 2 == n
    ensures var (next, ok) := Written(w, data);
            && RepliesOf(next.log) == RepliesOf(w.log) && Ordered(next.log, codes)
            && WritesOf(next.log) == WritesOf(w.log) + if ok then [data] else []
  {
    LogAppend(w.log, Wrote(data));
    OrderedAppend(w.log, Wrote(data), codes);
  }

  lemma OneMore(es: seq<Exchange>, n: nat)
    requires n < |es|
    ensures OutOf(es[..n + 1]) == OutOf(es[..n]) + es[n].out
    ensures CodesOf(es[..n + 1]) == CodesOf(es[..n]) + [es[n].code]
  {
    assert es[..n + 1][..n] == es[..n];
  }

  /** The writes of exchange `n`. */
  lemma OutSent(w: Link, es: seq<Exchange>, n: nat)
    requires Paired(es) && n < |es| && Reached(w, es, n)
    ensures var (sent, ok) := AllWritten(w, es[n].out);
            && RepliesOf(sent.log) == CodesOf(es[..n])
            && Ordered(sent.log, CodesOf(es))
            && OutOf(es[..n]) <= WritesOf(sent.log) <= OutOf(es[..n]) + es[n].out
            && (ok ==> WritesOf(sent.log) == OutOf(es[..n]) + es[n].out)
  {
    if n > 0 {
      PairWritten(w, es[n].out, es, n);
    }
  }

  /** The reply to exchange `n`, all of it having been written. */
  lemma ReplyReached(sent: Link, es: seq<Exchange>, quit: seq<string>, n: nat)
    requires n < |es| && WritesOf(sent.log) == OutOf(es[..n]) + es[n].out
    requires RepliesOf(sent.log) == CodesOf(es[..n]) && Ordered(sent.log, CodesOf(es))
    ensures var (next, code) := ReplyRead(sent);
            if code == Some(es[n].code) then Reached(next, es, n + 1) else StoppedAt(next, es, quit, n)
  {
    OneMore(es, n);
    ReplyLogged(sent, CodesOf(es));
    if ReplyRead(sent).1 != Some(es[n].code) {
      WrongReply(CodesOf(es[..n]), es[n].code, ReplyRead(sent).1);
    }
  }

  /** One more exchange. */
  lemma ExchangeReached(w: Link, es: seq<Exchange>, quit: seq<string>, n: nat)
    requires Paired(es) && n < |es| && Reached(w, es, n)
    ensures var (next, ok) := Exchanged(w, es[n]);
            if ok then Reached(next, es, n + 1) else StoppedAt(next, es, quit, n)
  {
    var (sent, ok) := AllWritten(w, es[n].out);
    OutSent(w, es, n);
    if ok {
      ReplyReached(sent, es, quit, n);
    } else {
      OneMore(es, n);
    }
  }

  /** A missing or different code is not the next one. */
  lemma WrongReply(codes: seq<nat>, code: nat, reply: Option<nat>)
    requires reply != Some(code)
    ensures !(codes + [code] <= codes + if reply.Some? then [reply.value] else [])
  {
    if reply.Some? {
      assert (codes + [code])[|codes|] != (codes + [reply.value])[|codes|];
    }
  }

  lemma {:induction false} ExchangesReached(w: Link, es: seq<Exchange>, quit: seq<string>, n: nat)
    requires Paired(es) && n <= |es| && Reached(w, es, n)
    ensures var (next, ok) := AllExchanged(w, es[n..]);
            if ok then Reached(next, es, |es|) else exists k :: n <= k < |es| && StoppedAt(next, es, quit, k)
    decreases |es| - n
  {
    if n < |es| {
      ExchangesNext(w, es, n);
      ExchangeReached(w, es, quit, n);
      if Exchanged(w, es[n]).1 {
        ExchangesReached(Exchanged(w, es[n]).0, es, quit, n + 1);
      }
    }
  }

  /** Where a session can end. */
  lemma SessionEnds(w: Link, es: seq<Exchange>, quit: seq<string>)
    requires Paired(es) && |quit| == 2 && w.log == []
    ensures var (end, ok) := Session(w, es, quit);
            if ok then
              WritesOf(end.log) == OutOf(es) + quit && CodesOf(es) <= RepliesOf(end.log)
              && Ordered(end.log, CodesOf(es))
            else exists k :: 0 <= k <= |es| && StoppedAt(end, es, quit, k)
  {
    assert es[0..] == es && es[..0] == [] && es[..|es|] == es;
    ExchangesReached(w, es, quit, 0);
    var (done, ok) := AllExchanged(w, es);
    if ok {
      PairWritten(done, quit, es, |es|);
      var (left, said) := AllWritten(done, quit);
      if said {
        ReplyLogged(left, CodesOf(es));
      } else {
        assert StoppedAt(left, es, quit, |es|);
      }
    }
  }

  /** Everything the program says, in order. */
  function Transcript(es: seq<Exchange>, quit: seq<string>): seq<string> {
    OutOf(es) + quit
  }

  lemma {:induction false} OutPrefix(es: seq<Exchange>, n: nat)
    requires n < |es|
    ensures OutOf(es[..n]) + es[n].out <= OutOf(es)
    decreases |es|
  {
    if n == |es| - 1 {
      assert es[..n + 1] == es;
    } else {
      var m := |es| - 1;
      OutPrefix(es[..m], n);
      assert es[..m][..n] == es[..n];
    }
  }

  lemma StoppedShort(w: Link, es: seq<Exchange>, quit: seq<string>, n: nat)
    requires n <= |es| && |quit| == 2 && StoppedAt(w, es, quit, n)
    ensures WritesOf(w.log) <= Transcript(es, quit) && WritesOf(w.log) != Transcript(es, quit)
    ensures CodesOf(es) <= RepliesOf(w.log) ==> OutOf(es) <= WritesOf(w.log)
  {
    if n < |es| {
      StoppedBeforeQuit(w, es, quit, n);
    } else {
      assert es[..n] == es;
    }
  }

  lemma StoppedBeforeQuit(w: Link, es: seq<Exchange>, quit: seq<string>, n: nat)
    requires n < |es| && |quit| == 2 && StoppedAt(w, es, quit, n)
    ensures WritesOf(w.log) <= Transcript(es, quit) && |WritesOf(w.log)| < |Transcript(es, quit)|
    ensures !(CodesOf(es) <= RepliesOf(w.log))
  {
    OutPrefix(es, n);
    PrefixThrough(WritesOf(w.log), OutOf(es[..n]) + es[n].out, OutOf(es));
    PrefixThrough(WritesOf(w.log), OutOf(es), Transcript(es, quit));
    CodesPrefix(es, n + 1);
    if CodesOf(es) <= RepliesOf(w.log) {
      PrefixThrough(CodesOf(es)[..n + 1], CodesOf(es), RepliesOf(w.log));
      assert false;
    }
  }

  lemma PrefixThrough<T>(a: seq<T>, b: seq<T>, c: seq<T>)
    requires a <= b <= c
    ensures a <= c
  {
  }

  /**
   Whatever the server answers and wherever the stream fails: what was written is the beginning of one
   fixed transcript, each write follows exactly the replies expected before it, and the result is `Ok`
   exactly when the transcript is complete. `Ok` means the message was accepted; if it was accepted
   and the result is still an error, only QUIT was not written in full.
   */
  lemma SessionTranscript(w: Link, es: seq<Exchange>, quit: seq<string>)
    requires Paired(es) && |quit| == 2 && w.log == []
    ensures var (end, ok) := Session(w, es, quit);
            && WritesOf(end.log) <= Transcript(es, quit)
            && Ordered(end.log, CodesOf(es))
            && (ok <==> WritesOf(end.log) == Transcript(es, quit))
            && (ok ==> CodesOf(es) <= RepliesOf(end.log))
            && (CodesOf(es) <= RepliesOf(end.log) && !ok ==> OutOf(es) <= WritesOf(end.log))
  {
    SessionEnds(w, es, quit);
    var (end, ok) := Session(w, es, quit);
    if !ok {
      var k :| 0 <= k <= |es| && StoppedAt(end, es, quit, k);
      StoppedShort(end, es, quit, k);
    }
  }

  lemma PlanIsPaired(hostname: string, username: seq<B.Byte>, password: seq<B.Byte>, email: E.Email)
    ensures var plan := Plan(hostname, username, password, email);
            && Paired(plan) && |plan| == 9
            && plan[3].out[0] == B.Encoded(username) && B.Decoded(plan[3].out[0]) == Some(username)
            && plan[4].out[0] == B.Encoded(password) && B.Decoded(plan[4].out[0]) == Some(password)
  {
    B.DecodeEncode(username);
    B.DecodeEncode(password);
  }

  /** The codes that must be heard: the greeting, EHLO, the login, and the message's way in. */
  lemma PlanCodes(hostname: string, username: seq<B.Byte>, password: seq<B.Byte>, email: E.Email)
    ensures CodesOf(Plan(hostname, username, password, email)) == [220, 250, 334, 334, 235, 250, 250, 354, 250]
  {
    var plan := Plan(hostname, username, password, email);
    var codes := [220, 250, 334, 334, 235, 250, 250, 354, 250];
    forall k | 0 <= k < 9
      ensures CodesOf(plan)[k] == codes[k]
    {
      CodeAt(plan, k);
    }
  }

  lemma {:induction false} CodeAt(es: seq<Exchange>, k: nat)
    requires k < |es|
    ensures CodesOf(es)[k] == es[k].code
    decreases |es|
  {
    if k < |es| - 1 {
      CodeAt(es[..|es| - 1], k);
    }
  }

  /** Exchange `n` says the two texts at its place. */
  predicate SaysAt(es: seq<Exchange>, said: seq<string>, n: nat)
    requires 0 < n < |es| && 2 * n <= |said|
  {
    es[n].out == [said[2 * n - 2], said[2 * n - 1]]
  }

  lemma {:induction false} OutIs(es: seq<Exchange>, said: seq<string>, n: nat)
    requires Paired(es) && 0 < n <= |es| && |said| == 2 * (|es| - 1)
    requires forall k :: 0 < k < |es| ==> SaysAt(es, said, k)
    ensures OutOf(es[..n]) == said[..2 * n - 2]
  {
    if n == 1 {
      assert es[..1][..0] == [];
    } else {
      OutIs(es, said, n - 1);
      OneMore(es, n - 1);
      assert SaysAt(es, said, n - 1);
      NextTwo(said, 2 * n - 4);
    }
  }

  lemma NextTwo(said: seq<string>, i: nat)
    requires i + 2 <= |said|
    ensures said[..i + 2] == said[..i] + [said[i], said[i + 1]]
  {
  }

  /** What the client says, write by write; the credentials in the encoding of the login. */
  function Dialogue(hostname: string, username: seq<B.Byte>, password: seq<B.Byte>, email: E.Email): seq<string> {
    ["EHLO " + hostname, "\r\n", "AUTH LOGIN", "\r\n", B.Encoded(username), "\r\n", B.Encoded(password), "\r\n",
     "MAIL FROM:<" + email.from + ">", "\r\n", "RCPT TO:<" + email.to + ">", "\r\n", "DATA", "\r\n",
     E.Wire(E.Lines(email)), ".\r\n", "QUIT", "\r\n"]
  }

  lemma DialogueInPlan(hostname: string, username: seq<B.Byte>, password: seq<B.Byte>, email: E.Email, k: nat)
    requires 0 < k < 9
    ensures SaysAt(Plan(hostname, username, password, email), Dialogue(hostname, username, password, email)[..16], k)
  {
  }

  lemma WhatIsSaid(hostname: string, username: seq<B.Byte>, password: seq<B.Byte>, email: E.Email)
    ensures Transcript(Plan(hostname, username, password, email), QUIT)
            == Dialogue(hostname, username, password, email)
  {
    var plan, said := Plan(hostname, username, password, email), Dialogue(hostname, username, password, email);
    forall k | 0 < k < 9
      ensures SaysAt(plan, said[..16], k)
    {
      DialogueInPlan(hostname, username, password, email, k);
    }
    OutIs(plan, said[..16], 9);
    assert plan[..9] == plan && said[..16][..16] == said[..16];
    NextTwo(said, 16);
  }

  /**
   The message is accepted exactly when every exchange before QUIT goes well, and the result is then
   an error exactly when the stream refuses a write of QUIT.
   */
  lemma ErrorAfterAcceptanceExactlyWhen(w: Link, es: seq<Exchange>, quit: seq<string>)
    requires Paired(es) && |quit| == 2 && w.log == []
    ensures var (done, accepted) := AllExchanged(w, es);
            var (end, ok) := Session(w, es, quit);
            && (CodesOf(es) <= RepliesOf(end.log) <==> accepted)
            && (CodesOf(es) <= RepliesOf(end.log) && !ok <==> accepted && !AllWritten(done, quit).1)
  {
    assert es[0..] == es && es[..0] == [] && es[..|es|] == es;
    ExchangesReached(w, es, quit, 0);
    var (done, accepted) := AllExchanged(w, es);
    if accepted {
      PairWritten(done, quit, es, |es|);
      ReplyLogged(AllWritten(done, quit).0, CodesOf(es));
    } else {
      var k :| 0 <= k < |es| && StoppedAt(done, es, quit, k);
      StoppedBeforeQuit(done, es, quit, k);
    }
  }

  /** The converse of "`Ok` means accepted" fails: a QUIT that cannot be written turns acceptance into an error. */
  lemma QuitFailureHidesAcceptance(w: Link, es: seq<Exchange>, quit: seq<string>)
    requires Paired(es) && |quit| == 2 && w.log == []
    requires AllExchanged(w, es).1 && !AllWritten(AllExchanged(w, es).0, quit).1
    ensures var (end, ok) := Session(w, es, quit); !ok && CodesOf(es) <= RepliesOf(end.log)
  {
    assert es[0..] == es && es[..0] == [] && es[..|es|] == es;
    ExchangesReached(w, es, quit, 0);
    PairWritten(AllExchanged(w, es).0, quit, es, |es|);
  }

  // ----- A server that accepts everything, and a stream that fails at QUIT

  predicate ThreeDigits(es: seq<Exchange>) {
    forall k :: 0 <= k < |es| ==> es[k].code < 1000
  }

  /** The server's side of the exchanges, as expected. */
  function Answers(es: seq<Exchange>): seq<Option<string>>
    requires ThreeDigits(es)
  {
    if es == [] then [] else [Some(Answer(es[0].code))] + Answers(es[1..])
  }

  function Yes(n: nat): seq<bool> {
    if n == 0 then [] else [true] + Yes(n - 1)
  }

  function WritesIn(es: seq<Exchange>): nat {
    if es == [] then 0 else |es[0].out| + WritesIn(es[1..])
  }

  lemma {:induction false} YesMore(m: nat, n: nat)
    ensures Yes(m) + Yes(n) == Yes(m + n)
  {
    if m > 0 {
      YesMore(m - 1, n);
    }
  }

  lemma {:induction false} AllAccepted(w: Link, out: seq<string>, rest: seq<bool>)
    requires w.accepts == Yes(|out|) + rest
    ensures var (next, ok) := AllWritten(w, out); ok && next.accepts == rest && next.replies == w.replies
    decreases |out|
  {
    if out != [] {
      assert w.accepts[1..] == Yes(|out| - 1) + rest;
      AllAccepted(Written(w, out[0]).0, out[1..], rest);
    }
  }

  lemma AnswerRead(w: Link, code: nat)
    requires code < 1000 && w.replies != [] && w.replies[0] == Some(Answer(code))
    ensures ReplyRead(w).1 == Some(code)
    ensures ReplyRead(w).0.replies == w.replies[1..] && ReplyRead(w).0.accepts == w.accepts
  {
    AnswerHasCode(code);
  }

  lemma ExchangeWentWell(w: Link, e: Exchange, replies: seq<Option<string>>, accepts: seq<bool>)
    requires e.code < 1000 && w.replies == [Some(Answer(e.code))] + replies && w.accepts == Yes(|e.out|) + accepts
    ensures var (next, ok) := Exchanged(w, e); ok && next.replies == replies && next.accepts == accepts
  {
    AllAccepted(w, e.out, accepts);
    AnswerRead(AllWritten(w, e.out).0, e.code);
  }

  lemma {:induction false} AllWentWell(w: Link, es: seq<Exchange>, rest: seq<bool>)
    requires ThreeDigits(es) && w.replies == Answers(es) && w.accepts == Yes(WritesIn(es)) + rest
    ensures var (next, ok) := AllExchanged(w, es); ok && next.accepts == rest
    decreases |es|
  {
    if es == [] {
      assert w.accepts == rest;
    } else {
      var later := Yes(WritesIn(es[1..])) + rest;
      YesMore(|es[0].out|, WritesIn(es[1..]));
      assert w.accepts == Yes(|es[0].out|) + later;
      ExchangeWentWell(w, es[0], Answers(es[1..]), later);
      AllWentWell(Exchanged(w, es[0]).0, es[1..], rest);
    }
  }

  /**
   It happens for every account and message: the server accepts everything, the stream fails at the
   first write of QUIT, and the message was accepted while the result is an error.
   */
  lemma AcceptedYetError(hostname: string, username: seq<B.Byte>, password: seq<B.Byte>, email: E.Email)
    ensures var plan := Plan(hostname, username, password, email);
            && ThreeDigits(plan)
            && var (end, ok) := Session(Link(Answers(plan), Yes(WritesIn(plan)) + [false], []), plan, QUIT);
            !ok && CodesOf(plan) <= RepliesOf(end.log)
  {
    var plan := Plan(hostname, username, password, email);
    var w := Link(Answers(plan), Yes(WritesIn(plan)) + [false], []);
    PlanIsPaired(hostname, username, password, email);
    AllWentWell(w, plan, [false]);
    assert !AllWritten(AllExchanged(w, plan).0, QUIT).1;
    QuitFailureHidesAcceptance(w, plan, QUIT);
  }
}
