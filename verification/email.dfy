/** The message as sent after SMTP's DATA, and what a server recovers from it (section 4.5.2 of RFC 5321). */
module Emails {
  import opened Options

  datatype Email = Email(from: string, to: string, subject: string, body: string)

  const CRLF: string := "\r\n"

  // ----- Serializing

  /** The LF-separated segments of a text; always at least one. */
  function Segments(text: string): (r: seq<string>)
    ensures r != []
  {
    if text == "" then [""]
    else
      var rest := Segments(text[1..]);
      if text[0] == '\n' then [""] + rest else [[text[0]] + rest[0]] + rest[1..]
  }

  function StripCr(segment: string): string {
    if segment != "" && segment[|segment| - 1] == '\r' then segment[..|segment| - 1] else segment
  }

  function Stuffed(line: string): string {
    if line != "" && line[0] == '.' then "." + line else line
  }

  /** Lines, each dot-stuffed and ended by CRLF. */
  function Wire(lines: seq<string>): string {
    if lines == [] then "" else Wire(lines[..|lines| - 1]) + (Stuffed(lines[|lines| - 1]) + CRLF)
  }

  function Headers(email: Email): seq<string> {
    ["From: " + email.from, "To: " + email.to, "Subject: " + email.subject, "MIME-Version: 1.0",
     "Content-Type: text/plain; charset=UTF-8", ""]
  }

  function Stripped(segments: seq<string>): seq<string> {
    if segments == [] then [] else Stripped(segments[..|segments| - 1]) + [StripCr(segments[|segments| - 1])]
  }

  function BodyLines(body: string): seq<string> {
    Stripped(Segments(body))
  }

  /** The lines a message consists of. */
  function Lines(email: Email): seq<string> {
    Headers(email) + BodyLines(email.body)
  }

  method ToRfc5322(email: Email) returns (out: string)
    ensures out == Wire(Lines(email))
  {
    ghost var lines: seq<string>;
    out := "";
    out, lines := PushHeader(out, [], "From: ", email.from);
    out, lines := PushHeader(out, lines, "To: ", email.to);
    out, lines := PushHeader(out, lines, "Subject: ", email.subject);
    out, lines := PushHeader(out, lines, "MIME-Version: 1.0", "");
    out, lines := PushHeader(out, lines, "Content-Type: text/plain; charset=UTF-8", "");
    out, lines := PushHeader(out, lines, "", "");
    HeaderLines(email, lines);
    out := PushBody(out, lines, Segments(email.body));
  }

  method PushHeader(before: string, ghost lines: seq<string>, name: string, value: string)
    returns (out: string, ghost pushed: seq<string>)
    requires before == Wire(lines)
    requires Stuffed(name + value) == name + value
    ensures pushed == lines + [name + value] && out == Wire(pushed)
  {
    out := before + (name + value + CRLF);
    pushed := lines + [name + value];
    WireLast(lines, name + value);
  }

  method PushBody(before: string, ghost lines: seq<string>, segments: seq<string>) returns (out: string)
    requires before == Wire(lines)
    ensures out == Wire(lines + Stripped(segments))
  {
    out := before;
    ghost var pushed := lines;
    for i := 0 to |segments|
      invariant out == Wire(pushed)
      invariant pushed == lines + Stripped(segments[..i])
    {
      StrippedNext(lines, segments, i);
      out := PushLine(out, pushed, StripCr(segments[i]));
      pushed := pushed + [StripCr(segments[i])];
    }
    assert segments[..|segments|] == segments;
  }

  lemma StrippedNext(lines: seq<string>, segments: seq<string>, i: nat)
    requires i < |segments|
    ensures lines + Stripped(segments[..i + 1]) == lines + Stripped(segments[..i]) + [StripCr(segments[i])]
  {
    assert segments[..i + 1][..i] == segments[..i];
  }

  method PushLine(before: string, ghost lines: seq<string>, segment: string) returns (out: string)
    requires before == Wire(lines)
    ensures out == Wire(lines + [segment])
  {
    WireLast(lines, segment);
    var line := segment;
    if segment != "" && segment[0] == '.' {
      line := "." + segment;
    }
    out := before + (line + CRLF);
  }

  lemma HeaderLines(email: Email, lines: seq<string>)
    requires lines == [] + ["From: " + email.from] + ["To: " + email.to] + ["Subject: " + email.subject]
                      + ["MIME-Version: 1.0" + ""] + ["Content-Type: text/plain; charset=UTF-8" + ""] + ["" + ""]
    ensures lines == Headers(email)
  {
    assert forall s: string :: s + "" == s;
  }

  lemma WireLast(lines: seq<string>, line: string)
    ensures Wire(lines + [line]) == Wire(lines) + (Stuffed(line) + CRLF)
  {
    assert (lines + [line])[..|lines|] == lines;
  }

  // ----- Receiving

  /** The position of the first CRLF, or the length if there is none. */
  function FirstCrlf(s: string): (i: nat)
    ensures i <= |s|
    ensures i < |s| ==> i + 2 <= |s| && s[i..i + 2] == CRLF
  {
    if |s| < 2 then |s|
    else if s[0] == '\r' && s[1] == '\n' then 0
    else
      var i := FirstCrlf(s[1..]);
      assert i < |s| - 1 ==> s[1..][i..i + 2] == s[i + 1..i + 3];
      i + 1
  }

  predicate HasCrlf(s: string) {
    FirstCrlf(s) < |s|
  }

  /** What a server reads after DATA: the lines up to the one that is a single dot, and what follows it. */
  datatype Received = Received(lines: seq<string>, rest: string)

  /** Lines end at CRLF; a lone dot ends the message; one leading dot is dropped. `None` if it never ends. */
  function Receive(s: string): Option<Received> {
    var i := FirstCrlf(s);
    if i == |s| then None
    else
      var line, rest := s[..i], s[i + 2..];
      if line == "." then Some(Received([], rest))
      else
        var more := Receive(rest);
        if more.None? then None
        else
          var bare := if line != "" && line[0] == '.' then line[1..] else line;
          Some(Received([bare] + more.value.lines, more.value.rest))
  }

  /** The first CRLF of a line without one, followed by CRLF, is that CRLF. */
  lemma {:induction false} FirstCrlfAfterLine(line: string, more: string)
    requires !HasCrlf(line)
    ensures FirstCrlf(line + CRLF + more) == |line|
  {
    var s := line + CRLF + more;
    if line == "" {
      assert s[0] == '\r' && s[1] == '\n';
    } else {
      assert s[1..] == line[1..] + CRLF + more;
      assert !HasCrlf(line[1..]) by { assert |line| >= 2 ==> line[1..][0] == line[1]; }
      FirstCrlfAfterLine(line[1..], more);
      assert |line| == 1 ==> s[1] == '\r';
      assert |line| >= 2 ==> s[1] == line[1];
    }
  }

  /** A line with a CRLF in it is cut there. */
  lemma {:induction false} FirstCrlfInLine(line: string, more: string)
    requires HasCrlf(line)
    ensures FirstCrlf(line + more) == FirstCrlf(line)
  {
    var s := line + more;
    assert s[0] == line[0] && s[1] == line[1];
    if !(line[0] == '\r' && line[1] == '\n') {
      assert s[1..] == line[1..] + more;
      FirstCrlfInLine(line[1..], more);
    }
  }

  lemma StuffedHasCrlf(line: string)
    ensures HasCrlf(Stuffed(line)) <==> HasCrlf(line)
  {
    if line != "" && line[0] == '.' {
      assert ("." + line)[1..] == line;
    }
  }

  /** A stuffed line is received as the line, and what follows it is received next. */
  lemma ReceiveLine(line: string, more: string)
    requires !HasCrlf(line)
    ensures Receive(Stuffed(line) + CRLF + more) ==
            if Receive(more).None? then None
            else Some(Received([line] + Receive(more).value.lines, Receive(more).value.rest))
  {
    var s := Stuffed(line) + CRLF + more;
    StuffedHasCrlf(line);
    FirstCrlfAfterLine(Stuffed(line), more);
    var i := |Stuffed(line)|;
    assert s[..i] == Stuffed(line) && s[i + 2..] == more;
    assert line != "" && line[0] == '.' ==> |Stuffed(line)| >= 2 && Stuffed(line)[1..] == line;
  }

  ghost predicate NoLineHasCrlf(lines: seq<string>) {
    forall k :: 0 <= k < |lines| ==> !HasCrlf(lines[k])
  }

  /** The lines on the wire, then the end marker, then whatever the client sends next. */
  function Sent(lines: seq<string>, next: string): string {
    if lines == [] then "." + CRLF + next else Stuffed(lines[0]) + CRLF + Sent(lines[1..], next)
  }

  lemma {:induction false} SentIsWire(lines: seq<string>, next: string)
    ensures Sent(lines, next) == Wire(lines) + ("." + CRLF + next)
  {
    SentAfter(lines, 0, next);
    assert lines[..0] == [] && lines[0..] == lines;
    assert "" + Sent(lines, next) == Sent(lines, next);
  }

  lemma {:induction false} SentAfter(lines: seq<string>, i: nat, next: string)
    requires i <= |lines|
    ensures Wire(lines[..i]) + Sent(lines[i..], next) == Wire(lines) + ("." + CRLF + next)
    decreases |lines| - i
  {
    if i == |lines| {
      assert lines[..i] == lines && lines[i..] == [];
    } else {
      var a, b, c := Wire(lines[..i]), Stuffed(lines[i]) + CRLF, Sent(lines[i + 1..], next);
      SentAfter(lines, i + 1, next);
      WireNext(lines, i);
      SentFirst(lines, i, next);
      Regroup(a, b, c);
    }
  }

  lemma WireNext(lines: seq<string>, i: nat)
    requires i < |lines|
    ensures Wire(lines[..i + 1]) == Wire(lines[..i]) + (Stuffed(lines[i]) + CRLF)
  {
    assert lines[..i + 1] == lines[..i] + [lines[i]];
    WireLast(lines[..i], lines[i]);
  }

  lemma SentFirst(lines: seq<string>, i: nat, next: string)
    requires i < |lines|
    ensures Sent(lines[i..], next) == Stuffed(lines[i]) + CRLF + Sent(lines[i + 1..], next)
  {
    assert lines[i..][0] == lines[i] && lines[i..][1..] == lines[i + 1..];
  }

  lemma Regroup(a: string, b: string, c: string)
    ensures a + b + c == a + (b + c)
  {
  }

  lemma ReceiveEnd(next: string)
    ensures Receive("." + CRLF + next) == Some(Received([], next))
  {
    FirstCrlfAfterLine(".", next);
    var s := "." + CRLF + next;
    assert s[..1] == "." && s[3..] == next;
  }

  /** A receiver recovers the lines and stops exactly at the end marker, whatever follows it. */
  lemma {:induction false} ReceiveSent(lines: seq<string>, next: string)
    requires NoLineHasCrlf(lines)
    ensures Receive(Sent(lines, next)) == Some(Received(lines, next))
  {
    if lines == [] {
      ReceiveEnd(next);
    } else {
      ReceiveSent(lines[1..], next);
      ReceiveFirst(lines[0], lines[1..], next);
      HeadAndTail(lines);
    }
  }

  lemma HeadAndTail(lines: seq<string>)
    requires lines != []
    ensures [lines[0]] + lines[1..] == lines
  {
  }

  lemma ReceiveFirst(line: string, lines: seq<string>, next: string)
    requires !HasCrlf(line) && Receive(Sent(lines, next)) == Some(Received(lines, next))
    ensures Receive(Stuffed(line) + CRLF + Sent(lines, next)) == Some(Received([line] + lines, next))
  {
    ReceiveLine(line, Sent(lines, next));
  }

  /** If a line has a CRLF in it, the receiver does not recover the lines. */
  lemma {:induction false} ReceiveBroken(lines: seq<string>, next: string)
    requires !NoLineHasCrlf(lines)
    ensures Receive(Sent(lines, next)) != Some(Received(lines, next))
  {
    if HasCrlf(lines[0]) {
      CutLine(lines[0], Sent(lines[1..], next));
    } else {
      forall k | 0 <= k < |lines| && HasCrlf(lines[k])
        ensures k > 0 && lines[k] == lines[1..][k - 1]
      {
      }
      ReceiveBroken(lines[1..], next);
      ReceiveLine(lines[0], Sent(lines[1..], next));
    }
  }

  lemma CutLine(line: string, more: string)
    requires HasCrlf(line)
    ensures var r := Receive(Stuffed(line) + CRLF + more); r.None? || r.value.lines == [] || |r.value.lines[0]| < |line|
  {
    var s := Stuffed(line) + CRLF + more;
    StuffedHasCrlf(line);
    Regroup(Stuffed(line), CRLF, more);
    FirstCrlfInLine(Stuffed(line), CRLF + more);
    var i := FirstCrlf(s);
    assert i + 2 <= |Stuffed(line)|;
    assert s[..i] == Stuffed(line)[..i];
    if line[0] == '.' && i == 0 {
      assert s[0] == '.';
    }
  }

  // ----- Transparency

  lemma {:induction false} SegmentsHaveNoLf(text: string)
    ensures forall k :: 0 <= k < |Segments(text)| ==> '\n' !in Segments(text)[k]
  {
    if text != "" {
      SegmentsHaveNoLf(text[1..]);
    }
  }

  lemma CrlfHasLf(s: string)
    requires HasCrlf(s)
    ensures '\n' in s
  {
    var i := FirstCrlf(s);
    assert s[i..i + 2][1] == s[i + 1];
  }

  lemma NoLfNoCrlf(s: string)
    requires '\n' !in s
    ensures !HasCrlf(s)
  {
    if HasCrlf(s) {
      CrlfHasLf(s);
    }
  }

  lemma {:induction false} StrippedHasNoCrlf(segments: seq<string>)
    requires forall k :: 0 <= k < |segments| ==> '\n' !in segments[k]
    ensures NoLineHasCrlf(Stripped(segments))
  {
    if segments != [] {
      StrippedHasNoCrlf(segments[..|segments| - 1]);
      NoLfNoCrlf(StripCr(segments[|segments| - 1]));
    }
  }

  lemma BodyHasNoCrlf(body: string)
    ensures NoLineHasCrlf(BodyLines(body))
  {
    SegmentsHaveNoLf(body);
    StrippedHasNoCrlf(Segments(body));
  }

  /** Joining the segments with LF gives back the text: nothing of the body is lost but one CR a line. */
  function Joined(segments: seq<string>): string {
    if segments == [] then "" else if |segments| == 1 then segments[0] else segments[0] + "\n" + Joined(segments[1..])
  }

  lemma {:induction false} SegmentsJoin(text: string)
    ensures Joined(Segments(text)) == text
  {
    if text != "" {
      var rest := Segments(text[1..]);
      SegmentsJoin(text[1..]);
      assert text == [text[0]] + text[1..];
      if text[0] == '\n' {
        assert ([""] + rest)[1..] == rest;
      } else {
        assert ([[text[0]] + rest[0]] + rest[1..])[1..] == rest[1..];
      }
    }
  }

  // ----- What becomes of the body

  /** `line` is `segment` without the carriage return at its end, if it has one. */
  predicate IsLineOf(line: string, segment: string) {
    segment == line + "\r" || (segment == line && (line == "" || line[|line| - 1] != '\r'))
  }

  /** One line for each LF-separated part of the body, with all of it but a carriage return at its end. */
  lemma {:induction false} StrippedLines(segments: seq<string>)
    ensures |Stripped(segments)| == |segments|
    ensures forall k :: 0 <= k < |segments| ==> IsLineOf(Stripped(segments)[k], segments[k])
  {
    if segments != [] {
      var front, last := segments[..|segments| - 1], segments[|segments| - 1];
      StrippedLines(front);
      StripIsLine(last);
      assert forall k :: 0 <= k < |front| ==> segments[k] == front[k];
    }
  }

  lemma StripIsLine(segment: string)
    ensures IsLineOf(StripCr(segment), segment)
  {
    if segment != "" && segment[|segment| - 1] == '\r' {
      assert segment == segment[..|segment| - 1] + [segment[|segment| - 1]];
    }
  }

  lemma PrefixedHasCrlf(prefix: string, value: string)
    requires forall k :: 0 <= k < |prefix| ==> prefix[k] != '\r'
    ensures HasCrlf(prefix + value) <==> HasCrlf(value)
    decreases |prefix|
  {
    if prefix == "" {
      assert prefix + value == value;
    } else {
      assert (prefix + value)[1..] == prefix[1..] + value;
      PrefixedHasCrlf(prefix[1..], value);
    }
  }

  lemma NamedHeaders(from: string, to: string, subject: string)
    ensures HasCrlf("From: " + from) <==> HasCrlf(from)
    ensures HasCrlf("To: " + to) <==> HasCrlf(to)
    ensures HasCrlf("Subject: " + subject) <==> HasCrlf(subject)
  {
    PrefixedHasCrlf("From: ", from);
    PrefixedHasCrlf("To: ", to);
    PrefixedHasCrlf("Subject: ", subject);
  }

  lemma FixedHeaders(version: string, kind: string)
    requires version == "MIME-Version: 1.0" && kind == "Content-Type: text/plain; charset=UTF-8"
    ensures !HasCrlf(version) && !HasCrlf(kind)
  {
    NoLfNoCrlf(version);
    NoLfNoCrlf(kind);
  }

  lemma SixLines(a: string, b: string, c: string, d: string, e: string, f: string)
    ensures NoLineHasCrlf([a, b, c, d, e, f]) <==>
            !HasCrlf(a) && !HasCrlf(b) && !HasCrlf(c) && !HasCrlf(d) && !HasCrlf(e) && !HasCrlf(f)
  {
    var h := [a, b, c, d, e, f];
    assert h[0] == a && h[1] == b && h[2] == c && h[3] == d && h[4] == e && h[5] == f;
  }

  lemma HeadersHaveCrlf(email: Email)
    ensures NoLineHasCrlf(Headers(email)) <==>
            !HasCrlf(email.from) && !HasCrlf(email.to) && !HasCrlf(email.subject)
  {
    NamedHeaders(email.from, email.to, email.subject);
    var version, kind := "MIME-Version: 1.0", "Content-Type: text/plain; charset=UTF-8";
    FixedHeaders(version, kind);
    SixLines("From: " + email.from, "To: " + email.to, "Subject: " + email.subject, version, kind, "");
  }

  lemma ConcatHasCrlf(a: seq<string>, b: seq<string>)
    ensures NoLineHasCrlf(a + b) <==> NoLineHasCrlf(a) && NoLineHasCrlf(b)
  {
    if NoLineHasCrlf(a + b) {
      assert forall k :: 0 <= k < |a| ==> a[k] == (a + b)[k];
      assert forall k :: 0 <= k < |b| ==> b[k] == (a + b)[|a| + k];
    }
  }

  /**
   A server recovers the message's lines exactly, whatever it is sent next, if and only if no header
   value holds a CRLF; the body may hold anything, dots and line ends included.
   */
  lemma Transparent(email: Email, next: string)
    ensures Receive(Wire(Lines(email)) + ("." + CRLF + next)) == Some(Received(Lines(email), next)) <==>
            !HasCrlf(email.from) && !HasCrlf(email.to) && !HasCrlf(email.subject)
  {
    HeadersHaveCrlf(email);
    BodyHasNoCrlf(email.body);
    ConcatHasCrlf(Headers(email), BodyLines(email.body));
    SentIsWire(Lines(email), next);
    if NoLineHasCrlf(Lines(email)) {
      ReceiveSent(Lines(email), next);
    } else {
      ReceiveBroken(Lines(email), next);
    }
  }

  /** The six header lines of a message. */
  ghost predicate IsHeader(email: Email, lines: seq<string>) {
    && |lines| == 6
    && lines[0] == "From: " + email.from && lines[1] == "To: " + email.to && lines[2] == "Subject: " + email.subject
    && lines[3] == "MIME-Version: 1.0" && lines[4] == "Content-Type: text/plain; charset=UTF-8" && lines[5] == ""
  }

  /**
   So what the server gets are the six header lines and then, one for one, the LF-separated parts of
   the body, each as it is but for a carriage return at its end.
   */
  lemma ReceivedMessage(email: Email, next: string) returns (header: seq<string>, body: seq<string>)
    requires !HasCrlf(email.from) && !HasCrlf(email.to) && !HasCrlf(email.subject)
    ensures Receive(Wire(Lines(email)) + ("." + CRLF + next)) == Some(Received(header + body, next))
    ensures IsHeader(email, header)
    ensures |body| == |Segments(email.body)|
    ensures forall k :: 0 <= k < |body| ==> IsLineOf(body[k], Segments(email.body)[k])
  {
    header, body := Headers(email), BodyLines(email.body);
    Transparent(email, next);
    StrippedLines(Segments(email.body));
  }

  /** A message it does not recover, whatever follows. */
  lemma HeaderBroken(next: string)
    ensures var email := Email("a", "b", "\r\n", "");
            Receive(Wire(Lines(email)) + ("." + CRLF + next)) != Some(Received(Lines(email), next))
  {
    Transparent(Email("a", "b", "\r\n", ""), next);
  }
}
