/** Splitting the modem's byte stream into lines and prompts, fed in arbitrary chunks. */
module AtParsing {

  type Byte = n: nat | n < 256

  const CR: Byte := 13
  const LF: Byte := 10
  const GREATER: Byte := 62
  const SPACE: Byte := 32

  datatype AtEvent = Line(text: seq<Byte>) | Prompt

  /** What came out so far, and the line begun. */
  datatype Parsed = Parsed(events: seq<AtEvent>, pending: seq<Byte>)

  predicate IsTerminator(b: Byte) {
    b == CR || b == LF
  }

  // ----- The parser, byte by byte

  function FeedByte(pending: seq<Byte>, b: Byte): Parsed {
    if IsTerminator(b) then
      if pending != [] then Parsed([Line(pending)], []) else Parsed([], [])
    else if pending + [b] == [GREATER, SPACE] then Parsed([Prompt], [])
    else Parsed([], pending + [b])
  }

  function Feed(pending: seq<Byte>, bytes: seq<Byte>): Parsed
    decreases |bytes|
  {
    if bytes == [] then Parsed([], pending)
    else
      var first := FeedByte(pending, bytes[0]);
      var rest := Feed(first.pending, bytes[1..]);
      Parsed(first.events + rest.events, rest.pending)
  }

  lemma FeedNext(pending: seq<Byte>, bytes: seq<Byte>, i: nat)
    requires i < |bytes|
    ensures var first := FeedByte(pending, bytes[i]);
            var rest := Feed(first.pending, bytes[i + 1..]);
            Feed(pending, bytes[i..]) == Parsed(first.events + rest.events, rest.pending)
  {
    assert bytes[i..][1..] == bytes[i + 1..];
  }

  class AtParser {
    var buf: seq<Byte>

    constructor ()
      ensures buf == []
    {
      buf := [];
    }

    method FeedOne(b: Byte) returns (events: seq<AtEvent>)
      modifies this
      ensures Parsed(events, buf) == FeedByte(old(buf), b)
    {
      events := [];
      if IsTerminator(b) {
        if buf != [] {
          events := [Line(buf)];
          buf := [];
        }
      } else {
        buf := buf + [b];
        if buf == [GREATER, SPACE] {
          buf := [];
          events := [Prompt];
        }
      }
    }

    method FeedBytes(bytes: seq<Byte>) returns (events: seq<AtEvent>)
      modifies this
      ensures Parsed(events, buf) == Feed(old(buf), bytes)
    {
      ghost var whole := Feed(buf, bytes);
      events := [];
      assert bytes[0..] == bytes;
      for i := 0 to |bytes|
        invariant events + Feed(buf, bytes[i..]).events == whole.events
        invariant Feed(buf, bytes[i..]).pending == whole.pending
      {
        FeedNext(buf, bytes, i);
        var more := FeedOne(bytes[i]);
        events := events + more;
      }
    }

    method Reset()
      modifies this
      ensures buf == []
    {
      buf := [];
    }
  }

  // ----- Chunks

  function Joined(chunks: seq<seq<Byte>>): seq<Byte> {
    if chunks == [] then [] else chunks[0] + Joined(chunks[1..])
  }

  /** Feeding chunk after chunk. */
  function FeedChunks(pending: seq<Byte>, chunks: seq<seq<Byte>>): Parsed
    decreases |chunks|
  {
    if chunks == [] then Parsed([], pending)
    else
      var first := Feed(pending, chunks[0]);
      var rest := FeedChunks(first.pending, chunks[1..]);
      Parsed(first.events + rest.events, rest.pending)
  }

  lemma {:induction false} FeedConcat(pending: seq<Byte>, a: seq<Byte>, b: seq<Byte>)
    ensures Feed(pending, a + b) ==
            var first, rest := Feed(pending, a), Feed(Feed(pending, a).pending, b);
            Parsed(first.events + rest.events, rest.pending)
    decreases |a|
  {
    if a == [] {
      assert a + b == b;
    } else {
      assert (a + b)[1..] == a[1..] + b;
      FeedConcat(FeedByte(pending, a[0]).pending, a[1..], b);
    }
  }

  /** However the stream is cut, the events and the line begun are the same. */
  lemma {:induction false} ChunksDoNotMatter(pending: seq<Byte>, chunks: seq<seq<Byte>>)
    ensures FeedChunks(pending, chunks) == Feed(pending, Joined(chunks))
    decreases |chunks|
  {
    if chunks != [] {
      FeedConcat(pending, chunks[0], Joined(chunks[1..]));
      ChunksDoNotMatter(Feed(pending, chunks[0]).pending, chunks[1..]);
    }
  }

  // ----- The whole stream at once

  /** A stretch without terminators, and the terminator that ended it. */
  datatype Stretch = Stretch(body: seq<Byte>, end: Byte)

  /** The stretches of a stream, and what follows the last terminator. */
  datatype Cut = Cut(stretches: seq<Stretch>, tail: seq<Byte>)

  function CutUp(s: seq<Byte>): Cut {
    if s == [] then Cut([], [])
    else
      var rest := CutUp(s[1..]);
      if IsTerminator(s[0]) then Cut([Stretch([], s[0])] + rest.stretches, rest.tail)
      else if rest.stretches == [] then Cut([], [s[0]] + rest.tail)
      else Cut([Stretch([s[0]] + rest.stretches[0].body, rest.stretches[0].end)] + rest.stretches[1..], rest.tail)
  }

  predicate StartsWithPrompt(s: seq<Byte>) {
    |s| >= 2 && s[0] == GREATER && s[1] == SPACE
  }

  /** The prompts a stretch begins with, and what is left of it. */
  function Unprompted(s: seq<Byte>): Parsed {
    if StartsWithPrompt(s) then
      var rest := Unprompted(s[2..]);
      Parsed([Prompt] + rest.events, rest.pending)
    else Parsed([], s)
  }

  /** The events of a finished stretch: its prompts, then a line if anything is left. */
  function EventsOf(body: seq<Byte>): seq<AtEvent> {
    var u := Unprompted(body);
    u.events + if u.pending == [] then [] else [Line(u.pending)]
  }

  function EventsOfAll(stretches: seq<Stretch>): seq<AtEvent> {
    if stretches == [] then [] else EventsOf(stretches[0].body) + EventsOfAll(stretches[1..])
  }

  /** The meaning of a whole stream. */
  function Parse(s: seq<Byte>): Parsed {
    var cut := CutUp(s);
    var last := Unprompted(cut.tail);
    Parsed(EventsOfAll(cut.stretches) + last.events, last.pending)
  }

  /** A line begun: no terminator in it, and not a prompt. */
  predicate IsPending(p: seq<Byte>) {
    (forall k :: 0 <= k < |p| ==> !IsTerminator(p[k])) && !StartsWithPrompt(p)
  }

  predicate NoTerminator(s: seq<Byte>) {
    forall k :: 0 <= k < |s| ==> !IsTerminator(s[k])
  }

  /** Putting bytes without terminators before a stream. */
  lemma {:induction false} CutAfter(p: seq<Byte>, s: seq<Byte>)
    requires NoTerminator(p)
    ensures var c := CutUp(s);
            CutUp(p + s) ==
            if c.stretches == [] then Cut([], p + c.tail)
            else Cut([Stretch(p + c.stretches[0].body, c.stretches[0].end)] + c.stretches[1..], c.tail)
  {
    if p == [] {
      assert p + s == s;
      var c := CutUp(s);
      if c.stretches != [] {
        assert p + c.stretches[0].body == c.stretches[0].body;
        assert [c.stretches[0]] + c.stretches[1..] == c.stretches;
      } else {
        assert p + c.tail == c.tail;
      }
    } else {
      assert (p + s)[1..] == p[1..] + s;
      CutAfter(p[1..], s);
      var c := CutUp(s);
      assert [p[0]] + (p[1..] + c.tail) == p + c.tail;
      if c.stretches != [] {
        assert [p[0]] + (p[1..] + c.stretches[0].body) == p + c.stretches[0].body;
        var d := CutUp(p[1..] + s);
        assert d.stretches[1..] == c.stretches[1..];
      }
    }
  }

  /** Cutting a line begun, its terminator and what follows. */
  lemma CutTerminated(p: seq<Byte>, b: Byte, s: seq<Byte>)
    requires NoTerminator(p) && IsTerminator(b)
    ensures CutUp(p + ([b] + s)) == Cut([Stretch(p, b)] + CutUp(s).stretches, CutUp(s).tail)
  {
    assert ([b] + s)[1..] == s;
    var c := CutUp([b] + s);
    assert c == Cut([Stretch([], b)] + CutUp(s).stretches, CutUp(s).tail);
    CutAfter(p, [b] + s);
    assert p + [] == p;
    assert c.stretches[1..] == CutUp(s).stretches;
  }

  /** A terminator ends the line begun. */
  lemma ParseTerminated(p: seq<Byte>, b: Byte, s: seq<Byte>)
    requires IsPending(p) && IsTerminator(b)
    ensures Parse(p + [b] + s) == Parsed((if p == [] then [] else [Line(p)]) + Parse(s).events, Parse(s).pending)
  {
    assert p + [b] + s == p + ([b] + s);
    CutTerminated(p, b, s);
    var c, rest := CutUp(p + ([b] + s)), CutUp(s);
    assert c.stretches[0] == Stretch(p, b) && c.stretches[1..] == rest.stretches;
    var lines := if p == [] then [] else [Line(p)];
    assert EventsOf(p) == lines;
    Regroup(lines, EventsOfAll(rest.stretches), Unprompted(rest.tail).events);
  }

  lemma Regroup(a: seq<AtEvent>, b: seq<AtEvent>, c: seq<AtEvent>)
    ensures a + b + c == a + (b + c)
  {
  }

  lemma PromptFirst(s: seq<Byte>)
    ensures Unprompted([GREATER, SPACE] + s) == Parsed([Prompt] + Unprompted(s).events, Unprompted(s).pending)
    ensures EventsOf([GREATER, SPACE] + s) == [Prompt] + EventsOf(s)
  {
    assert ([GREATER, SPACE] + s)[2..] == s;
  }

  /** A prompt at the start of a line is an event of its own. */
  lemma ParsePrompt(s: seq<Byte>)
    ensures Parse([GREATER, SPACE] + s) == Parsed([Prompt] + Parse(s).events, Parse(s).pending)
  {
    var p, c := [GREATER, SPACE], CutUp(s);
    CutAfter(p, s);
    if c.stretches == [] {
      PromptFirst(c.tail);
    } else {
      PromptFirst(c.stretches[0].body);
      var d, tail := CutUp(p + s), Unprompted(c.tail).events;
      assert d.stretches[0] == Stretch(p + c.stretches[0].body, c.stretches[0].end);
      assert d.stretches[1..] == c.stretches[1..];
      var first, rest := EventsOf(c.stretches[0].body), EventsOfAll(c.stretches[1..]);
      Regroup([Prompt], first, rest);
      Regroup([Prompt], first + rest, tail);
    }
  }

  lemma ParsePending(p: seq<Byte>)
    requires IsPending(p)
    ensures Parse(p) == Parsed([], p)
  {
    CutAfter(p, []);
    assert p + [] == p;
  }

  /** The parser computes the meaning of everything it was fed since the line began. */
  lemma {:induction false} FeedIsParse(p: seq<Byte>, s: seq<Byte>)
    requires IsPending(p)
    ensures Feed(p, s) == Parse(p + s)
    ensures IsPending(Feed(p, s).pending)
    decreases |s|
  {
    if s == [] {
      assert p + s == p;
      ParsePending(p);
    } else {
      var b, rest := s[0], s[1..];
      assert p + s == p + [b] + rest;
      if IsTerminator(b) {
        FeedIsParse([], rest);
        assert [] + rest == rest;
        ParseTerminated(p, b, rest);
      } else if p + [b] == [GREATER, SPACE] {
        FeedIsParse([], rest);
        assert [] + rest == rest;
        ParsePrompt(rest);
      } else {
        assert p == [GREATER] && b == SPACE ==> p + [b] == [GREATER, SPACE];
        assert |p| == 1 ==> p == [p[0]];
        assert |p| < 1 ==> |p + [b]| == 1;
        assert IsPending(p + [b]);
        FeedIsParse(p + [b], rest);
      }
    }
  }

  /** The bytes of a cut stream, put together again. */
  function Rebuilt(stretches: seq<Stretch>, tail: seq<Byte>): seq<Byte> {
    if stretches == [] then tail
    else stretches[0].body + [stretches[0].end] + Rebuilt(stretches[1..], tail)
  }

  /** Cutting loses nothing. */
  lemma {:induction false} CutRebuilds(s: seq<Byte>)
    ensures var c := CutUp(s); Rebuilt(c.stretches, c.tail) == s
  {
    if s != [] {
      CutRebuilds(s[1..]);
      var rest, c := CutUp(s[1..]), CutUp(s);
      assert s == [s[0]] + s[1..];
      if !IsTerminator(s[0]) && rest.stretches != [] {
        assert c.stretches[1..] == rest.stretches[1..];
        assert [s[0]] + (rest.stretches[0].body + [rest.stretches[0].end] + Rebuilt(rest.stretches[1..], rest.tail))
               == c.stretches[0].body + [c.stretches[0].end] + Rebuilt(rest.stretches[1..], rest.tail);
      } else if IsTerminator(s[0]) {
        assert c.stretches[1..] == rest.stretches;
      }
    }
  }

  /** The stream is cut at every carriage return and line feed and nowhere else. */
  lemma {:induction false} CutAtLineEnds(s: seq<Byte>)
    ensures forall k :: 0 <= k < |CutUp(s).stretches| ==>
              && CutUp(s).stretches[k].end in {13, 10}
              && 13 !in CutUp(s).stretches[k].body && 10 !in CutUp(s).stretches[k].body
    ensures 13 !in CutUp(s).tail && 10 !in CutUp(s).tail
  {
    if s != [] {
      CutAtLineEnds(s[1..]);
    }
  }

  /** Stripping prompts loses nothing: `n` prompts and the rest make up the stretch. */
  lemma {:induction false} PromptsRebuild(s: seq<Byte>)
    ensures Prompts(|Unprompted(s).events|) + Unprompted(s).pending == s
    ensures !StartsWithPrompt(Unprompted(s).pending)
  {
    if StartsWithPrompt(s) {
      PromptsRebuild(s[2..]);
      assert s == [GREATER, SPACE] + s[2..];
      var n := |Unprompted(s[2..]).events|;
      assert [GREATER, SPACE] + Prompts(n) + Unprompted(s[2..]).pending ==
             [GREATER, SPACE] + (Prompts(n) + Unprompted(s[2..]).pending);
    }
  }

  function Prompts(n: nat): seq<Byte> {
    if n == 0 then [] else [62, 32] + Prompts(n - 1)
  }

  /** A line as the layer above may rely on: not empty, no line end in it, and no prompt before it. */
  predicate GoodLine(e: AtEvent) {
    e.Line? ==> e.text != [] && 13 !in e.text && 10 !in e.text && !([62, 32] <= e.text)
  }

  /** Every line the parser emits is good, however long it runs. */
  lemma {:induction false} LinesAreGood(p: seq<Byte>, s: seq<Byte>)
    requires IsPending(p)
    ensures forall k :: 0 <= k < |Feed(p, s).events| ==> GoodLine(Feed(p, s).events[k])
    decreases |s|
  {
    if s != [] {
      var first := FeedByte(p, s[0]);
      assert IsPending(first.pending) by {
        FeedIsParse(p, [s[0]]);
        assert Feed(p, [s[0]]).pending == first.pending;
      }
      LinesAreGood(first.pending, s[1..]);
    }
  }
}
