/** Splitting a shell command line into tokens, with double quotes and escapes. */
module ShellTokens {

  const QUOTE := '"'
  const BACKSLASH := '\\'

  datatype TokenizeResult = Tokens(tokens: seq<string>) | Unterminated

  /** The characters with the Unicode property White_Space. */
  predicate IsWhitespace(c: char) {
    var n := c as int;
    9 <= n <= 13 || n == 32 || n == 0x85 || n == 0xA0 || n == 0x1680 || 0x2000 <= n <= 0x200A
    || n == 0x2028 || n == 0x2029 || n == 0x202F || n == 0x205F || n == 0x3000
  }

  /** They are these twenty-five: tab to carriage return, space and the like; no letter, digit or sign of ASCII. */
  lemma WhitespaceIs(c: char)
    ensures IsWhitespace(c) <==>
              c as nat in {9, 10, 11, 12, 13, 32, 133, 160, 5760, 8192, 8193, 8194, 8195, 8196, 8197, 8198, 8199, 8200,
                           8201, 8202, 8232, 8233, 8239, 8287, 12288}
    ensures IsWhitespace(' ') && IsWhitespace('\t') && IsWhitespace('\n') && IsWhitespace('\r')
    ensures '!' <= c <= '~' ==> !IsWhitespace(c)
  {
  }

  // ----- The scanner, character by character

  datatype Scan = Scan(tokens: seq<string>, current: string, inQuotes: bool, escape: bool, hasToken: bool)

  const START := Scan([], "", false, false, false)

  function Step(s: Scan, c: char): Scan {
    if s.escape then s.(current := s.current + [c], escape := false)
    else if s.inQuotes then
      if c == BACKSLASH then s.(escape := true)
      else if c == QUOTE then s.(inQuotes := false)
      else s.(current := s.current + [c])
    else if c == QUOTE then s.(inQuotes := true, hasToken := true)
    else if IsWhitespace(c) then
      if s.hasToken then s.(tokens := s.tokens + [s.current], current := "", hasToken := false) else s
    else s.(current := s.current + [c], hasToken := true)
  }

  function ScanAll(s: Scan, line: string): Scan
    decreases |line|
  {
    if line == [] then s else ScanAll(Step(s, line[0]), line[1..])
  }

  function Outcome(s: Scan): TokenizeResult {
    if s.inQuotes then Unterminated
    else if s.hasToken then Tokens(s.tokens + [s.current])
    else Tokens(s.tokens)
  }

  method Tokenize(line: string) returns (result: TokenizeResult)
    ensures result == Outcome(ScanAll(START, line))
  {
    var tokens: seq<string>, current := [], "";
    var inQuotes, escape, hasToken := false, false, false;
    assert line[0..] == line;
    for i := 0 to |line|
      invariant ScanAll(Scan(tokens, current, inQuotes, escape, hasToken), line[i..]) == ScanAll(START, line)
    {
      var c := line[i];
      assert line[i..][0] == c && line[i..][1..] == line[i + 1..];
      if escape {
        current, escape := current + [c], false;
      } else if inQuotes {
        match c {
          case '\\' => escape := true;
          case '"' => inQuotes := false;
          case _ => current := current + [c];
        }
      } else if c == QUOTE {
        inQuotes, hasToken := true, true;
      } else if IsWhitespace(c) {
        if hasToken {
          tokens, current, hasToken := tokens + [current], "", false;
        }
      } else {
        current, hasToken := current + [c], true;
      }
    }
    if inQuotes {
      return Unterminated;
    }
    if hasToken {
      tokens := tokens + [current];
    }
    return Tokens(tokens);
  }

  // ----- The grammar of a line

  /** A character inside quotes: itself, or any character behind a backslash. */
  datatype Item = Plain(c: char) | Escaped(c: char)

  datatype Part = Space(c: char) | Bare(c: char) | Quoted(items: seq<Item>)

  predicate ItemsOk(items: seq<Item>) {
    forall k :: 0 <= k < |items| && items[k].Plain? ==> items[k].c != QUOTE && items[k].c != BACKSLASH
  }

  predicate PartOk(p: Part) {
    match p
    case Space(c) => IsWhitespace(c)
    case Bare(c) => !IsWhitespace(c) && c != QUOTE
    case Quoted(items) => ItemsOk(items)
  }

  predicate PartsOk(parts: seq<Part>) {
    forall k :: 0 <= k < |parts| ==> PartOk(parts[k])
  }

  function SpellItem(i: Item): string {
    if i.Plain? then [i.c] else [BACKSLASH, i.c]
  }

  function SpellItems(items: seq<Item>): string {
    if items == [] then "" else SpellItem(items[0]) + SpellItems(items[1..])
  }

  function TextOf(items: seq<Item>): string {
    if items == [] then "" else [items[0].c] + TextOf(items[1..])
  }

  function SpellPart(p: Part): string {
    match p
    case Space(c) => [c]
    case Bare(c) => [c]
    case Quoted(items) => [QUOTE] + SpellItems(items) + [QUOTE]
  }

  function Spell(parts: seq<Part>): string {
    if parts == [] then "" else SpellPart(parts[0]) + Spell(parts[1..])
  }

  /** What a part adds to the token it stands in. */
  function Adds(p: Part): string {
    match p
    case Space(_) => ""
    case Bare(c) => [c]
    case Quoted(items) => TextOf(items)
  }

  function AllAdd(parts: seq<Part>): string {
    if parts == [] then "" else Adds(parts[0]) + AllAdd(parts[1..])
  }

  /** How many parts at the front stand together without a space. */
  function Run(parts: seq<Part>): (n: nat)
    ensures n <= |parts|
    ensures parts != [] && !parts[0].Space? ==> n > 0
  {
    if parts == [] || parts[0].Space? then 0 else 1 + Run(parts[1..])
  }

  /** The tokens of a line: one for every maximal run of parts that are not spaces. */
  function Words(parts: seq<Part>): seq<string>
    decreases |parts|
  {
    if parts == [] then []
    else if parts[0].Space? then Words(parts[1..])
    else [AllAdd(parts[..Run(parts)])] + Words(parts[Run(parts)..])
  }

  // ----- The scanner follows the grammar

  ghost predicate Between(s: Scan) {
    !s.inQuotes && !s.escape && (!s.hasToken ==> s.current == "")
  }

  /** The scanner's state after a part. */
  function After(s: Scan, p: Part): Scan {
    match p
    case Space(_) => if s.hasToken then s.(tokens := s.tokens + [s.current], current := "", hasToken := false) else s
    case Bare(c) => s.(current := s.current + [c], hasToken := true)
    case Quoted(items) => s.(current := s.current + TextOf(items), hasToken := true)
  }

  function AfterAll(s: Scan, parts: seq<Part>): Scan
    decreases |parts|
  {
    if parts == [] then s else AfterAll(After(s, parts[0]), parts[1..])
  }

  lemma ScanItem(s: Scan, i: Item, more: string)
    requires s.inQuotes && !s.escape && ItemsOk([i])
    ensures ScanAll(s, SpellItem(i) + more) == ScanAll(s.(current := s.current + [i.c]), more)
  {
    assert [i][0] == i;
    var line := SpellItem(i) + more;
    if i.Plain? {
      assert line[1..] == more;
    } else {
      assert line[0] == BACKSLASH && line[1..] == [i.c] + more;
      assert line[1..][1..] == more;
    }
  }

  lemma {:induction false} ScanItems(s: Scan, items: seq<Item>, rest: string)
    requires s.inQuotes && !s.escape && ItemsOk(items)
    ensures ScanAll(s, SpellItems(items) + rest) == ScanAll(s.(current := s.current + TextOf(items)), rest)
    decreases |items|
  {
    if items == [] {
      assert SpellItems(items) + rest == rest;
      assert s.current + TextOf(items) == s.current;
    } else {
      var i, more := items[0], SpellItems(items[1..]) + rest;
      assert SpellItems(items) + rest == SpellItem(i) + more;
      ScanItem(s, i, more);
      ScanItems(s.(current := s.current + [i.c]), items[1..], rest);
      assert s.current + [i.c] + TextOf(items[1..]) == s.current + TextOf(items);
    }
  }

  lemma ScanQuoted(s: Scan, items: seq<Item>, rest: string)
    requires Between(s) && ItemsOk(items)
    ensures ScanAll(s, [QUOTE] + (SpellItems(items) + ([QUOTE] + rest))) == ScanAll(After(s, Quoted(items)), rest)
  {
    var tail := [QUOTE] + rest;
    var line := [QUOTE] + (SpellItems(items) + tail);
    assert line[1..] == SpellItems(items) + tail;
    var inside := Step(s, QUOTE);
    assert ScanAll(s, line) == ScanAll(inside, SpellItems(items) + tail);
    ScanItems(inside, items, tail);
    assert tail[1..] == rest;
    assert Step(inside.(current := inside.current + TextOf(items)), QUOTE) == After(s, Quoted(items));
  }

  lemma ScanChar(s: Scan, c: char, rest: string)
    ensures ScanAll(s, [c] + rest) == ScanAll(Step(s, c), rest)
  {
    assert ([c] + rest)[1..] == rest;
  }

  lemma QuotedShape(items: seq<Item>, rest: string)
    ensures SpellPart(Quoted(items)) + rest == [QUOTE] + (SpellItems(items) + ([QUOTE] + rest))
  {
  }

  lemma ScanPart(s: Scan, p: Part, rest: string)
    requires Between(s) && PartOk(p)
    ensures ScanAll(s, SpellPart(p) + rest) == ScanAll(After(s, p), rest)
    ensures Between(After(s, p))
  {
    match p
    case Quoted(items) =>
      ScanQuoted(s, items, rest);
      QuotedShape(items, rest);
    case Space(c) => ScanChar(s, c, rest);
    case Bare(c) => ScanChar(s, c, rest);
  }

  lemma {:induction false} ScanParts(s: Scan, parts: seq<Part>, rest: string)
    requires Between(s) && PartsOk(parts)
    ensures ScanAll(s, Spell(parts) + rest) == ScanAll(AfterAll(s, parts), rest)
    ensures Between(AfterAll(s, parts))
    decreases |parts|
  {
    if parts == [] {
      assert Spell(parts) + rest == rest;
    } else {
      assert Spell(parts) + rest == SpellPart(parts[0]) + (Spell(parts[1..]) + rest);
      ScanPart(s, parts[0], Spell(parts[1..]) + rest);
      ScanParts(After(s, parts[0]), parts[1..], rest);
    }
  }

  lemma RunStep(p: Part, rest: seq<Part>)
    requires !p.Space?
    ensures var parts, n := [p] + rest, Run(rest);
            Run(parts) == n + 1 && parts[n + 1..] == rest[n..]
            && AllAdd(parts[..n + 1]) == Adds(p) + AllAdd(rest[..n])
  {
    var parts, n := [p] + rest, Run(rest);
    assert parts[1..] == rest;
    var front := parts[..n + 1];
    assert front[1..] == rest[..n];
  }

  /** The token in the making, and the words after it. */
  function Finished(s: Scan, parts: seq<Part>): seq<string> {
    if s.hasToken then s.tokens + ([s.current + AllAdd(parts[..Run(parts)])] + Words(parts[Run(parts)..]))
    else s.tokens + Words(parts)
  }

  lemma FinishedStep(s: Scan, p: Part, rest: seq<Part>)
    requires Between(s)
    ensures Finished(After(s, p), rest) == Finished(s, [p] + rest)
  {
    if p.Space? {
      FinishedSpace(s, p, rest);
    } else {
      FinishedWord(s, p, rest);
    }
  }

  lemma FinishedSpace(s: Scan, p: Part, rest: seq<Part>)
    requires Between(s) && p.Space?
    ensures Finished(After(s, p), rest) == Finished(s, [p] + rest)
  {
    var parts := [p] + rest;
    assert parts[1..] == rest;
    assert parts[..0] == [] && parts[0..] == parts;
    assert s.current + AllAdd([]) == s.current;
    Associate(s.tokens, [s.current], Words(rest));
  }

  lemma Associate(a: seq<string>, b: seq<string>, c: seq<string>)
    ensures a + b + c == a + (b + c)
  {
  }

  lemma FinishedWord(s: Scan, p: Part, rest: seq<Part>)
    requires Between(s) && !p.Space?
    ensures Finished(After(s, p), rest) == Finished(s, [p] + rest)
  {
    var parts, n := [p] + rest, Run(rest);
    RunStep(p, rest);
    var added, more := AllAdd(rest[..n]), Words(rest[n..]);
    assert s.current + Adds(p) + added == s.current + (Adds(p) + added);
    assert Finished(After(s, p), rest) == s.tokens + ([s.current + (Adds(p) + added)] + more);
    if !s.hasToken {
      assert Words(parts) == [Adds(p) + added] + more;
      assert s.current + (Adds(p) + added) == Adds(p) + added;
    }
  }

  /** The tokens still to come complete the one begun, and then are the words of the rest. */
  lemma {:induction false} AfterAllWords(s: Scan, parts: seq<Part>)
    requires Between(s)
    ensures Outcome(AfterAll(s, parts)) == Tokens(Finished(s, parts))
    decreases |parts|
  {
    if parts == [] {
      assert parts[..0] == [] && parts[0..] == [];
      assert s.current + AllAdd([]) == s.current;
    } else {
      AfterAllWords(After(s, parts[0]), parts[1..]);
      assert [parts[0]] + parts[1..] == parts;
      FinishedStep(s, parts[0], parts[1..]);
    }
  }

  /** A line that follows the grammar yields its words. */
  lemma SpelledLineYieldsWords(parts: seq<Part>)
    requires PartsOk(parts)
    ensures Outcome(ScanAll(START, Spell(parts))) == Tokens(Words(parts))
  {
    assert Spell(parts) + "" == Spell(parts);
    ScanParts(START, parts, "");
    AfterAllWords(START, parts);
    assert START.tokens + Words(parts) == Words(parts);
  }

  // ----- Every line can be read

  /** A line: parts only, or parts and then an opening quote that is never closed. */
  datatype Reading =
    | Closed(parts: seq<Part>)
    | Open(parts: seq<Part>, items: seq<Item>, dangling: bool)

  ghost predicate ReadingOk(r: Reading) {
    PartsOk(r.parts) && (r.Open? ==> ItemsOk(r.items))
  }

  function SpellReading(r: Reading): string {
    match r
    case Closed(parts) => Spell(parts)
    case Open(parts, items, dangling) =>
      Spell(parts) + ([QUOTE] + (SpellItems(items) + if dangling then [BACKSLASH] else ""))
  }

  /** A line that follows the grammar up to a quote never closed is an error. */
  lemma UnclosedLineIsError(r: Reading)
    requires r.Open? && ReadingOk(r)
    ensures Outcome(ScanAll(START, SpellReading(r))) == Unterminated
  {
    var end := if r.dangling then [BACKSLASH] else "";
    var tail := [QUOTE] + (SpellItems(r.items) + end);
    ScanParts(START, r.parts, tail);
    var s := AfterAll(START, r.parts);
    assert tail[1..] == SpellItems(r.items) + end;
    ScanItems(Step(s, QUOTE), r.items, end);
    assert r.dangling ==> end[1..] == "";
  }

  /** What stands behind an opening quote: up to the closing one, or to the end of the line. */
  datatype Inside = ClosedAt(items: seq<Item>, rest: string) | NeverClosed(items: seq<Item>, dangling: bool)

  function SpellInside(r: Inside): string {
    match r
    case ClosedAt(items, rest) => SpellItems(items) + ([QUOTE] + rest)
    case NeverClosed(items, dangling) => SpellItems(items) + if dangling then [BACKSLASH] else ""
  }

  function ItemBefore(i: Item, r: Inside): (b: Inside)
    requires ItemsOk([i]) && ItemsOk(r.items)
    ensures ItemsOk(b.items)
    ensures b.ClosedAt? == r.ClosedAt? && (r.ClosedAt? ==> b.rest == r.rest)
    ensures SpellInside(b) == SpellItem(i) + SpellInside(r)
  {
    assert [i][0] == i;
    assert ([i] + r.items)[1..] == r.items;
    r.(items := [i] + r.items)
  }

  function ReadInside(line: string): (r: Inside)
    ensures ItemsOk(r.items)
    ensures SpellInside(r) == line
    ensures r.ClosedAt? ==> |r.rest| < |line|
  {
    if line == [] then NeverClosed([], false)
    else if line[0] == QUOTE then ClosedAt([], line[1..])
    else if line == [BACKSLASH] then NeverClosed([], true)
    else if line[0] == BACKSLASH then
      assert line == SpellItem(Escaped(line[1])) + line[2..];
      ItemBefore(Escaped(line[1]), ReadInside(line[2..]))
    else
      assert line == SpellItem(Plain(line[0])) + line[1..];
      ItemBefore(Plain(line[0]), ReadInside(line[1..]))
  }

  /** Puts a part in front of a reading. */
  function Before(p: Part, r: Reading): (b: Reading)
    requires PartOk(p) && ReadingOk(r)
    ensures ReadingOk(b) && b.Open? == r.Open?
    ensures SpellReading(b) == SpellPart(p) + SpellReading(r)
  {
    assert ([p] + r.parts)[1..] == r.parts;
    r.(parts := [p] + r.parts)
  }

  function PartFor(c: char): (p: Part)
    requires c != QUOTE
    ensures PartOk(p) && SpellPart(p) == [c]
  {
    if IsWhitespace(c) then Space(c) else Bare(c)
  }

  /** The one way to read a line. */
  function Read(line: string): (r: Reading)
    ensures ReadingOk(r)
    ensures SpellReading(r) == line
    decreases |line|
  {
    if line == [] then Closed([])
    else if line[0] == QUOTE then
      match ReadInside(line[1..])
      case ClosedAt(items, rest) =>
        assert line == SpellPart(Quoted(items)) + rest;
        Before(Quoted(items), Read(rest))
      case NeverClosed(items, dangling) =>
        Open([], items, dangling)
    else
      assert [line[0]] + line[1..] == line;
      Before(PartFor(line[0]), Read(line[1..]))
  }

  /** For every line: the words of its grammar, or an error exactly when a quote is never closed. */
  lemma TokenizeIsGrammar(line: string)
    ensures var r := Read(line);
            Outcome(ScanAll(START, line)) == if r.Closed? then Tokens(Words(r.parts)) else Unterminated
  {
    var r := Read(line);
    if r.Closed? {
      SpelledLineYieldsWords(r.parts);
    } else {
      UnclosedLineIsError(r);
    }
  }

  // ----- Quoting is undone by tokenizing

  function ItemFor(c: char): Item {
    if c == QUOTE || c == BACKSLASH then Escaped(c) else Plain(c)
  }

  function ItemsFor(text: string): seq<Item> {
    if text == "" then [] else [ItemFor(text[0])] + ItemsFor(text[1..])
  }

  /** A token in quotes, with quotes and backslashes escaped. */
  function QuoteToken(text: string): string {
    [QUOTE] + SpellItems(ItemsFor(text)) + [QUOTE]
  }

  /** A token, and the gap after it. */
  datatype Phrase = Phrase(token: string, gap: string)

  predicate AllSpace(gap: string) {
    forall k :: 0 <= k < |gap| ==> IsWhitespace(gap[k])
  }

  /** Every gap is white space, and at least one character of it unless nothing follows. */
  predicate PhrasesOk(phrases: seq<Phrase>) {
    phrases != [] ==>
      && AllSpace(phrases[0].gap)
      && (phrases[0].gap == "" ==> |phrases| == 1)
      && PhrasesOk(phrases[1..])
  }

  function TokensOf(phrases: seq<Phrase>): seq<string> {
    if phrases == [] then [] else [phrases[0].token] + TokensOf(phrases[1..])
  }

  /** The tokens in quotes, each followed by its gap. */
  function QuotedLine(phrases: seq<Phrase>): string {
    if phrases == [] then ""
    else QuoteToken(phrases[0].token) + (phrases[0].gap + QuotedLine(phrases[1..]))
  }

  function Spaced(gap: string, parts: seq<Part>): seq<Part>
    decreases |gap|
  {
    if gap == "" then parts else [Space(gap[0])] + Spaced(gap[1..], parts)
  }

  function PartsFor(phrases: seq<Phrase>): seq<Part> {
    if phrases == [] then []
    else [Quoted(ItemsFor(phrases[0].token))] + Spaced(phrases[0].gap, PartsFor(phrases[1..]))
  }

  lemma {:induction false} ItemsForText(text: string)
    ensures ItemsOk(ItemsFor(text)) && TextOf(ItemsFor(text)) == text
  {
    if text != "" {
      ItemsForText(text[1..]);
    }
  }

  lemma {:induction false} SpacesOk(gap: string, parts: seq<Part>)
    requires AllSpace(gap) && PartsOk(parts)
    ensures PartsOk(Spaced(gap, parts))
    decreases |gap|
  {
    if gap != "" {
      SpacesOk(gap[1..], parts);
    }
  }

  lemma SpaceSpelled(c: char, parts: seq<Part>)
    ensures Spell([Space(c)] + parts) == [c] + Spell(parts)
  {
    assert ([Space(c)] + parts)[1..] == parts;
  }

  lemma HeadFirst(head: string, rest: string)
    requires head != ""
    ensures [head[0]] + (head[1..] + rest) == head + rest
  {
  }

  lemma {:induction false} SpacesSpelled(gap: string, parts: seq<Part>)
    ensures Spell(Spaced(gap, parts)) == gap + Spell(parts)
    decreases |gap|
  {
    if gap != "" {
      SpacesSpelled(gap[1..], parts);
      SpaceSpelled(gap[0], Spaced(gap[1..], parts));
      HeadFirst(gap, Spell(parts));
    }
  }

  lemma {:induction false} SpacesVanish(gap: string, parts: seq<Part>)
    ensures Words(Spaced(gap, parts)) == Words(parts)
    decreases |gap|
  {
    if gap != "" {
      SpacesVanish(gap[1..], parts);
      assert Spaced(gap, parts)[1..] == Spaced(gap[1..], parts);
    }
  }

  /** A quoted token with no part touching it is a word by itself. */
  lemma LoneWord(items: seq<Item>, tail: seq<Part>)
    requires Run(tail) == 0 && ItemsOk(items) && PartsOk(tail)
    ensures PartsOk([Quoted(items)] + tail)
    ensures Spell([Quoted(items)] + tail) == SpellPart(Quoted(items)) + Spell(tail)
    ensures Words([Quoted(items)] + tail) == [TextOf(items)] + Words(tail)
  {
    var word := Quoted(items);
    assert ([word] + tail)[1..] == tail;
    RunStep(word, tail);
    assert tail[..0] == [] && tail[0..] == tail;
    assert TextOf(items) + "" == TextOf(items);
  }

  lemma {:induction false} PartsForWords(phrases: seq<Phrase>)
    requires PhrasesOk(phrases)
    ensures PartsOk(PartsFor(phrases))
    ensures Spell(PartsFor(phrases)) == QuotedLine(phrases)
    ensures Words(PartsFor(phrases)) == TokensOf(phrases)
  {
    if phrases != [] {
      var token, gap, later := phrases[0].token, phrases[0].gap, PartsFor(phrases[1..]);
      PartsForWords(phrases[1..]);
      SpacesOk(gap, later);
      SpacesSpelled(gap, later);
      SpacesVanish(gap, later);
      ItemsForText(token);
      assert Run(Spaced(gap, later)) == 0;
      LoneWord(ItemsFor(token), Spaced(gap, later));
    }
  }

  /**
   * Any tokens at all, empty ones and ones with newlines, quotes and backslashes included, come back
   * when each is quoted and they are joined by white space.
   */
  lemma QuotingRoundTrip(phrases: seq<Phrase>)
    requires PhrasesOk(phrases)
    ensures Outcome(ScanAll(START, QuotedLine(phrases))) == Tokens(TokensOf(phrases))
  {
    PartsForWords(phrases);
    SpelledLineYieldsWords(PartsFor(phrases));
  }

  // ----- Quoted regions are not quite verbatim

  /** An escape is longer than what it stands for. */
  lemma {:induction false} EscapesShorten(items: seq<Item>)
    requires ItemsOk(items)
    ensures |TextOf(items)| <= |SpellItems(items)|
    ensures |TextOf(items)| == |SpellItems(items)| ==> BACKSLASH !in SpellItems(items)
  {
    if items != [] {
      EscapesShorten(items[1..]);
      assert items[0].Plain? ==> items[0].c != BACKSLASH;
    }
  }

  lemma {:induction false} PlainTextSpelled(text: string)
    requires QUOTE !in text && BACKSLASH !in text
    ensures SpellItems(ItemsFor(text)) == text
  {
    if text != "" {
      assert QUOTE !in text[1..] && BACKSLASH !in text[1..];
      PlainTextSpelled(text[1..]);
      assert [text[0]] + text[1..] == text;
    }
  }

  /** A quoted region alone on a line is one token. */
  lemma QuotedAlone(items: seq<Item>)
    requires ItemsOk(items)
    ensures Outcome(ScanAll(START, [QUOTE] + SpellItems(items) + [QUOTE])) == Tokens([TextOf(items)])
  {
    var parts := [Quoted(items)];
    assert parts + [] == parts;
    LoneWord(items, []);
    assert SpellPart(Quoted(items)) + Spell([]) == SpellPart(Quoted(items));
    SpelledLineYieldsWords(parts);
  }

  /** The closing quote is the last character when the text before it has none, or it is escaped away. */
  lemma ClosedAtEnd(text: string)
    requires QUOTE !in text
    ensures var r := ReadInside(text + [QUOTE]); r.ClosedAt? ==> SpellItems(r.items) == text
  {
    var r := ReadInside(text + [QUOTE]);
    assert forall k :: 0 <= k < |text| ==> text[k] != QUOTE && (text + [QUOTE])[k] == text[k];
    if r.ClosedAt? {
      var n, line := |SpellItems(r.items)|, text + [QUOTE];
      assert line == SpellItems(r.items) + ([QUOTE] + r.rest);
      assert line[n] == QUOTE;
      assert line[..n] == SpellItems(r.items);
    }
  }

  /** Text without quotes stands for itself between quotes if and only if it has no backslash. */
  lemma VerbatimExactlyWhen(text: string)
    requires QUOTE !in text
    ensures Outcome(ScanAll(START, [QUOTE] + text + [QUOTE])) == Tokens([text]) <==> BACKSLASH !in text
  {
    if BACKSLASH !in text {
      PlainTextSpelled(text);
      ItemsForText(text);
      QuotedAlone(ItemsFor(text));
    } else {
      var r := ReadInside(text + [QUOTE]);
      assert [QUOTE] + text + [QUOTE] == [QUOTE] + SpellInside(r);
      match r
      case ClosedAt(items, rest) =>
        ClosedAtEnd(text);
        QuotedAlone(items);
        EscapesShorten(items);
      case NeverClosed(items, dangling) =>
        UnclosedLineIsError(Open([], items, dangling));
        assert SpellReading(Open([], items, dangling)) == [QUOTE] + SpellInside(r);
    }
  }

  /** A quoted backslash before an ordinary character is dropped, and the character kept. */
  lemma BackslashIsDropped()
    ensures Outcome(ScanAll(START, [QUOTE, BACKSLASH, 'n', QUOTE])) == Tokens(["n"])
  {
    var items := [Escaped('n')];
    QuotedAlone(items);
    assert items[1..] == [];
    assert [QUOTE] + SpellItems(items) + [QUOTE] == [QUOTE, BACKSLASH, 'n', QUOTE];
    assert TextOf(items) == "n";
  }
}
