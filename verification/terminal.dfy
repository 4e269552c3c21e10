/**
 The terminal: an input line with history, a scrollback of output lines, and the window of both that
 fits the screen. `Edit` and `View` are the two halves of its state as values; `Terminal` runs.
 */
module Terminals {
  import opened Options

  const HISTORY_MAX := 64
  const NEWLINE := '\n'
  const CURSOR := "_"

  datatype Key = Char(ch: char) | Backspace | Enter | SoftEnter | Cancel | ScrollUp | ScrollDown | ScrollBottom | Lock

  datatype TerminalAction = Redraw | Execute(command: string) | Nothing

  datatype Cell = Cell(col: nat, row: nat, ch: char)

  /** Cell coordinates are bytes. */
  function AsByte(n: nat): nat {
    n % 256
  }

  // ----- Wrapping

  /** Rows of at most `cols` characters. */
  function Chunks(s: string, cols: nat): seq<string>
    requires cols > 0
    decreases |s|
  {
    if s == "" then []
    else if |s| <= cols then [s]
    else [s[..cols]] + Chunks(s[cols..], cols)
  }

  function Wrapped(s: string, cols: nat): seq<string>
    requires cols > 0
  {
    if s == "" then [""] else Chunks(s, cols)
  }

  method Wrap(s: string, cols: nat) returns (rows: seq<string>)
    requires cols > 0
    ensures rows == Wrapped(s, cols)
  {
    if s == "" {
      return [""];
    }
    rows := [];
    var remaining := s;
    while remaining != ""
      invariant rows + Chunks(remaining, cols) == Chunks(s, cols)
      decreases |remaining|
    {
      var split := if cols < |remaining| then cols else |remaining|;
      assert remaining[..|remaining|] == remaining && remaining[|remaining|..] == "";
      rows := rows + [remaining[..split]];
      remaining := remaining[split..];
    }
  }

  function Joined(rows: seq<string>): string {
    if rows == [] then "" else rows[0] + Joined(rows[1..])
  }

  /** Wrapping loses nothing, and every row is full but the last, which is empty only for an empty text. */
  lemma {:induction false} WrapIsFaithful(s: string, cols: nat)
    requires cols > 0
    ensures var rows := Wrapped(s, cols);
            && Joined(rows) == s
            && rows != []
            && (forall k :: 0 <= k < |rows| - 1 ==> |rows[k]| == cols)
            && |rows[|rows| - 1]| <= cols
            && (s != "" ==> rows[|rows| - 1] != "")
    decreases |s|
  {
    if s == "" || |s| <= cols {
      assert Joined([]) == "";
      assert s + "" == s;
    } else {
      WrapIsFaithful(s[cols..], cols);
      assert Wrapped(s, cols)[1..] == Wrapped(s[cols..], cols);
      assert s == s[..cols] + s[cols..];
    }
  }

  /** Wraps each line on its own. */
  function WrapAll(lines: seq<string>, cols: nat): seq<string>
    requires cols > 0
  {
    if lines == [] then [] else Wrapped(lines[0], cols) + WrapAll(lines[1..], cols)
  }

  lemma Regroup<T>(a: seq<T>, b: seq<T>, c: seq<T>)
    ensures a + (b + c) == a + b + c
  {
  }

  lemma WrapNext(lines: seq<string>, i: nat, cols: nat)
    requires cols > 0 && i < |lines|
    ensures WrapAll(lines[i..], cols) == Wrapped(lines[i], cols) + WrapAll(lines[i + 1..], cols)
  {
    assert lines[i..][1..] == lines[i + 1..];
  }

  ghost predicate Fits(rows: seq<string>, cols: nat) {
    forall k :: 0 <= k < |rows| ==> |rows[k]| <= cols
  }

  lemma {:induction false} WrapAllFits(lines: seq<string>, cols: nat)
    requires cols > 0
    ensures Fits(WrapAll(lines, cols), cols)
  {
    if lines != [] {
      WrapIsFaithful(lines[0], cols);
      WrapAllFits(lines[1..], cols);
    }
  }

  // ----- Splitting at newlines

  function Split(s: string): (lines: seq<string>)
    ensures lines != []
  {
    if s == "" then [""]
    else
      var rest := Split(s[1..]);
      if s[0] == NEWLINE then [""] + rest else [[s[0]] + rest[0]] + rest[1..]
  }

  function Unsplit(lines: seq<string>): string
    requires lines != []
  {
    if |lines| == 1 then lines[0] else lines[0] + [NEWLINE] + Unsplit(lines[1..])
  }

  /** The lines of a text have no newlines in them, and with newlines between make up the text. */
  lemma {:induction false} SplitIsFaithful(s: string)
    ensures Unsplit(Split(s)) == s
    ensures forall k :: 0 <= k < |Split(s)| ==> '\n' !in Split(s)[k]
  {
    if s != "" {
      var rest, lines := Split(s[1..]), Split(s);
      SplitIsFaithful(s[1..]);
      assert s == [s[0]] + s[1..];
      if s[0] == NEWLINE {
        assert lines[1..] == rest;
        assert Unsplit(lines) == "" + [NEWLINE] + Unsplit(rest);
      } else if |rest| > 1 {
        assert lines[1..] == rest[1..];
        assert Unsplit(lines) == [s[0]] + (rest[0] + [NEWLINE] + Unsplit(rest[1..]));
      }
    }
  }

  /** The lines of a prompt, an input and a mark at its end: the prompt leads the first line only. */
  function Decorated(prompt: string, lines: seq<string>, mark: string): seq<string>
    requires lines != []
    decreases |lines|
  {
    if |lines| == 1 then [prompt + lines[0] + mark] else [prompt + lines[0]] + Decorated("", lines[1..], mark)
  }

  lemma {:induction false} DecoratedAt(prompt: string, lines: seq<string>, mark: string, k: nat)
    requires k < |lines|
    ensures |Decorated(prompt, lines, mark)| == |lines|
    ensures Decorated(prompt, lines, mark)[k] ==
            (if k == 0 then prompt else "") + lines[k] + (if k == |lines| - 1 then mark else "")
    decreases |lines|
  {
    if |lines| > 1 {
      DecoratedAt("", lines[1..], mark, if k == 0 then 0 else k - 1);
      assert k == 0 ==> prompt + lines[0] + "" == prompt + lines[0];
    }
  }

  /** They are the lines of the three texts put together. */
  lemma {:induction false} DecoratedIsOneText(prompt: string, input: string, mark: string)
    requires NEWLINE !in prompt && NEWLINE !in mark
    ensures Decorated(prompt, Split(input), mark) == Split(prompt + input + mark)
    decreases |prompt| + |input|
  {
    var text := prompt + input + mark;
    if prompt != "" {
      assert text[1..] == prompt[1..] + input + mark;
      DecoratedIsOneText(prompt[1..], input, mark);
      PromptLeads(prompt, Split(input), mark);
    } else if input != "" {
      assert text[1..] == "" + input[1..] + mark;
      DecoratedIsOneText("", input[1..], mark);
      InputLeads(input, mark);
    } else {
      assert text == mark;
      OneLine(mark);
      assert "" + "" + mark == mark;
    }
  }

  lemma PromptLeads(prompt: string, lines: seq<string>, mark: string)
    requires prompt != "" && lines != []
    ensures var less := Decorated(prompt[1..], lines, mark);
            Decorated(prompt, lines, mark) == [[prompt[0]] + less[0]] + less[1..]
  {
    assert prompt + lines[0] == [prompt[0]] + (prompt[1..] + lines[0]);
    assert prompt + lines[0] + mark == [prompt[0]] + (prompt[1..] + lines[0] + mark);
  }

  lemma InputLeads(input: string, mark: string)
    requires input != ""
    ensures var less := Decorated("", Split(input[1..]), mark);
            Decorated("", Split(input), mark) ==
            if input[0] == NEWLINE then [""] + less else [[input[0]] + less[0]] + less[1..]
  {
    var rest := Split(input[1..]);
    if input[0] == NEWLINE {
      assert ([""] + rest)[1..] == rest;
      assert "" + "" == "";
    } else {
      var lines := [[input[0]] + rest[0]] + rest[1..];
      assert lines[1..] == rest[1..];
      assert "" + lines[0] == [input[0]] + ("" + rest[0]);
      assert "" + lines[0] + mark == [input[0]] + ("" + rest[0] + mark);
    }
  }

  lemma {:induction false} OneLine(s: string)
    requires NEWLINE !in s
    ensures Split(s) == [s]
  {
    if s != "" {
      assert NEWLINE !in s[1..];
      OneLine(s[1..]);
      assert s == [s[0]] + s[1..];
    }
  }

  // ----- The state as values

  datatype Edit = Edit(input: string, cursor: nat, history: seq<string>, walking: Option<nat>)

  datatype View = View(lines: seq<string>, showInput: bool, scroll: nat)

  datatype Shape = Shape(cols: nat, rows: nat, prompt: string)

  /** The input rows: prompt, input and cursor, wrapped line by line. */
  function InputRows(shape: Shape, input: string, showInput: bool): seq<string>
    requires shape.cols > 0
  {
    if showInput then WrapAll(Decorated(shape.prompt, Split(input), CURSOR), shape.cols) else []
  }

  function Min(a: nat, b: nat): nat {
    if a < b then a else b
  }

  function Minus(a: nat, b: nat): nat {
    if a < b then 0 else a - b
  }

  /** How many rows above the input are left for output. */
  function OutputHeight(shape: Shape, input: string, v: View): nat
    requires shape.cols > 0
  {
    Minus(shape.rows, |InputRows(shape, input, v.showInput)|)
  }

  function MaxScroll(shape: Shape, input: string, v: View): nat
    requires shape.cols > 0
  {
    Minus(|WrapAll(v.lines, shape.cols)|, OutputHeight(shape, input, v))
  }

  // ----- Keys

  ghost predicate EditOk(e: Edit) {
    && e.cursor == |e.input|
    && |e.history| <= HISTORY_MAX
    && (forall k :: 0 <= k < |e.history| ==> e.history[k] != "")
    && (forall k :: 0 < k < |e.history| ==> e.history[k - 1] != e.history[k])
    && (e.walking.Some? ==> e.walking.value < |e.history| && e.input == e.history[e.walking.value])
  }

  function Insert(e: Edit, c: char): Edit
    requires e.cursor <= |e.input|
  {
    e.(input := e.input[..e.cursor] + [c] + e.input[e.cursor..], cursor := e.cursor + 1, walking := None)
  }

  function Recall(e: Edit, k: nat): Edit
    requires k < |e.history|
  {
    e.(input := e.history[k], cursor := |e.history[k]|, walking := Some(k))
  }

  /** History with a command added: not if empty or the same as the last, and the oldest makes room. */
  function Remember(history: seq<string>, command: string): seq<string> {
    if command == "" || (history != [] && history[|history| - 1] == command) then history
    else
      var longer := history + [command];
      if |longer| > HISTORY_MAX then longer[1..] else longer
  }

  predicate EditUsable(e: Edit) {
    e.cursor <= |e.input| && (e.walking.Some? ==> e.walking.value < |e.history|)
  }

  function KeyEdit(e: Edit, key: Key): Edit
    requires EditUsable(e)
  {
    match key
    case Char(c) => Insert(e, c)
    case SoftEnter => Insert(e, NEWLINE)
    case Backspace =>
      if e.cursor > 0 then
        e.(input := e.input[..e.cursor - 1] + e.input[e.cursor..], cursor := e.cursor - 1, walking := None)
      else e
    case Cancel =>
      if e.walking.Some? then
        if e.walking.value == 0 then e else Recall(e, e.walking.value - 1)
      else if e.input == "" then
        if e.history == [] then e else Recall(e, |e.history| - 1)
      else e.(input := "", cursor := 0)
    case Enter => Edit("", 0, Remember(e.history, e.input), None)
    case _ => e
  }

  function KeyView(shape: Shape, e: Edit, v: View, key: Key): View
    requires shape.cols > 0
  {
    match key
    case Enter => v.(lines := v.lines + Decorated(shape.prompt, Split(e.input), ""), scroll := 0)
    case ScrollUp => if v.scroll < MaxScroll(shape, e.input, v) then v.(scroll := v.scroll + 1) else v
    case ScrollDown => if v.scroll > 0 then v.(scroll := v.scroll - 1) else v
    case ScrollBottom => v.(scroll := 0)
    case _ => v
  }

  function KeyAction(e: Edit, key: Key): TerminalAction {
    match key
    case Enter => Execute(e.input)
    case Lock => Nothing
    case Backspace => if e.cursor > 0 then Redraw else Nothing
    case Cancel =>
      if e.walking == Some(0) || (e.walking.None? && e.input == "" && e.history == []) then Nothing else Redraw
    case _ => Redraw
  }

  // ----- The picture

  function CellsOfRow(text: string, row: nat, col: nat): seq<Cell> {
    if text == "" then [] else [Cell(AsByte(col), AsByte(row), text[0])] + CellsOfRow(text[1..], row, col + 1)
  }

  function CellsOfRows(texts: seq<string>, row: nat): seq<Cell>
    decreases |texts|
  {
    if texts == [] then [] else CellsOfRow(texts[0], row, 0) + CellsOfRows(texts[1..], row + 1)
  }

  /** What a screen row shows: the window's last row sits right above the input's last rows. */
  function RowText(output: seq<string>, below: seq<string>, rows: nat, scroll: nat, row: nat): string
    requires row < rows
  {
    var height, end := Minus(rows, |below|), Minus(|output|, scroll);
    if row >= height then below[|below| - rows + row]
    else if end + row >= height then output[end + row - height]
    else ""
  }

  function ScreenFrom(output: seq<string>, below: seq<string>, rows: nat, scroll: nat, row: nat): seq<string>
    requires row <= rows
    decreases rows - row
  {
    if row == rows then []
    else [RowText(output, below, rows, scroll, row)] + ScreenFrom(output, below, rows, scroll, row + 1)
  }

  /** The screen, row by row. */
  function Screen(shape: Shape, input: string, v: View): seq<string>
    requires shape.cols > 0
  {
    ScreenFrom(WrapAll(v.lines, shape.cols), InputRows(shape, input, v.showInput), shape.rows, v.scroll, 0)
  }

  class Terminal {
    const cols: nat
    const rows: nat
    const prompt: string
    var lines: seq<string>
    var input: string
    var cursor: nat
    var showInput: bool
    var scroll: nat
    var history: seq<string>
    var walking: Option<nat>

    function TheShape(): Shape {
      Shape(cols, rows, prompt)
    }

    function TheEdit(): Edit
      reads this
    {
      Edit(input, cursor, history, walking)
    }

    function TheView(): View
      reads this
    {
      View(lines, showInput, scroll)
    }

    constructor (prompt: string, cols: nat, rows: nat)
      ensures TheShape() == Shape(cols, rows, prompt)
      ensures TheEdit() == Edit("", 0, [], None) && EditOk(TheEdit())
      ensures TheView() == View([], true, 0)
    {
      this.prompt, this.cols, this.rows := prompt, cols, rows;
      lines, input, cursor, showInput, scroll, history, walking := [], "", 0, true, 0, [], None;
    }

    method Clear()
      modifies this`lines
      ensures TheView() == old(TheView()).(lines := [])
    {
      lines := [];
    }

    method SetShowInput(show: bool)
      modifies this`showInput
      ensures TheView() == old(TheView()).(showInput := show)
    {
      showInput := show;
    }

    method InsertAtCursor(c: char)
      requires cursor <= |input|
      modifies this`input, this`cursor, this`walking
      ensures TheEdit() == Insert(old(TheEdit()), c)
    {
      input := input[..cursor] + [c] + input[cursor..];
      cursor := cursor + 1;
      walking := None;
    }

    method RecallEntry(k: nat)
      requires k < |history|
      modifies this`input, this`cursor, this`walking
      ensures TheEdit() == Recall(old(TheEdit()), k)
    {
      walking := Some(k);
      input := history[k];
      cursor := |input|;
    }

    method RecordCommand(command: string)
      modifies this`lines
      ensures lines == old(lines) + Decorated(prompt, Split(command), "")
    {
      var segments := Split(command);
      ghost var recorded := Decorated(prompt, segments, "");
      DecoratedAt(prompt, segments, "", 0);
      for i := 0 to |segments|
        invariant lines == old(lines) + recorded[..i]
      {
        DecoratedAt(prompt, segments, "", i);
        if i == 0 {
          assert prompt + segments[i] + "" == prompt + segments[i];
          lines := lines + [prompt + segments[i]];
        } else {
          assert "" + segments[i] + "" == segments[i];
          lines := lines + [segments[i]];
        }
        assert recorded[..i] + [recorded[i]] == recorded[..i + 1];
      }
      assert recorded[..|segments|] == recorded;
    }

    method CancelInput() returns (action: TerminalAction)
      requires EditUsable(TheEdit())
      modifies this`input, this`cursor, this`walking
      ensures TheEdit() == KeyEdit(old(TheEdit()), Cancel)
      ensures action == KeyAction(old(TheEdit()), Cancel)
    {
      if walking.Some? {
        if walking.value == 0 {
          return Nothing;
        }
        RecallEntry(walking.value - 1);
        return Redraw;
      }
      if input == "" {
        if history == [] {
          return Nothing;
        }
        RecallEntry(|history| - 1);
      } else {
        input, cursor := "", 0;
      }
      action := Redraw;
    }

    method SubmitInput() returns (action: TerminalAction)
      modifies this
      ensures TheEdit() == Edit("", 0, Remember(old(history), old(input)), None)
      ensures lines == old(lines) + Decorated(prompt, Split(old(input)), "")
      ensures scroll == 0 && showInput == old(showInput)
      ensures action == Execute(old(input))
    {
      var command := input;
      RecordCommand(command);
      if command != "" && !(history != [] && history[|history| - 1] == command) {
        history := history + [command];
        if |history| > HISTORY_MAX {
          history := history[1..];
        }
      }
      walking := None;
      input, cursor, scroll := "", 0, 0;
      action := Execute(command);
    }

    method HandleKey(key: Key) returns (action: TerminalAction)
      requires cols > 0 && EditUsable(TheEdit())
      modifies this
      ensures TheEdit() == KeyEdit(old(TheEdit()), key)
      ensures TheView() == KeyView(TheShape(), old(TheEdit()), old(TheView()), key)
      ensures action == KeyAction(old(TheEdit()), key)
    {
      action := Redraw;
      match key {
        case Char(c) =>
          InsertAtCursor(c);
        case SoftEnter =>
          InsertAtCursor(NEWLINE);
        case Cancel =>
          action := CancelInput();
        case Backspace =>
          if cursor > 0 {
            cursor := cursor - 1;
            input := input[..cursor] + input[cursor + 1..];
            walking := None;
          } else {
            action := Nothing;
          }
        case Enter =>
          action := SubmitInput();
        case ScrollUp =>
          var max := MaxScrollOffset();
          if scroll < max {
            scroll := scroll + 1;
          }
        case ScrollDown =>
          if scroll > 0 {
            scroll := scroll - 1;
          }
        case ScrollBottom =>
          scroll := 0;
        case Lock =>
          action := Nothing;
      }
    }

    method PushOutput(text: string)
      modifies this`lines, this`scroll
      ensures TheView() == View(old(lines) + Split(text), showInput, 0)
    {
      var added := Split(text);
      for i := 0 to |added|
        invariant lines == old(lines) + added[..i]
      {
        lines := lines + [added[i]];
      }
      assert added[..|added|] == added;
      scroll := 0;
    }

    method ReplaceLastOutput(text: string)
      modifies this`lines, this`scroll
      ensures TheView() == View((if old(lines) == [] then [] else old(lines)[..|old(lines)| - 1]) + [text],
                                showInput, 0)
    {
      if lines != [] {
        lines := lines[|lines| - 1 := text];
      } else {
        lines := lines + [text];
      }
      scroll := 0;
    }

    method WrappedOutput() returns (wrapped: seq<string>)
      requires cols > 0
      ensures wrapped == WrapAll(lines, cols)
    {
      wrapped := [];
      assert lines[0..] == lines;
      for i := 0 to |lines|
        invariant wrapped + WrapAll(lines[i..], cols) == WrapAll(lines, cols)
      {
        WrapNext(lines, i, cols);
        var chunks := [""];
        if lines[i] != "" {
          chunks := Wrap(lines[i], cols);
        }
        Regroup(wrapped, chunks, WrapAll(lines[i + 1..], cols));
        wrapped := wrapped + chunks;
      }
    }

    method WrapInputLines() returns (wrapped: seq<string>)
      requires cols > 0
      ensures wrapped == InputRows(TheShape(), input, showInput)
    {
      wrapped := [];
      if !showInput {
        return;
      }
      var segments := Split(input);
      var last := |segments| - 1;
      ghost var texts := Decorated(prompt, segments, CURSOR);
      DecoratedAt(prompt, segments, CURSOR, 0);
      assert texts[0..] == texts;
      for i := 0 to |segments|
        invariant wrapped + WrapAll(texts[i..], cols) == WrapAll(texts, cols)
      {
        DecoratedAt(prompt, segments, CURSOR, i);
        WrapNext(texts, i, cols);
        var row := "";
        if i == 0 {
          row := row + prompt;
        }
        row := row + segments[i];
        if i == last {
          row := row + CURSOR;
        }
        assert row == texts[i];
        var chunks := Wrap(row, cols);
        Regroup(wrapped, chunks, WrapAll(texts[i + 1..], cols));
        wrapped := wrapped + chunks;
      }
    }

    method InputRowCount() returns (n: nat)
      requires cols > 0
      ensures n == Min(|InputRows(TheShape(), input, showInput)|, rows)
    {
      var wrapped := WrapInputLines();
      n := if |wrapped| < rows then |wrapped| else rows;
    }

    method MaxScrollOffset() returns (max: nat)
      requires cols > 0
      ensures max == MaxScroll(TheShape(), input, TheView())
    {
      var n := InputRowCount();
      var output := WrappedOutput();
      max := Minus(|output|, Minus(rows, n));
    }

    /** The cells of one row. */
    method PlaceRow(text: string, row: nat) returns (cells: seq<Cell>)
      ensures cells == CellsOfRow(text, row, 0)
    {
      cells := [];
      assert text[0..] == text;
      for col := 0 to |text|
        invariant cells + CellsOfRow(text[col..], row, col) == CellsOfRow(text, row, 0)
      {
        assert text[col..][1..] == text[col + 1..];
        cells := cells + [Cell(AsByte(col), AsByte(row), text[col])];
      }
    }

    /** The cells of some rows, the first of them at screen row `top`. */
    method Place(texts: seq<string>, top: nat) returns (cells: seq<Cell>)
      ensures cells == CellsOfRows(texts, top)
    {
      cells := [];
      assert texts[0..] == texts;
      for i := 0 to |texts|
        invariant cells + CellsOfRows(texts[i..], top + i) == CellsOfRows(texts, top)
      {
        assert texts[i..][1..] == texts[i + 1..];
        var more := PlaceRow(texts[i], top + i);
        cells := cells + more;
      }
    }

    /** The cells of the window: the output that scroll selects above, the input's last rows below. */
    method PlaceWindow(output: seq<string>, below: seq<string>) returns (cells: seq<Cell>)
      ensures cells == CellsOfRows(ScreenFrom(output, below, rows, scroll, 0), 0)
    {
      WindowIsScreen(output, below, rows, scroll);
      var inputRowCount := if |below| < rows then |below| else rows;
      var rowsForOutput := Minus(rows, inputRowCount);
      var end := Minus(|output|, scroll);
      var start := Minus(end, rowsForOutput);
      var visible := output[start..end];
      cells := Place(visible, rowsForOutput - |visible|);
      var inputVisible := if |below| > inputRowCount then below[|below| - inputRowCount..] else below;
      var more := Place(inputVisible, rows - inputRowCount);
      assert visible == Visible(output, below, rows, scroll) && inputVisible == Kept(below, rows);
      cells := cells + more;
    }

    method Render() returns (cells: seq<Cell>)
      requires cols > 0
      ensures cells == CellsOfRows(Screen(TheShape(), input, TheView()), 0)
    {
      var below := WrapInputLines();
      var output := WrappedOutput();
      cells := PlaceWindow(output, below);
    }
  }

  // ----- The window on the screen

  function Blanks(n: nat): seq<string> {
    if n == 0 then [] else [""] + Blanks(n - 1)
  }

  lemma {:induction false} CellsConcat(a: seq<string>, b: seq<string>, row: nat)
    ensures CellsOfRows(a + b, row) == CellsOfRows(a, row) + CellsOfRows(b, row + |a|)
    decreases |a|
  {
    if a == [] {
      assert a + b == b;
    } else {
      assert (a + b)[1..] == a[1..] + b;
      CellsConcat(a[1..], b, row + 1);
    }
  }

  lemma {:induction false} BlanksShowNothing(n: nat, row: nat)
    ensures |Blanks(n)| == n && CellsOfRows(Blanks(n), row) == []
    ensures forall k :: 0 <= k < n ==> Blanks(n)[k] == ""
  {
    if n > 0 {
      BlanksShowNothing(n - 1, row + 1);
    }
  }

  lemma {:induction false} ScreenHeight(output: seq<string>, below: seq<string>, rows: nat, scroll: nat, row: nat)
    requires row <= rows
    ensures |ScreenFrom(output, below, rows, scroll, row)| == rows - row
    decreases rows - row
  {
    if row < rows {
      ScreenHeight(output, below, rows, scroll, row + 1);
    }
  }

  lemma {:induction false} ScreenRowAt(output: seq<string>, below: seq<string>, rows: nat, scroll: nat,
                                       row: nat, k: nat)
    requires row <= k < rows && |ScreenFrom(output, below, rows, scroll, row)| == rows - row
    ensures ScreenFrom(output, below, rows, scroll, row)[k - row] == RowText(output, below, rows, scroll, k)
    decreases k - row
  {
    if row < k {
      ScreenHeight(output, below, rows, scroll, row + 1);
      ScreenRowAt(output, below, rows, scroll, row + 1, k);
    }
  }

  /** The part of the output in the window. */
  function Visible(output: seq<string>, below: seq<string>, rows: nat, scroll: nat): seq<string> {
    var end := Minus(|output|, scroll);
    output[Minus(end, Minus(rows, |below|))..end]
  }

  /** The part of the input that fits. */
  function Kept(below: seq<string>, rows: nat): seq<string> {
    below[|below| - Min(|below|, rows)..]
  }

  lemma WindowHeight(output: seq<string>, below: seq<string>, rows: nat, scroll: nat)
    ensures |Visible(output, below, rows, scroll)| + |Kept(below, rows)| <= rows
  {
  }

  /** A row beside the input shows a row of the input's last ones. */
  lemma KeptRow(output: seq<string>, below: seq<string>, rows: nat, scroll: nat, row: nat)
    requires Minus(rows, |below|) <= row < rows
    ensures var kept := Kept(below, rows);
            0 <= row - (rows - |kept|) < |kept|
            && RowText(output, below, rows, scroll, row) == kept[row - (rows - |kept|)]
  {
  }

  /** A row above the input shows a row of the window, or is blank above it. */
  lemma VisibleRow(output: seq<string>, below: seq<string>, rows: nat, scroll: nat, row: nat)
    requires row < Minus(rows, |below|)
    ensures var visible, height := Visible(output, below, rows, scroll), Minus(rows, |below|);
            RowText(output, below, rows, scroll, row) ==
            if row + |visible| >= height then visible[row + |visible| - height] else ""
  {
    var visible, height := Visible(output, below, rows, scroll), Minus(rows, |below|);
    var end := Minus(|output|, scroll);
    if row + |visible| >= height {
      assert visible[row + |visible| - height] == output[end - |visible| + (row + |visible| - height)];
    }
  }

  /** A screen of blank rows, `visible` and `kept` from the top down has the cells of the latter two. */
  lemma StackedCells(screen: seq<string>, height: nat, visible: seq<string>, kept: seq<string>)
    requires |screen| == height + |kept| && |visible| <= height
    requires forall k :: 0 <= k < height ==>
               screen[k] == if k + |visible| >= height then visible[k + |visible| - height] else ""
    requires forall k :: height <= k < |screen| ==> screen[k] == kept[k - height]
    ensures CellsOfRows(visible, height - |visible|) + CellsOfRows(kept, height) == CellsOfRows(screen, 0)
  {
    var top := height - |visible|;
    BlanksShowNothing(top, 0);
    assert screen == Blanks(top) + (visible + kept);
    CellsConcat(Blanks(top), visible + kept, 0);
    CellsConcat(visible, kept, top);
  }

  /** Blank rows, the window of the output and the input's last rows make up the screen. */
  lemma WindowIsScreen(output: seq<string>, below: seq<string>, rows: nat, scroll: nat)
    ensures var visible, kept := Visible(output, below, rows, scroll), Kept(below, rows);
            var top := rows - |kept| - |visible|;
            top >= 0
            && CellsOfRows(visible, top) + CellsOfRows(kept, rows - |kept|)
               == CellsOfRows(ScreenFrom(output, below, rows, scroll, 0), 0)
  {
    var screen, height := ScreenFrom(output, below, rows, scroll, 0), Minus(rows, |below|);
    var visible, kept := Visible(output, below, rows, scroll), Kept(below, rows);
    ScreenHeight(output, below, rows, scroll, 0);
    WindowHeight(output, below, rows, scroll);
    forall k | 0 <= k < height
      ensures screen[k] == if k + |visible| >= height then visible[k + |visible| - height] else ""
    {
      VisibleRow(output, below, rows, scroll, k);
      ScreenRowAt(output, below, rows, scroll, 0, k);
    }
    forall k | height <= k < |screen|
      ensures screen[k] == kept[k - height]
    {
      KeptRow(output, below, rows, scroll, k);
      ScreenRowAt(output, below, rows, scroll, 0, k);
    }
    StackedCells(screen, height, visible, kept);
  }

  // ----- The cells are the picture

  /** Reading order: upper rows first, and each row from the left. */
  predicate Precedes(a: Cell, b: Cell) {
    a.row < b.row || (a.row == b.row && a.col < b.col)
  }

  /** The cell shows a character of these rows, the first of them at screen row `row`. */
  predicate Shows(cell: Cell, texts: seq<string>, row: nat) {
    row <= cell.row < row + |texts| && cell.col < |texts[cell.row - row]| && cell.ch == texts[cell.row - row][cell.col]
  }

  /** One cell a character, left to right, its position as bytes. */
  lemma {:induction false} RowCells(text: string, row: nat, col: nat)
    ensures var cells := CellsOfRow(text, row, col);
            |cells| == |text| && forall k :: 0 <= k < |text| ==> cells[k] == Cell((col + k) % 256, row % 256, text[k])
  {
    if text != "" {
      RowCells(text[1..], row, col + 1);
    }
  }

  ghost predicate AllShow(cells: seq<Cell>, texts: seq<string>, row: nat) {
    forall i :: 0 <= i < |cells| ==> Shows(cells[i], texts, row)
  }

  ghost predicate InOrder(cells: seq<Cell>) {
    forall i, j :: 0 <= i < j < |cells| ==> Precedes(cells[i], cells[j])
  }

  lemma PutAbove(first: seq<Cell>, rest: seq<Cell>, texts: seq<string>, row: nat)
    requires texts != [] && |first| == |texts[0]|
    requires forall k :: 0 <= k < |first| ==> first[k] == Cell(k, row, texts[0][k])
    requires AllShow(rest, texts[1..], row + 1) && InOrder(rest)
    ensures AllShow(first + rest, texts, row) && InOrder(first + rest)
  {
    var cells := first + rest;
    forall i | 0 <= i < |cells|
      ensures Shows(cells[i], texts, row)
    {
      if i >= |first| {
        assert Shows(rest[i - |first|], texts[1..], row + 1);
      }
    }
    forall i, j | 0 <= i < j < |cells|
      ensures Precedes(cells[i], cells[j])
    {
      if i >= |first| {
        assert Precedes(rest[i - |first|], rest[j - |first|]);
      } else if j >= |first| {
        assert Shows(rest[j - |first|], texts[1..], row + 1);
      }
    }
  }

  /** The cells of some rows: each shows a character in its place, and no two share a place. */
  lemma {:induction false} CellsAreRows(texts: seq<string>, row: nat)
    requires row + |texts| <= 256 && Fits(texts, 256)
    ensures AllShow(CellsOfRows(texts, row), texts, row) && InOrder(CellsOfRows(texts, row))
    decreases |texts|
  {
    if texts != [] {
      RowCells(texts[0], row, 0);
      CellsAreRows(texts[1..], row + 1);
      PutAbove(CellsOfRow(texts[0], row, 0), CellsOfRows(texts[1..], row + 1), texts, row);
    }
  }

  /** And every character of the rows has its cell. */
  lemma {:induction false} RowsAreCells(texts: seq<string>, row: nat, k: nat, col: nat)
    requires row + |texts| <= 256 && Fits(texts, 256)
    requires k < |texts| && col < |texts[k]|
    ensures Cell(col, row + k, texts[k][col]) in CellsOfRows(texts, row)
    decreases |texts|
  {
    RowCells(texts[0], row, 0);
    if k == 0 {
      assert CellsOfRows(texts, row)[col] == Cell(col, row, texts[0][col]);
    } else {
      RowsAreCells(texts[1..], row + 1, k - 1, col);
    }
  }

  lemma ScreenFits(shape: Shape, input: string, v: View)
    requires shape.cols > 0
    ensures |Screen(shape, input, v)| == shape.rows && Fits(Screen(shape, input, v), shape.cols)
  {
    var output, below := WrapAll(v.lines, shape.cols), InputRows(shape, input, v.showInput);
    WrapAllFits(v.lines, shape.cols);
    if v.showInput {
      WrapAllFits(Decorated(shape.prompt, Split(input), CURSOR), shape.cols);
    }
    var screen := Screen(shape, input, v);
    ScreenHeight(output, below, shape.rows, v.scroll, 0);
    forall k | 0 <= k < |screen|
      ensures |screen[k]| <= shape.cols
    {
      ScreenRowAt(output, below, shape.rows, v.scroll, 0, k);
    }
  }

  /**
   On any screen that byte coordinates can address, the rendered cells are in range, no two of them
   at one position, and together they are exactly the characters of the screen's rows.
   */
  lemma RenderedCellsAreTheScreen(shape: Shape, input: string, v: View)
    requires 0 < shape.cols <= 256 && shape.rows <= 256
    ensures var screen := Screen(shape, input, v);
            var cells := CellsOfRows(screen, 0);
            && (forall i :: 0 <= i < |cells| ==>
                  cells[i].row < shape.rows && cells[i].col < shape.cols && Shows(cells[i], screen, 0))
            && (forall i, j :: 0 <= i < j < |cells| ==> (cells[i].col, cells[i].row) != (cells[j].col, cells[j].row))
            && (forall k, col :: 0 <= k < |screen| && 0 <= col < |screen[k]| ==> Cell(col, k, screen[k][col]) in cells)
  {
    ScreenFits(shape, input, v);
    var screen := Screen(shape, input, v);
    CellsAreRows(screen, 0);
    var cells := CellsOfRows(screen, 0);
    forall i, j | 0 <= i < j < |cells|
      ensures (cells[i].col, cells[i].row) != (cells[j].col, cells[j].row)
    {
      assert Precedes(cells[i], cells[j]);
    }
    forall k, col | 0 <= k < |screen| && 0 <= col < |screen[k]|
      ensures Cell(col, k, screen[k][col]) in CellsOfRows(screen, 0)
    {
      RowsAreCells(screen, 0, k, col);
    }
  }

  // ----- Scrolling

  /** Scrolling up one row, where it is allowed, moves the output down one row and leaves the input. */
  lemma ScrollUpShifts(output: seq<string>, below: seq<string>, rows: nat, scroll: nat, row: nat)
    requires row < rows && scroll < Minus(|output|, Minus(rows, |below|))
    ensures var height := Minus(rows, |below|);
            RowText(output, below, rows, scroll + 1, row) ==
            if row >= height then RowText(output, below, rows, scroll, row)
            else if row > 0 then RowText(output, below, rows, scroll, row - 1)
            else output[|output| - scroll - 1 - height]
  {
  }

  /** A scroll within bounds, and a row above the input, at which an output row is shown. */
  lemma RowSeenAt(output: seq<string>, below: seq<string>, rows: nat, k: nat) returns (scroll: nat, row: nat)
    requires k < |output| && |below| < rows
    ensures scroll <= Minus(|output|, Minus(rows, |below|)) && row < Minus(rows, |below|)
    ensures RowText(output, below, rows, scroll, row) == output[k]
  {
    var height := Minus(rows, |below|);
    scroll := Min(Minus(|output|, height), |output| - 1 - k);
    row := height - (|output| - scroll) + k;
  }

  /** The view after the scroll-up key was pressed `n` times. */
  function ScrolledUp(shape: Shape, e: Edit, v: View, n: nat): View
    requires shape.cols > 0
  {
    if n == 0 then v else KeyView(shape, e, ScrolledUp(shape, e, v, n - 1), ScrollUp)
  }

  lemma {:induction false} ScrollUpReaches(shape: Shape, e: Edit, v: View, n: nat)
    requires shape.cols > 0 && v.scroll + n <= MaxScroll(shape, e.input, v)
    ensures ScrolledUp(shape, e, v, n) == v.(scroll := v.scroll + n)
  {
    if n > 0 {
      ScrollUpReaches(shape, e, v, n - 1);
    }
  }

  /**
   Wherever the view is scrolled, jumping to the bottom and pressing scroll-up some number of times
   brings any given row of output into view, unless the input fills the screen.
   */
  lemma EveryOutputRowCanBeSeen(shape: Shape, e: Edit, v: View, k: nat) returns (n: nat, row: nat)
    requires shape.cols > 0 && k < |WrapAll(v.lines, shape.cols)|
    requires |InputRows(shape, e.input, v.showInput)| < shape.rows
    ensures var seen := ScrolledUp(shape, e, KeyView(shape, e, v, ScrollBottom), n);
            && row < |Screen(shape, e.input, seen)|
            && Screen(shape, e.input, seen)[row] == WrapAll(v.lines, shape.cols)[k]
  {
    var output, below := WrapAll(v.lines, shape.cols), InputRows(shape, e.input, v.showInput);
    n, row := RowSeenAt(output, below, shape.rows, k);
    ScrollUpReaches(shape, e, v.(scroll := 0), n);
    ScreenAt(shape, e.input, v.(scroll := n), row);
  }

  lemma ScreenAt(shape: Shape, input: string, v: View, row: nat)
    requires shape.cols > 0 && row < shape.rows
    ensures |Screen(shape, input, v)| == shape.rows
    ensures Screen(shape, input, v)[row] ==
            RowText(WrapAll(v.lines, shape.cols), InputRows(shape, input, v.showInput), shape.rows, v.scroll, row)
  {
    var output, below := WrapAll(v.lines, shape.cols), InputRows(shape, input, v.showInput);
    ScreenHeight(output, below, shape.rows, v.scroll, 0);
    ScreenRowAt(output, below, shape.rows, v.scroll, 0, row);
  }

  // ----- Runs of keys

  /** What the editor holds, and the commands it has handed out. */
  datatype Session = Session(edit: Edit, executed: seq<string>)

  function Press(s: Session, key: Key): Session
    requires EditUsable(s.edit)
  {
    var action := KeyAction(s.edit, key);
    Session(KeyEdit(s.edit, key), if action.Execute? then s.executed + [action.command] else s.executed)
  }

  const STARTED := Session(Edit("", 0, [], None), [])

  /** The commands worth remembering: not empty, and not the same as the one before. */
  function Distinct(commands: seq<string>): seq<string> {
    if commands == [] then []
    else
      var before, last := Distinct(commands[..|commands| - 1]), commands[|commands| - 1];
      if last == "" || (before != [] && before[|before| - 1] == last) then before else before + [last]
  }

  function Newest(s: seq<string>, n: nat): seq<string> {
    s[Minus(|s|, n)..]
  }

  /** Adding at the end of the newest: the oldest of them makes room. */
  lemma NewestAppend(all: seq<string>, c: string)
    ensures var longer := Newest(all, HISTORY_MAX) + [c];
            Newest(all + [c], HISTORY_MAX) == if |longer| > HISTORY_MAX then longer[1..] else longer
  {
  }

  lemma NewestLast(all: seq<string>)
    requires all != []
    ensures Newest(all, HISTORY_MAX) != []
    ensures Newest(all, HISTORY_MAX)[|Newest(all, HISTORY_MAX)| - 1] == all[|all| - 1]
  {
  }

  lemma RememberNewest(commands: seq<string>, command: string)
    ensures Remember(Newest(Distinct(commands), HISTORY_MAX), command)
            == Newest(Distinct(commands + [command]), HISTORY_MAX)
  {
    var all := Distinct(commands);
    assert (commands + [command])[..|commands|] == commands;
    NewestAppend(all, command);
    if all != [] {
      NewestLast(all);
    }
  }

  lemma RememberKeeps(e: Edit)
    requires EditOk(e)
    ensures EditOk(KeyEdit(e, Enter))
  {
    var history := Remember(e.history, e.input);
    forall k | 0 < k < |history|
      ensures history[k - 1] != history[k]
    {
    }
  }

  lemma KeyKeeps(e: Edit, key: Key)
    requires EditOk(e)
    ensures EditOk(KeyEdit(e, key))
    ensures key != Enter ==> KeyEdit(e, key).history == e.history
  {
    if key == Enter {
      RememberKeeps(e);
    }
  }

  /** The session after some keys. */
  function PressAll(keys: seq<Key>): (s: Session)
    ensures EditOk(s.edit)
    decreases |keys|
  {
    if keys == [] then STARTED
    else
      var before, last := PressAll(keys[..|keys| - 1]), keys[|keys| - 1];
      KeyKeeps(before.edit, last);
      Press(before, last)
  }

  /**
   Over every run of keys: the cursor is at the end of the input; the history is the newest 64 of the
   commands worth remembering, with no empty one and no repeat; and a position in it means the input
   is that command.
   */
  lemma {:induction false} HistoryIsWhatWasRun(keys: seq<Key>)
    ensures var s := PressAll(keys);
            var e := s.edit;
            && e.cursor == |e.input|
            && e.history == Newest(Distinct(s.executed), 64)
            && |e.history| <= 64
            && (forall k :: 0 <= k < |e.history| ==> e.history[k] != "")
            && (forall k :: 0 < k < |e.history| ==> e.history[k - 1] != e.history[k])
            && (e.walking.Some? ==> e.walking.value < |e.history| && e.input == e.history[e.walking.value])
    decreases |keys|
  {
    assert EditOk(PressAll(keys).edit);
    if keys != [] {
      var before, last := PressAll(keys[..|keys| - 1]), keys[|keys| - 1];
      HistoryIsWhatWasRun(keys[..|keys| - 1]);
      KeyKeeps(before.edit, last);
      if last == Enter {
        RememberNewest(before.executed, before.edit.input);
      }
    }
  }

  function PressCancel(e: Edit, n: nat): (r: Edit)
    requires EditOk(e)
    ensures EditOk(r)
  {
    if n == 0 then e
    else
      KeyKeeps(PressCancel(e, n - 1), Cancel);
      KeyEdit(PressCancel(e, n - 1), Cancel)
  }

  /** From an empty line, `n` cancels recall the command run `n` before, stopping at the oldest. */
  lemma {:induction false} CancelWalksBack(e: Edit, n: nat)
    requires EditOk(e) && e.input == "" && e.walking.None? && e.history != [] && n > 0
    ensures PressCancel(e, n) == Recall(e, Minus(|e.history|, n))
    ensures KeyAction(PressCancel(e, n), Cancel) == if n < |e.history| then Redraw else Nothing
  {
    if n > 1 {
      CancelWalksBack(e, n - 1);
    } else {
      assert PressCancel(e, 0) == e;
    }
  }

  function KeyFor(c: char): Key {
    if c == NEWLINE then SoftEnter else Char(c)
  }

  function Typed(e: Edit, text: string): (r: Edit)
    requires EditOk(e)
    ensures EditOk(r)
    decreases |text|
  {
    if text == "" then e
    else
      KeyKeeps(e, KeyFor(text[0]));
      Typed(KeyEdit(e, KeyFor(text[0])), text[1..])
  }

  /** What is typed, newlines included, is what Enter hands out; and the line is empty again. */
  lemma {:induction false} TypedIsExecuted(e: Edit, text: string)
    requires EditOk(e)
    ensures Typed(e, text).input == e.input + text
    ensures KeyAction(Typed(e, text), Enter) == Execute(e.input + text)
    ensures KeyEdit(Typed(e, text), Enter).input == ""
    decreases |text|
  {
    if text == "" {
      assert e.input + text == e.input;
    } else {
      var next := KeyEdit(e, KeyFor(text[0]));
      TypedIsExecuted(next, text[1..]);
      assert next.input + text[1..] == e.input + text;
    }
  }

  /** Backspace undoes a character typed, but not that typing left the history. */
  lemma BackspaceUndoes(e: Edit, c: char)
    requires EditOk(e)
    ensures KeyEdit(KeyEdit(e, KeyFor(c)), Backspace) == e.(walking := None)
  {
    var typed := KeyEdit(e, KeyFor(c)).input;
    assert typed[..|e.input|] + typed[|e.input| + 1..] == e.input;
  }
}
