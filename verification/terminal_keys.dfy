/** What each key does to the line, the view and the screen. */
module TerminalKeys {
  import opened Options
  import opened Terminals

  // ----- What a key answers

  predicate Scrolls(key: Key) {
    key in {ScrollUp, ScrollDown, ScrollBottom}
  }

  /**
   Enter hands out the line; scroll keys always ask for a redraw; any other key leaves the view alone,
   and says that nothing changed exactly when it changed nothing.
   */
  lemma AnswerOfKey(shape: Shape, e: Edit, v: View, key: Key)
    requires shape.cols > 0 && EditUsable(e)
    ensures key == Enter ==> KeyAction(e, key) == Execute(e.input)
    ensures Scrolls(key) ==> KeyAction(e, key) == Redraw && KeyEdit(e, key) == e
    ensures key != Enter && !Scrolls(key) ==>
              && KeyView(shape, e, v, key) == v
              && (KeyAction(e, key) == Nothing <==> KeyEdit(e, key) == e)
              && (KeyAction(e, key) == Redraw <==> KeyEdit(e, key) != e)
  {
    if key.Char? || key.SoftEnter? {
      assert |KeyEdit(e, key).input| == |e.input| + 1;
    }
  }

  /** A key that says nothing visible changed leaves the screen as it was. */
  lemma NothingLeavesScreen(shape: Shape, e: Edit, v: View, key: Key)
    requires shape.cols > 0 && EditUsable(e) && KeyAction(e, key) == Nothing
    ensures Screen(shape, KeyEdit(e, key).input, KeyView(shape, e, v, key)) == Screen(shape, e.input, v)
  {
    AnswerOfKey(shape, e, v, key);
  }

  // ----- The line

  /** A character goes in at the cursor, which moves past it; a soft Enter is a line feed. */
  lemma CharGoesIn(e: Edit, c: char)
    requires EditUsable(e)
    ensures var f := KeyEdit(e, Char(c));
            && |f.input| == |e.input| + 1 && f.input[e.cursor] == c
            && f.input[..e.cursor] == e.input[..e.cursor] && f.input[e.cursor + 1..] == e.input[e.cursor..]
            && f.cursor == e.cursor + 1 && f.walking.None? && f.history == e.history
    ensures KeyEdit(e, SoftEnter) == KeyEdit(e, Char('\n'))
  {
  }

  /** Cancel on a typed line empties it and keeps the history. */
  lemma CancelClears(e: Edit)
    requires EditUsable(e) && e.walking.None? && e.input != ""
    ensures KeyEdit(e, Cancel) == Edit("", 0, e.history, None)
  {
  }

  /** Cancel with nothing further back, or no history at all, does nothing. */
  lemma CancelStops(e: Edit)
    requires EditUsable(e) && (e.walking == Some(0) || (e.walking.None? && e.input == "" && e.history == []))
    ensures KeyEdit(e, Cancel) == e && KeyAction(e, Cancel) == Nothing
  {
  }

  // ----- The view

  /**
   Enter echoes the command below the output, the prompt before its first line, one line of output for
   each of its own; the view is at the bottom and the line is empty.
   */
  lemma EnterEchoes(shape: Shape, e: Edit, v: View)
    requires shape.cols > 0 && EditUsable(e)
    ensures var seen, typed := KeyView(shape, e, v, Enter), Split(e.input);
            && seen.scroll == 0 && seen.showInput == v.showInput
            && |seen.lines| == |v.lines| + |typed|
            && (forall k :: 0 <= k < |v.lines| ==> seen.lines[k] == v.lines[k])
            && seen.lines[|v.lines|] == shape.prompt + typed[0]
            && (forall k :: 0 < k < |typed| ==> seen.lines[|v.lines| + k] == typed[k])
    ensures KeyEdit(e, Enter).input == "" && KeyEdit(e, Enter).cursor == 0 && KeyEdit(e, Enter).walking.None?
  {
    var typed := Split(e.input);
    var echo := Decorated(shape.prompt, typed, "");
    forall k | 0 <= k < |typed|
      ensures |echo| == |typed| && echo[k] == (if k == 0 then shape.prompt + typed[0] else typed[k])
    {
      DecoratedAt(shape.prompt, typed, "", k);
      assert "" + typed[k] + "" == typed[k];
      assert shape.prompt + typed[0] + "" == shape.prompt + typed[0];
    }
  }

  /** Scrolling up goes one row up until the oldest row is shown; scrolling down undoes it. */
  lemma ScrollDownUndoes(shape: Shape, e: Edit, v: View)
    requires shape.cols > 0
    ensures v.scroll < MaxScroll(shape, e.input, v) ==>
              var up := KeyView(shape, e, v, ScrollUp);
              up.scroll == v.scroll + 1 && KeyView(shape, e, up, ScrollDown) == v
    ensures v.scroll >= MaxScroll(shape, e.input, v) ==> KeyView(shape, e, v, ScrollUp) == v
    ensures v.scroll == 0 ==> KeyView(shape, e, v, ScrollDown) == v
    ensures v.scroll > 0 ==> KeyView(shape, e, v, ScrollDown) == v.(scroll := v.scroll - 1)
    ensures KeyView(shape, e, v, ScrollBottom) == v.(scroll := 0)
  {
  }

  /** A number of scroll-down keys. */
  function ScrolledDown(shape: Shape, e: Edit, v: View, n: nat): View
    requires shape.cols > 0
  {
    if n == 0 then v else KeyView(shape, e, ScrolledDown(shape, e, v, n - 1), ScrollDown)
  }

  lemma {:induction false} ScrollDownReaches(shape: Shape, e: Edit, v: View, n: nat)
    requires shape.cols > 0
    ensures ScrolledDown(shape, e, v, n) == v.(scroll := if n < v.scroll then v.scroll - n else 0)
  {
    if n > 0 {
      ScrollDownReaches(shape, e, v, n - 1);
    }
  }

  /** As many scroll-down keys as scroll-up keys lead back, wherever the top lies. */
  lemma DownUndoesUp(shape: Shape, e: Edit, v: View, n: nat)
    requires shape.cols > 0 && v.scroll + n <= MaxScroll(shape, e.input, v)
    ensures ScrolledDown(shape, e, ScrolledUp(shape, e, v, n), n) == v
  {
    ScrollUpReaches(shape, e, v, n);
    ScrollDownReaches(shape, e, v.(scroll := v.scroll + n), n);
  }

  // ----- The rows of the input

  /** Shown, the input is one text of prompt, line and underscore; hidden, every row is output. */
  lemma InputIsOneText(shape: Shape, input: string, v: View)
    requires shape.cols > 0 && '\n' !in shape.prompt
    ensures InputRows(shape, input, true) == WrapAll(Split(shape.prompt + input + "_"), shape.cols)
    ensures InputRows(shape, input, false) == []
    ensures !v.showInput ==> OutputHeight(shape, input, v) == shape.rows
  {
    DecoratedIsOneText(shape.prompt, input, "_");
  }

  /** With the input hidden the screen does not depend on it. */
  lemma HiddenInputNotSeen(shape: Shape, a: string, b: string, v: View)
    requires shape.cols > 0 && !v.showInput
    ensures Screen(shape, a, v) == Screen(shape, b, v)
  {
  }
}
