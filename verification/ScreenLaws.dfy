/** What the screen operations mean for each other: which cells they can touch, what
    undoes what, what a whole run of them cannot change (internal/terminal/screen.go). */
module ScreenLaws {
  import opened ScreenModel

  /** The cell of the active grid in line i, column j. */
  function CellAt(s: State, i: int, j: int): Cell
    requires Ok(s) && 0 <= i < s.rows && 0 <= j < s.cols
  {
    Active(s).cells[i][j]
  }

  // ----- one rune -----

  /** A rune with no wrap pending changes the cell under the cursor and no other, and
      moves one column on or arms the wrap. */
  lemma RuneTouchesOneCell(s: State, rune: int)
    requires Ok(s) && !s.wrapPending
    ensures var r := Apply(s, PutRune(rune)); var x, y := Active(s).x, Active(s).y;
      && Ok(r) && r.cols == s.cols && r.rows == s.rows && r.altActive == s.altActive
      && r.evicted == s.evicted && (if s.altActive then r.main == s.main else r.alt == s.alt)
      && (forall i, j :: 0 <= i < s.rows && 0 <= j < s.cols ==>
            CellAt(r, i, j) == if i == y && j == x then s.pen.(rune := rune) else CellAt(s, i, j))
      && Active(r).y == y && Active(r).x == (if x == s.cols - 1 then x else x + 1)
      && (r.wrapPending <==> x == s.cols - 1)
  {
    hide LineFeedFrom, ReverseFrom, Sgr, ResizeTo, EditedRow, EditedLines;
    ApplyOk(s, PutRune(rune));
  }

  function Typed(pen: Cell, word: seq<int>): (cells: seq<Cell>)
    ensures |cells| == |word|
  {
    seq(|word|, i requires 0 <= i < |word| => pen.(rune := word[i]))
  }

  function Runes(word: seq<int>): (ops: seq<Op>)
    ensures |ops| == |word|
  {
    seq(|word|, i requires 0 <= i < |word| => PutRune(word[i]))
  }

  /** Typing a word that fits into the line writes exactly its cells, left to right, and
      leaves the cursor behind it, or in the last column with a wrap pending. */
  lemma {:induction false} TypeInLine(s: State, word: seq<int>)
    requires Ok(s) && !s.wrapPending && |word| <= s.cols - Active(s).x
    ensures var r := Run(s, Runes(word)); var x, y := Active(s).x, Active(s).y; var row := Active(s).cells[y];
      && r.cols == s.cols && r.rows == s.rows && r.pen == s.pen && r.altActive == s.altActive
      && Active(r).cells == Active(s).cells[y := row[..x] + Typed(s.pen, word) + row[x + |word|..]]
      && Active(r).y == y && r.evicted == s.evicted
      && (if x + |word| < s.cols then Active(r).x == x + |word| && !r.wrapPending
          else Active(r).x == s.cols - 1 && (word != [] ==> r.wrapPending))
  {
    hide Apply;
    var x, y := Active(s).x, Active(s).y;
    var row := Active(s).cells[y];
    if word == [] {
      assert row[..x] + [] + row[x..] == row;
      assert Typed(s.pen, word) == [];
    } else {
      var front, last := word[..|word| - 1], word[|word| - 1];
      TypeInLine(s, front);
      var m := Run(s, Runes(front));
      assert Runes(word)[..|word| - 1] == Runes(front);
      TypeOne(m, last);
      var written := row[..x] + Typed(s.pen, front) + row[x + |front|..];
      assert Typed(s.pen, word) == Typed(s.pen, front) + [s.pen.(rune := last)];
      assert written[x + |front| := s.pen.(rune := last)] == row[..x] + Typed(s.pen, word) + row[x + |word|..];
    }
  }

  lemma TypeOne(s: State, rune: int)
    requires Ok(s) && !s.wrapPending
    ensures var r := Apply(s, PutRune(rune)); var x, y := Active(s).x, Active(s).y;
      && r.cols == s.cols && r.rows == s.rows && r.pen == s.pen && r.altActive == s.altActive && r.evicted == s.evicted
      && Active(r).cells == Active(s).cells[y := Active(s).cells[y][x := s.pen.(rune := rune)]]
      && Active(r).y == y && Active(r).x == (if x == s.cols - 1 then x else x + 1)
      && (r.wrapPending <==> x == s.cols - 1)
  {
    hide LineFeedFrom, ReverseFrom, Sgr, ResizeTo, EditedRow, EditedLines;
  }

  // ----- typing across lines -----

  /** Everything written so far, as one page without end: the evicted lines and the
      screen below them. */
  function WholePage(s: State): seq<seq<Cell>> {
    s.evicted + s.main.cells
  }

  /** The page, with one more blank line if it does not reach to `line`. */
  function Reaching(s: State, line: int): (page: seq<seq<Cell>>)
    ensures line <= |WholePage(s)| ==> line < |page|
  {
    if line < |WholePage(s)| then WholePage(s) else WholePage(s) + [Repeat(s.cols, Blank(s))]
  }

  function CursorLine(s: State): int {
    |s.evicted| + s.main.y
  }

  /** Counting cells from the top of the page, `cols` to a line. */
  function Slot(cols: int, line: int, column: int): int {
    line * cols + column
  }

  /** The slot the next rune goes to; a pending wrap puts it on the next line. */
  function NextSlot(s: State): int {
    Slot(s.cols, CursorLine(s), s.main.x) + if s.wrapPending then 1 else 0
  }

  /** What a slot shows after `word` was typed from slot `start` on. */
  function Shown(s: State, word: seq<int>, start: int, i: int, j: int): Cell
    requires 0 <= i && 0 <= j < s.cols && (i < |WholePage(s)| ==> |WholePage(s)[i]| == s.cols)
  {
    var p := Slot(s.cols, i, j) - start;
    if 0 <= p < |word| then s.pen.(rune := word[p])
    else if i < |WholePage(s)| then WholePage(s)[i][j]
    else Blank(s)
  }

  ghost predicate Keeps(s: State, r: State) {
    && r.cols == s.cols && r.rows == s.rows && r.pen == s.pen && r.alt == s.alt && Records(r)
    && s.evicted <= r.evicted
  }

  /** `r` is `s` with `word` written slot after slot onto the page, which grows by blank
      lines as far as the last rune needs. */
  ghost predicate Wrote(s: State, r: State, word: seq<int>)
    requires Ok(s)
  {
    && Keeps(s, r) && NextSlot(r) == NextSlot(s) + |word| && (word != [] ==> r.wrapPending || r.main.x > 0)
    && |WholePage(r)| == (if CursorLine(r) < |WholePage(s)| then |WholePage(s)| else CursorLine(r) + 1)
    && (forall i :: |s.evicted| <= i < |WholePage(r)| ==> |WholePage(r)[i]| == s.cols)
    && forall i, j :: |s.evicted| <= i < |WholePage(r)| && 0 <= j < s.cols ==>
         WholePage(r)[i][j] == Shown(s, word, NextSlot(s), i, j)
  }

  /** One rune: the line it goes to is there already or is a new blank one. */
  ghost predicate WroteOne(s: State, r: State, rune: int, column: int) {
    && Keeps(s, r) && NextSlot(r) == NextSlot(s) + 1 && (r.wrapPending || r.main.x > 0)
    && 0 <= column < s.cols && Slot(s.cols, CursorLine(r), column) == NextSlot(s)
    && CursorLine(s) <= CursorLine(r) && 0 <= CursorLine(r) <= |WholePage(s)| && (CursorLine(r) == |WholePage(s)| ==> column == 0)
    && var page := Reaching(s, CursorLine(r));
       && |page[CursorLine(r)]| == s.cols
       && WholePage(r) == page[CursorLine(r) := page[CursorLine(r)][column := s.pen.(rune := rune)]]
  }

  lemma WriteHere(s: State, rune: int)
    requires Ok(s) && Records(s) && !s.wrapPending
    ensures WroteOne(s, Apply(s, PutRune(rune)), rune, s.main.x)
  {
    hide LineFeedFrom, ReverseFrom, Sgr, ResizeTo, EditedRow, EditedLines, Repeat;
    var r := Apply(s, PutRune(rune));
    var row := s.main.cells[s.main.y][s.main.x := s.pen.(rune := rune)];
    assert WholePage(s)[CursorLine(s)] == s.main.cells[s.main.y];
    assert WholePage(r) == WholePage(s)[CursorLine(s) := row];
  }

  /** The deferred wrap moves to the start of the next line of the page. */
  lemma WrapMoves(s: State)
    requires Ok(s) && Records(s) && s.wrapPending
    ensures var m := Wrapped(s);
      && Ok(m) && !m.wrapPending && m.main.x == 0 && Keeps(s, m) && CursorLine(m) == CursorLine(s) + 1
      && CursorLine(m) <= |WholePage(s)| && WholePage(m) == Reaching(s, CursorLine(m))
  {
    hide Repeat, Blank, Ok, LineFeedFrom;
    WrappedOk(s);
    OkGrid(s);
    var home := NoWrap(WithActive(s, Active(s).(x := 0)));
    HomeOk(s);
    if s.main.y == s.bottom {
      ScrollsPage(home);
      SamePen(s, home);
    } else {
      StepsDown(home);
    }
  }

  lemma HomeOk(s: State)
    requires Ok(s) && Records(s)
    ensures Ok(NoWrap(WithActive(s, Active(s).(x := 0))))
  {
  }

  lemma ScrollsPage(s: State)
    requires Ok(s) && Records(s) && s.main.y == s.bottom
    ensures var m := LineFeedFrom(s);
      && m == s.(main := s.main.(cells := m.main.cells), evicted := s.evicted + [s.main.cells[0]])
      && WholePage(m) == WholePage(s) + [Repeat(s.cols, Blank(s))]
  {
    hide ScrolledUp, Repeat;
    FullScroll(s);
    assert s.main.cells == [s.main.cells[0]] + s.main.cells[1..];
  }

  lemma StepsDown(s: State)
    requires Ok(s) && Records(s) && s.main.y != s.bottom
    ensures LineFeedFrom(s) == s.(main := s.main.(y := s.main.y + 1))
  {
    hide ScrolledUp;
  }

  lemma NextLineSlot(cols: int, line: int)
    ensures Slot(cols, line + 1, 0) == Slot(cols, line, cols - 1) + 1
  {
  }

  lemma WrapThenWrite(s: State, rune: int)
    requires Ok(s) && Records(s) && s.wrapPending
    ensures WroteOne(s, Apply(s, PutRune(rune)), rune, 0)
  {
    hide Ok, Apply, WholePage, Slot, Wrapped, Records, Blank, CursorLine;
    WrapMoves(s);
    var m := Wrapped(s);
    PutIsWrapped(s, rune);
    WriteHere(m, rune);
    var r := Apply(m, PutRune(rune));
    OkGrid(s);
    PendingColumn(s);
    NextLineSlot(s.cols, CursorLine(s));
    SlotUnique(s.cols, CursorLine(r), 0, CursorLine(m), 0);
    SamePen(s, m);
    assert Reaching(m, CursorLine(m)) == Reaching(s, CursorLine(m));
  }

  lemma PutIsWrapped(s: State, rune: int)
    requires Ok(s)
    ensures Ok(Wrapped(s))
    ensures !Wrapped(s).wrapPending ==> Apply(s, PutRune(rune)) == Apply(Wrapped(s), PutRune(rune))
  {
    hide LineFeedFrom, ReverseFrom, Sgr, ResizeTo, EditedRow, EditedLines, WriteCell, Ok;
    WrappedOk(s);
    assert !Wrapped(s).wrapPending ==> Wrapped(Wrapped(s)) == Wrapped(s);
  }

  lemma PendingColumn(s: State)
    requires Ok(s) && Records(s) && s.wrapPending
    ensures s.main.x == s.cols - 1
  {
  }

  lemma SamePen(s: State, m: State)
    requires m.pen == s.pen
    ensures Blank(m) == Blank(s)
  {
  }

  lemma TypeRune(s: State, rune: int) returns (column: int)
    requires Ok(s) && Records(s)
    ensures WroteOne(s, Apply(s, PutRune(rune)), rune, column)
  {
    hide Apply, WroteOne, Ok, Records;
    if s.wrapPending {
      WrapThenWrite(s, rune);
      column := 0;
    } else {
      WriteHere(s, rune);
      column := s.main.x;
    }
  }

  /** A slot is one line and one column. */
  lemma SlotUnique(cols: int, i: int, j: int, line: int, column: int)
    requires 0 <= j < cols && 0 <= column < cols
    ensures Slot(cols, i, j) == Slot(cols, line, column) <==> i == line && j == column
    ensures i >= line && column == 0 ==> Slot(cols, i, j) >= Slot(cols, line, column)
  {
    if i < line {
      MoreLines(cols, i, line);
    } else if line < i {
      MoreLines(cols, line, i);
    }
  }

  lemma MoreLines(cols: int, a: int, b: int)
    requires a < b && cols > 0
    ensures a * cols + cols <= b * cols
  {
    assert (b - a - 1) * cols >= 0;
    assert b * cols == (b - a - 1) * cols + (a + 1) * cols;
  }

  /** The lines of the screen are as wide as it is. */
  lemma PageWidth(s: State)
    requires Ok(s)
    ensures forall i :: |s.evicted| <= i < |WholePage(s)| ==> |WholePage(s)[i]| == s.cols
    ensures s.cols >= 1 && CursorLine(s) < |WholePage(s)|
  {
  }

  /** The word one rune longer. */
  lemma WroteMore(s: State, m: State, r: State, word: seq<int>, rune: int, column: int)
    requires Ok(s) && Wrote(s, m, word) && WroteOne(m, r, rune, column)
    ensures Wrote(s, r, word + [rune])
  {
    hide Ok, Slot, Blank, Records, WholePage, NextSlot, CursorLine, Shown;
    PageWidth(s);
    forall i | |s.evicted| <= i < |WholePage(r)| ensures |WholePage(r)[i]| == s.cols {
      ShownMore(s, m, r, word, rune, column, i, 0);
    }
    forall i, j | |s.evicted| <= i < |WholePage(r)| && 0 <= j < s.cols
      ensures WholePage(r)[i][j] == Shown(s, word + [rune], NextSlot(s), i, j)
    {
      ShownMore(s, m, r, word, rune, column, i, j);
    }
  }

  lemma ShownMore(s: State, m: State, r: State, word: seq<int>, rune: int, column: int, i: int, j: int)
    requires Ok(s) && Wrote(s, m, word) && WroteOne(m, r, rune, column)
    requires |s.evicted| <= i < |WholePage(r)| && 0 <= j < s.cols
    ensures i < |WholePage(s)| ==> |WholePage(s)[i]| == s.cols
    ensures |WholePage(r)[i]| == s.cols && WholePage(r)[i][j] == Shown(s, word + [rune], NextSlot(s), i, j)
  {
    hide Ok, Slot, Blank, Records, WholePage, NextSlot, CursorLine;
    PageWidth(s);
    SamePen(s, m);
    SlotUnique(s.cols, i, j, CursorLine(r), column);
    if i < |WholePage(m)| {
      assert WholePage(m)[i][j] == Shown(s, word, NextSlot(s), i, j);
    }
  }

  lemma WroteNothing(s: State)
    requires Ok(s) && Records(s)
    ensures Wrote(s, s, [])
  {
    hide Slot;
  }

  /** Typing any word on a full-height main screen writes it slot after slot onto the
      page, across line ends and past the bottom: every other cell of the page stays,
      the page grows by blank lines only as far as the word reaches, and what scrolls
      off the screen is in the scrollback. */
  lemma {:induction false} TypeAcrossLines(s: State, word: seq<int>)
    requires Ok(s) && Records(s)
    ensures Wrote(s, Run(s, Runes(word)), word)
  {
    hide Apply, Ok, Records, Wrote, WroteOne;
    if word == [] {
      WroteNothing(s);
    } else {
      var front, last := word[..|word| - 1], word[|word| - 1];
      TypeAcrossLines(s, front);
      var m := Run(s, Runes(front));
      assert Runes(word)[..|word| - 1] == Runes(front);
      WroteRecords(s, m, front);
      var column := TypeRune(m, last);
      WroteMore(s, m, Apply(m, PutRune(last)), front, last, column);
      assert front + [last] == word;
    }
  }

  lemma WroteRecords(s: State, m: State, word: seq<int>)
    requires Ok(s) && Wrote(s, m, word)
    ensures Records(m)
  {
  }

  // ----- what stays outside the scroll region -----

  predicate Scrolls(op: Op) {
    op.InsertLines? || op.DeleteLines? || op.ScrollUp? || op.ScrollDown?
  }

  /** Line insertion, deletion and scrolling never change a line outside the margins. */
  lemma OutsideRegionStays(s: State, op: Op, i: int)
    requires Ok(s) && Scrolls(op) && 0 <= i < s.rows && (i < s.top || i > s.bottom)
    ensures var r := Apply(s, op);
      |Active(r).cells| == s.rows && Active(r).cells[i] == Active(s).cells[i]
  {
    hide EditedLines;
    OutsideLinesStay(s, op, i);
  }

  lemma OutsideLinesStay(s: State, op: Op, i: int)
    requires Ok(s) && Scrolls(op) && 0 <= i < s.rows && (i < s.top || i > s.bottom)
    ensures |EditedLines(s, op)| == s.rows && EditedLines(s, op)[i] == Active(s).cells[i]
  {
    hide ShiftUp, ShiftDown, Repeat, Ok;
    OkGrid(s);
    var lines, y := Active(s).cells, Active(s).y;
    match op {
      case InsertLines(n) =>
        if s.top <= y <= s.bottom {
          ShiftDownAt(lines, y, s.bottom, BlankRows(s, AtMost(AtLeastOne(n), s.bottom - y + 1)), i);
        }
      case DeleteLines(n) =>
        if s.top <= y <= s.bottom {
          ShiftUpAt(lines, y, s.bottom, BlankRows(s, AtMost(AtLeastOne(n), s.bottom - y + 1)), i);
        }
      case ScrollUp(n) => ShiftUpAt(lines, s.top, s.bottom, BlankRows(s, AtMost(AtLeastOne(n), s.bottom - s.top + 1)), i);
      case ScrollDown(n) => ShiftDownAt(lines, s.top, s.bottom, BlankRows(s, AtMost(AtLeastOne(n), s.bottom - s.top + 1)), i);
    }
  }

  lemma OkGrid(s: State)
    requires Ok(s)
    ensures |Active(s).cells| == s.rows && 0 <= s.top <= s.bottom < s.rows && 0 <= Active(s).y < s.rows && s.cols >= 1
    ensures 0 <= Active(s).x < s.cols && forall i :: 0 <= i < s.rows ==> |Active(s).cells[i]| == s.cols
  {
  }

  // ----- what undoes what -----

  /** Deleting as many cells as were inserted gives the row back but for its last
      cells, which the insertion pushed out. */
  lemma DeleteUndoesInsertChars(row: seq<Cell>, n: int, x: int, blank: Cell)
    requires 0 <= x < |row|
    ensures var k := AtMost(AtLeastOne(n), |row| - x);
      RowAfter(RowAfter(row, InsertChars(n), x, blank), DeleteChars(n), x, blank) == row[..|row| - k] + Repeat(k, blank)
  {
    hide Repeat;
    var k := AtMost(AtLeastOne(n), |row| - x);
    var gap := RowAfter(row, InsertChars(n), x, blank);
    assert gap[..x] == row[..x];
    assert gap[x + k..] == row[x..|row| - k];
    assert row[..x] + row[x..|row| - k] == row[..|row| - k];
  }

  /** Deleting as many lines as were inserted gives the region back but for its last
      lines. */
  lemma DeleteUndoesInsertLines<T>(lines: seq<T>, y: int, bottom: int, blank: seq<T>)
    requires 0 <= y <= bottom < |lines| && |blank| <= bottom - y + 1
    ensures ShiftUp(ShiftDown(lines, y, bottom, blank), y, bottom, blank) ==
      lines[..bottom + 1 - |blank|] + blank + lines[bottom + 1..]
  {
    hide ShiftUp, ShiftDown;
    var down := ShiftDown(lines, y, bottom, blank);
    var expected := lines[..bottom + 1 - |blank|] + blank + lines[bottom + 1..];
    forall i | 0 <= i < |lines| ensures ShiftUp(down, y, bottom, blank)[i] == expected[i] {
      ShiftUpAt(down, y, bottom, blank, i);
      ShiftDownAt(lines, y, bottom, blank, i);
      if y <= i && i + |blank| <= bottom {
        ShiftDownAt(lines, y, bottom, blank, i + |blank|);
      }
    }
  }

  // ----- saved cursors over whole runs -----

  predicate KeepsSaved(op: Op) {
    !op.SaveCursor? && !op.Reset? && !op.Resize?
  }

  lemma SavedStays(s: State, op: Op)
    requires Ok(s) && KeepsSaved(op)
    ensures var r := Apply(s, op); r.saved == s.saved && r.cols == s.cols && r.rows == s.rows
  {
    hide EditedRow, EditedLines, ApplyOther, MoveTarget, Ok;
    if !IsMove(op) && !IsRowEdit(op) && !IsLinesEdit(op) {
      OtherSaved(s, op);
    }
  }

  lemma OtherSaved(s: State, op: Op)
    requires Ok(s) && KeepsSaved(op) && !IsMove(op) && !IsRowEdit(op) && !IsLinesEdit(op)
    ensures var r := ApplyOther(s, op); r.saved == s.saved && r.cols == s.cols && r.rows == s.rows
  {
    hide Ok, LineFeedFrom, ReverseFrom, WriteCell, Wrapped, Sgr, ResizeTo, ResetAll;
    NoWrapOk(s);
    FeedFrame(NoWrap(s));
    RuneFrame(s);
  }

  lemma {:induction false} SavedRun(s: State, ops: seq<Op>)
    requires Ok(s) && forall i :: 0 <= i < |ops| ==> KeepsSaved(ops[i])
    ensures var r := Run(s, ops); r.saved == s.saved && r.cols == s.cols && r.rows == s.rows
  {
    hide Apply, KeepsSaved, Ok;
    if ops != [] {
      SavedRun(s, ops[..|ops| - 1]);
      SavedStays(Run(s, ops[..|ops| - 1]), ops[|ops| - 1]);
    }
  }

  /** Saving, running anything but another save, reset or resize, and restoring puts
      cursor and pen back, on whichever screen is shown then. */
  lemma SaveRestoreRoundTrip(s: State, ops: seq<Op>)
    requires Ok(s) && forall i :: 0 <= i < |ops| ==> KeepsSaved(ops[i])
    ensures var r := Run(s, [SaveCursor] + ops + [RestoreCursor]);
      Active(r).x == Active(s).x && Active(r).y == Active(s).y && r.pen == s.pen && !r.wrapPending
  {
    hide Apply, KeepsSaved, Run;
    RunConcat(s, [SaveCursor], ops);
    RunConcat(s, [SaveCursor] + ops, [RestoreCursor]);
    RunOne(s, SaveCursor);
    var saved := Apply(s, SaveCursor);
    Saves(s);
    SavedRun(saved, ops);
    RunOne(Run(saved, ops), RestoreCursor);
    Restores(Run(saved, ops), Active(s).x, Active(s).y, s.pen);
  }

  lemma Saves(s: State)
    requires Ok(s)
    ensures Apply(s, SaveCursor) == s.(saved := Saved(Active(s).x, Active(s).y, s.pen)) && Ok(Apply(s, SaveCursor))
  {
    hide LineFeedFrom, ReverseFrom, Wrapped, WriteCell, Sgr, ResizeTo, EditedRow, EditedLines;
  }

  lemma Restores(s: State, x: int, y: int, pen: Cell)
    requires Ok(s) && s.saved == Saved(x, y, pen) && 0 <= x < s.cols && 0 <= y < s.rows
    ensures var r := Apply(s, RestoreCursor);
      Active(r).x == x && Active(r).y == y && r.pen == pen && !r.wrapPending
  {
    hide LineFeedFrom, ReverseFrom, Wrapped, WriteCell, Sgr, ResizeTo, EditedRow, EditedLines, Ok;
  }
}
