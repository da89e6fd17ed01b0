/** What each screen operation does, cell by cell (internal/terminal/screen.go): the
    cells it changes and to what, where the cursor goes, and that everything else
    stays. The predicates name only cells, lines and cursors. */
module ScreenEffects {
  import opened Texts
  import opened ScreenModel

  // ----- vocabulary -----

  function Lesser(a: int, b: int): int {
    if a <= b then a else b
  }

  function Greater(a: int, b: int): int {
    if a >= b then a else b
  }

  /** An erased cell: no rune, no attributes, the pen's background. */
  function Clear(s: State): Cell {
    Cell(0, DefaultColor, s.pen.bg, false, false, false)
  }

  const EMPTY := Cell(0, DefaultColor, DefaultColor, false, false, false)

  function Lines(s: State): seq<seq<Cell>> {
    if s.altActive then s.alt.cells else s.main.cells
  }

  function X(s: State): int {
    if s.altActive then s.alt.x else s.main.x
  }

  function Y(s: State): int {
    if s.altActive then s.alt.y else s.main.y
  }

  /** No cell changes: the cursor of the shown grid is at (x, y), no wrap is pending. */
  ghost predicate OnlyCursor(s: State, r: State, x: int, y: int) {
    r == if s.altActive then s.(wrapPending := false, alt := s.alt.(x := x, y := y))
         else s.(wrapPending := false, main := s.main.(x := x, y := y))
  }

  /** Only cells of the shown grid change, and no wrap is pending. */
  ghost predicate OnlyCells(s: State, r: State) {
    && (r == if s.altActive then s.(wrapPending := false, alt := s.alt.(cells := Lines(r)))
             else s.(wrapPending := false, main := s.main.(cells := Lines(r))))
    && |Lines(r)| == s.rows && forall i :: 0 <= i < s.rows ==> |Lines(r)[i]| == s.cols
  }

  ghost predicate ClearLine(s: State, line: seq<Cell>) {
    |line| == s.cols && forall j :: 0 <= j < s.cols ==> line[j] == Clear(s)
  }

  // ----- effects -----

  ghost predicate LineErased(s: State, r: State, mode: int)
    requires Ok(s)
  {
    && OnlyCells(s, r)
    && forall i, j :: 0 <= i < s.rows && 0 <= j < s.cols ==>
         Lines(r)[i][j] ==
           if i == Y(s) && ((mode == 0 && j >= X(s)) || (mode == 1 && j <= X(s)) || mode == 2) then Clear(s)
           else Lines(s)[i][j]
  }

  ghost predicate DisplayErased(s: State, r: State, mode: int)
    requires Ok(s)
  {
    && OnlyCells(s, r)
    && forall i, j :: 0 <= i < s.rows && 0 <= j < s.cols ==>
         Lines(r)[i][j] ==
           if mode == 2 || (mode == 0 && (i > Y(s) || (i == Y(s) && j >= X(s))))
              || (mode == 1 && (i < Y(s) || (i == Y(s) && j <= X(s)))) then Clear(s)
           else Lines(s)[i][j]
  }

  /** n cells from the cursor on. */
  ghost predicate CharsErased(s: State, r: State, n: int)
    requires Ok(s)
  {
    && OnlyCells(s, r)
    && forall i, j :: 0 <= i < s.rows && 0 <= j < s.cols ==>
         Lines(r)[i][j] == if i == Y(s) && X(s) <= j < X(s) + n then Clear(s) else Lines(s)[i][j]
  }

  ghost predicate CharsInserted(s: State, r: State, n: int)
    requires Ok(s) && n >= 1
  {
    && OnlyCells(s, r)
    && forall i, j :: 0 <= i < s.rows && 0 <= j < s.cols ==>
         Lines(r)[i][j] ==
           if i != Y(s) || j < X(s) then Lines(s)[i][j]
           else if j < X(s) + n then Clear(s)
           else Lines(s)[i][j - n]
  }

  ghost predicate CharsDeleted(s: State, r: State, n: int)
    requires Ok(s) && n >= 1
  {
    && OnlyCells(s, r)
    && forall i, j :: 0 <= i < s.rows && 0 <= j < s.cols ==>
         Lines(r)[i][j] ==
           if i != Y(s) || j < X(s) then Lines(s)[i][j]
           else if j + n < s.cols then Lines(s)[i][j + n]
           else Clear(s)
  }

  ghost predicate MovedDownAt(s: State, line: seq<Cell>, from: int, n: int, i: int)
    requires Ok(s) && 0 <= from && n >= 1 && 0 <= i < s.rows
  {
    if i < from || i > s.bottom then line == Lines(s)[i]
    else if i < from + n then ClearLine(s, line)
    else line == Lines(s)[i - n]
  }

  /** Lines from..bottom margin move n lines down; the n lines above are clear. */
  ghost predicate MovedDown(s: State, r: State, from: int, n: int)
    requires Ok(s) && 0 <= from && n >= 1
  {
    && OnlyCells(s, r)
    && forall i :: 0 <= i < s.rows ==> MovedDownAt(s, Lines(r)[i], from, n, i)
  }

  ghost predicate MovedUpAt(s: State, line: seq<Cell>, from: int, n: int, i: int)
    requires Ok(s) && 0 <= from && n >= 1 && 0 <= i < s.rows
  {
    if i < from || i > s.bottom then line == Lines(s)[i]
    else if i + n > s.bottom then ClearLine(s, line)
    else line == Lines(s)[i + n]
  }

  /** Lines from..bottom margin move n lines up; the n lines below are clear. */
  ghost predicate MovedUp(s: State, r: State, from: int, n: int)
    requires Ok(s) && 0 <= from && n >= 1
  {
    && OnlyCells(s, r)
    && forall i :: 0 <= i < s.rows ==> MovedUpAt(s, Lines(r)[i], from, n, i)
  }

  /** insertLines and deleteLines act only with the cursor between the margins. */
  ghost predicate LinesInserted(s: State, r: State, n: int)
    requires Ok(s) && n >= 1
  {
    if s.top <= Y(s) <= s.bottom then MovedDown(s, r, Y(s), n) else OnlyCursor(s, r, X(s), Y(s))
  }

  ghost predicate LinesDeleted(s: State, r: State, n: int)
    requires Ok(s) && n >= 1
  {
    if s.top <= Y(s) <= s.bottom then MovedUp(s, r, Y(s), n) else OnlyCursor(s, r, X(s), Y(s))
  }

  /** A line feed: at the bottom margin the region moves up by one line, and the line
      that leaves a full-height main screen is evicted; elsewhere the cursor moves one
      line down, except from the last line. */
  ghost predicate LineFed(s: State, r: State)
    requires Ok(s)
  {
    if Y(s) == s.bottom then
      && MovedUp(s, r.(evicted := s.evicted), s.top, 1)
      && r.evicted == s.evicted +
           if !s.altActive && s.top == 0 && s.bottom == s.rows - 1 then [Lines(s)[0]] else []
    else OnlyCursor(s, r, X(s), Lesser(Y(s) + 1, s.rows - 1))
  }

  /** A reverse line feed: at the top margin the region moves down by one line;
      elsewhere the cursor moves one line up, except from the first line. */
  ghost predicate ReverseFed(s: State, r: State)
    requires Ok(s)
  {
    if Y(s) == s.top then MovedDown(s, r, s.top, 1)
    else OnlyCursor(s, r, X(s), Greater(Y(s) - 1, 0))
  }

  /** The cursor moves by (dx, dy) and stays on the screen. */
  ghost predicate MovedBy(s: State, r: State, dx: int, dy: int) {
    OnlyCursor(s, r, Within(X(s) + dx, s.cols), Within(Y(s) + dy, s.rows))
  }

  function Within(v: int, size: int): int {
    Greater(Lesser(v, size - 1), 0)
  }

  ghost predicate PlacedAt(s: State, r: State, x: int, y: int) {
    OnlyCursor(s, r, Within(x, s.cols), Within(y, s.rows))
  }

  ghost predicate MarginsSet(s: State, r: State, top: int, bottom: int) {
    var t, b := Within(top, s.rows), Within(bottom, s.rows);
    OnlyCursor(if t < b then s.(top := t, bottom := b) else s.(top := 0, bottom := s.rows - 1), r, 0, 0)
  }

  ghost predicate CursorRestored(s: State, r: State) {
    match s.saved
    case NotSaved => OnlyCursor(s.(pen := EMPTY), r, 0, 0)
    case Saved(x, y, pen) => PlacedAt(s.(pen := pen), r, x, y)
  }

  ghost predicate EmptyGrid(g: Grid, cols: int, rows: int) {
    && |g.cells| == rows && (forall i :: 0 <= i < rows ==> |g.cells[i]| == cols)
    && (forall i, j :: 0 <= i < rows && 0 <= j < cols ==> g.cells[i][j] == EMPTY)
    && g.x == 0 && g.y == 0
  }

  /** The alternate screen shown: blank, cursor home, margins full; cursor and pen of the
      main screen put aside. Showing what is shown already does nothing. */
  ghost predicate AltShown(s: State, r: State) {
    if s.altActive then r == s
    else
      && r == s.(altActive := true, alt := r.alt, altSaved := Saved(s.main.x, s.main.y, s.pen),
                 top := 0, bottom := s.rows - 1, wrapPending := false)
      && EmptyGrid(r.alt, s.cols, s.rows)
  }

  /** The main screen shown: its cells as they are, cursor and pen as put aside. */
  ghost predicate MainShown(s: State, r: State) {
    if !s.altActive then r == s
    else
      var t := s.(altActive := false, top := 0, bottom := s.rows - 1, wrapPending := false);
      match s.altSaved
      case NotSaved => r == t
      case Saved(x, y, pen) =>
        r == t.(main := s.main.(x := Within(x, s.cols), y := Within(y, s.rows)), pen := pen, altSaved := NotSaved)
  }

  ghost predicate WasReset(s: State, r: State) {
    && r == State(s.cols, s.rows, r.main, r.alt, false, EMPTY, s.evicted, 0, s.rows - 1,
                  true, false, s.title, NotSaved, NotSaved, false)
    && EmptyGrid(r.main, s.cols, s.rows) && EmptyGrid(r.alt, s.cols, s.rows)
  }

  /** A new screen: both grids empty, the main one shown, margins full, everything off. */
  lemma NewExactly(cols: int, rows: int)
    ensures var r := NewScreen(cols, rows);
      && r == State(Greater(cols, 1), Greater(rows, 1), r.main, r.alt, false, EMPTY, [], 0, Greater(rows, 1) - 1,
                    true, false, [], NotSaved, NotSaved, false)
      && EmptyGrid(r.main, Greater(cols, 1), Greater(rows, 1)) && EmptyGrid(r.alt, Greater(cols, 1), Greater(rows, 1))
  {
  }

  /** A grid of the new size: what was at (i, j) still is, the rest is empty. */
  ghost predicate Fitted(g: Grid, h: Grid, cols: int, rows: int) {
    && |h.cells| == rows && (forall i :: 0 <= i < rows ==> |h.cells[i]| == cols)
    && (forall i, j :: 0 <= i < rows && 0 <= j < cols ==>
          h.cells[i][j] == if i < |g.cells| && j < |g.cells[i]| then g.cells[i][j] else EMPTY)
    && h.x == Within(g.x, cols) && h.y == Within(g.y, rows)
  }

  ghost predicate WasResized(s: State, r: State, cols0: int, rows0: int) {
    var cols, rows := Greater(cols0, 1), Greater(rows0, 1);
    if cols == s.cols && rows == s.rows then r == s
    else
      && r == s.(cols := cols, rows := rows, main := r.main, alt := r.alt, top := 0, bottom := rows - 1, wrapPending := false)
      && Fitted(s.main, r.main, cols, rows) && Fitted(s.alt, r.alt, cols, rows)
  }

  // ----- each operation has its effect -----

  lemma Shown(s: State)
    requires Ok(s)
    ensures Active(s).cells == Lines(s) && Active(s).x == X(s) && Active(s).y == Y(s) && Blank(s) == Clear(s)
    ensures |Lines(s)| == s.rows && (forall i :: 0 <= i < s.rows ==> |Lines(s)[i]| == s.cols)
    ensures 0 <= X(s) < s.cols && 0 <= Y(s) < s.rows && 0 <= s.top <= s.bottom < s.rows
  {
  }

  lemma MoveIs(s: State, op: Op)
    requires Ok(s) && IsMove(op)
    ensures PlacedAt(s, Apply(s, op), MoveTarget(s, op).0, MoveTarget(s, op).1)
  {
    hide MoveTarget, EditedRow, EditedLines, ApplyOther;
  }

  lemma MovesExactly(s: State, x: int, y: int, dx: int, dy: int)
    requires Ok(s)
    ensures OnlyCursor(s, Apply(s, CarriageReturn), 0, Y(s))
    ensures OnlyCursor(s, Apply(s, BackSpace), Greater(X(s) - 1, 0), Y(s))
    ensures MovedBy(s, Apply(s, MoveCursor(dx, dy)), dx, dy)
    ensures PlacedAt(s, Apply(s, SetCursor(x, y)), x, y)
    ensures PlacedAt(s, Apply(s, SetCursorCol(x)), x, Y(s))
    ensures PlacedAt(s, Apply(s, SetCursorRow(y)), X(s), y)
  {
    hide Apply, Ok, OnlyCursor;
    Shown(s);
    MoveIs(s, CarriageReturn);
    MoveIs(s, BackSpace);
    MoveIs(s, MoveCursor(dx, dy));
    MoveIs(s, SetCursor(x, y));
    MoveIs(s, SetCursorCol(x));
    MoveIs(s, SetCursorRow(y));
  }

  /** The next tab stop: the least multiple of 8 right of the cursor, or the last column. */
  ghost predicate NextStop(x: int, stop: int) {
    stop % 8 == 0 && x < stop && forall k :: x < k < stop ==> k % 8 != 0
  }

  lemma TabExactly(s: State) returns (stop: int)
    requires Ok(s)
    ensures NextStop(X(s), stop) && OnlyCursor(s, Apply(s, Tab), Lesser(stop, s.cols - 1), Y(s))
  {
    hide Apply, Ok, OnlyCursor;
    Shown(s);
    MoveIs(s, Tab);
    stop := (X(s) / 8 + 1) * 8;
  }

  lemma RowEditIs(s: State, op: Op)
    requires Ok(s) && IsRowEdit(op)
    ensures var r := Apply(s, op);
      && OnlyCells(s, r)
      && Lines(r) == Lines(s)[Y(s) := RowAfter(Lines(s)[Y(s)], op, X(s), Clear(s))]
  {
    hide RowAfter;
    Shown(s);
  }

  lemma EraseLineExactly(s: State, mode: int)
    requires Ok(s)
    ensures LineErased(s, Apply(s, EraseLine(mode)), mode)
  {
    hide Apply, Ok;
    Shown(s);
    RowEditIs(s, EraseLine(mode));
  }

  lemma EraseCharsExactly(s: State, n: int)
    requires Ok(s)
    ensures CharsErased(s, Apply(s, EraseChars(n)), Greater(n, 1))
  {
    hide Apply, Ok;
    Shown(s);
    RowEditIs(s, EraseChars(n));
  }

  lemma InsertCharsExactly(s: State, n: int)
    requires Ok(s)
    ensures CharsInserted(s, Apply(s, InsertChars(n)), Greater(n, 1))
  {
    hide Apply, Ok;
    Shown(s);
    RowEditIs(s, InsertChars(n));
  }

  lemma DeleteCharsExactly(s: State, n: int)
    requires Ok(s)
    ensures CharsDeleted(s, Apply(s, DeleteChars(n)), Greater(n, 1))
  {
    hide Apply, Ok;
    Shown(s);
    RowEditIs(s, DeleteChars(n));
  }

  lemma LinesEditIs(s: State, op: Op)
    requires Ok(s) && IsLinesEdit(op)
    ensures var r := Apply(s, op); OnlyCells(s, r) && Lines(r) == EditedLines(s, op)
  {
    hide EditedLines;
    EditedLinesWidth(s, op);
  }

  lemma EraseDisplayExactly(s: State, mode: int)
    requires Ok(s)
    ensures DisplayErased(s, Apply(s, EraseDisplay(mode)), mode)
  {
    hide Apply, Ok, Blank;
    Shown(s);
    LinesEditIs(s, EraseDisplay(mode));
    var r := Apply(s, EraseDisplay(mode));
    assert forall i :: 0 <= i < s.rows ==> Lines(r)[i] == ErasedLine(s, mode, i);
  }

  lemma BlankLines(s: State, n: int)
    requires Ok(s)
    ensures |BlankRows(s, n)| == (if n < 0 then 0 else n)
    ensures forall i :: 0 <= i < |BlankRows(s, n)| ==> ClearLine(s, BlankRows(s, n)[i])
  {
  }

  lemma ShiftedDownIs(s: State, r: State, from: int, n: int, k: int)
    requires Ok(s) && 0 <= from <= s.bottom && n >= 1 && k == Lesser(n, s.bottom - from + 1)
    requires OnlyCells(s, r) && |Lines(s)| == s.rows && s.bottom < s.rows
    requires |BlankRows(s, k)| <= s.bottom - from + 1 && Lines(r) == ShiftDown(Lines(s), from, s.bottom, BlankRows(s, k))
    ensures MovedDown(s, r, from, n)
  {
    hide ShiftDown, BlankRows;
    BlankLines(s, k);
    forall i | 0 <= i < s.rows
      ensures MovedDownAt(s, Lines(r)[i], from, n, i)
    {
      ShiftDownAt(Lines(s), from, s.bottom, BlankRows(s, k), i);
    }
  }

  lemma ShiftedUpIs(s: State, r: State, from: int, n: int, k: int)
    requires Ok(s) && 0 <= from <= s.bottom && n >= 1 && k == Lesser(n, s.bottom - from + 1)
    requires OnlyCells(s, r) && |Lines(s)| == s.rows && s.bottom < s.rows
    requires |BlankRows(s, k)| <= s.bottom - from + 1 && Lines(r) == ShiftUp(Lines(s), from, s.bottom, BlankRows(s, k))
    ensures MovedUp(s, r, from, n)
  {
    hide ShiftUp, BlankRows;
    BlankLines(s, k);
    forall i | 0 <= i < s.rows
      ensures MovedUpAt(s, Lines(r)[i], from, n, i)
    {
      ShiftUpAt(Lines(s), from, s.bottom, BlankRows(s, k), i);
    }
  }

  lemma SameCells(s: State, r: State)
    requires OnlyCells(s, r) && Lines(r) == Lines(s)
    ensures OnlyCursor(s, r, X(s), Y(s))
  {
  }

  lemma InsertLinesExactly(s: State, n: int)
    requires Ok(s)
    ensures LinesInserted(s, Apply(s, InsertLines(n)), Greater(n, 1))
  {
    hide Apply, Ok, ShiftDown, BlankRows, Blank, OnlyCells, MovedDown;
    Shown(s);
    LinesEditIs(s, InsertLines(n));
    var r, m := Apply(s, InsertLines(n)), Greater(n, 1);
    if s.top <= Y(s) <= s.bottom {
      var k := Lesser(m, s.bottom - Y(s) + 1);
      BlankLines(s, k);
      ShiftedDownIs(s, r, Y(s), m, k);
    } else {
      SameCells(s, r);
    }
  }

  lemma DeleteLinesExactly(s: State, n: int)
    requires Ok(s)
    ensures LinesDeleted(s, Apply(s, DeleteLines(n)), Greater(n, 1))
  {
    hide Apply, Ok, ShiftUp, BlankRows, Blank, OnlyCells, MovedUp;
    Shown(s);
    LinesEditIs(s, DeleteLines(n));
    var r, m := Apply(s, DeleteLines(n)), Greater(n, 1);
    if s.top <= Y(s) <= s.bottom {
      var k := Lesser(m, s.bottom - Y(s) + 1);
      BlankLines(s, k);
      ShiftedUpIs(s, r, Y(s), m, k);
    } else {
      SameCells(s, r);
    }
  }

  lemma ScrollUpExactly(s: State, n: int)
    requires Ok(s)
    ensures MovedUp(s, Apply(s, ScrollUp(n)), s.top, Greater(n, 1))
  {
    hide Apply, Ok, ShiftUp, BlankRows, Blank, OnlyCells, MovedUp;
    Shown(s);
    LinesEditIs(s, ScrollUp(n));
    var k := Lesser(Greater(n, 1), s.bottom - s.top + 1);
    BlankLines(s, k);
    ShiftedUpIs(s, Apply(s, ScrollUp(n)), s.top, Greater(n, 1), k);
  }

  lemma ScrollDownExactly(s: State, n: int)
    requires Ok(s)
    ensures MovedDown(s, Apply(s, ScrollDown(n)), s.top, Greater(n, 1))
  {
    hide Apply, Ok, ShiftDown, BlankRows, Blank, OnlyCells, MovedDown;
    Shown(s);
    LinesEditIs(s, ScrollDown(n));
    var k := Lesser(Greater(n, 1), s.bottom - s.top + 1);
    BlankLines(s, k);
    ShiftedDownIs(s, Apply(s, ScrollDown(n)), s.top, Greater(n, 1), k);
  }

  // ----- line feeds and runes -----

  lemma FeedsApply(s: State, rune: int)
    requires Ok(s)
    ensures Ok(NoWrap(s)) && Ok(Wrapped(s))
    ensures Apply(s, LineFeed) == LineFeedFrom(NoWrap(s)) && Apply(s, ReverseLineFeed) == ReverseFrom(NoWrap(s))
    ensures Apply(s, PutRune(rune)) == WriteCell(Wrapped(s), rune)
  {
    hide LineFeedFrom, ReverseFrom, WriteCell, Wrapped, Sgr, ResizeTo, EditedRow, EditedLines;
    NoWrapOk(s);
    WrappedOk(s);
  }

  lemma FeedKeepsCells(s: State)
    requires Ok(s) && Y(s) == s.bottom
    ensures Ok(NoWrap(s))
    ensures var r := LineFeedFrom(NoWrap(s));
      && OnlyCells(s, r.(evicted := s.evicted)) && Lines(r) == ScrolledUp(s, 1)
      && r.evicted == s.evicted + if !s.altActive && s.top == 0 && s.bottom == s.rows - 1 then [Lines(s)[0]] else []
  {
    NoWrapOk(s);
    SameScroll(s);
    hide ScrolledUp, ScrolledDown;
    ScrolledWidth(s, 1);
    assert s.evicted + [] == s.evicted;
  }

  lemma ReverseKeepsCells(s: State)
    requires Ok(s) && Y(s) == s.top
    ensures Ok(NoWrap(s))
    ensures var r := ReverseFrom(NoWrap(s)); OnlyCells(s, r) && Lines(r) == ScrolledDown(s, 1)
  {
    NoWrapOk(s);
    SameScroll(s);
    hide ScrolledUp, ScrolledDown;
    ScrolledWidth(s, 1);
  }

  lemma SameScroll(s: State)
    requires Ok(s) && Ok(NoWrap(s))
    ensures ScrolledUp(NoWrap(s), 1) == ScrolledUp(s, 1) && ScrolledDown(NoWrap(s), 1) == ScrolledDown(s, 1)
  {
    hide ShiftUp, ShiftDown, Ok;
  }

  lemma FeedAtBottom(s: State)
    requires Ok(s) && Y(s) == s.bottom
    ensures LineFed(s, Apply(s, LineFeed))
  {
    hide Apply, LineFeedFrom, ShiftUp, BlankRows, Blank, OnlyCells, MovedUp, Ok;
    Shown(s);
    FeedsApply(s, 0);
    var r := Apply(s, LineFeed);
    FeedKeepsCells(s);
    BlankLines(s, 1);
    ShiftedUpIs(s, r.(evicted := s.evicted), s.top, 1, 1);
  }

  lemma LineFeedExactly(s: State)
    requires Ok(s)
    ensures LineFed(s, Apply(s, LineFeed))
  {
    hide Apply, ScrolledUp, MovedUp;
    if Y(s) == s.bottom {
      FeedAtBottom(s);
    } else {
      FeedsApply(s, 0);
    }
  }

  lemma ReverseLineFeedExactly(s: State)
    requires Ok(s)
    ensures ReverseFed(s, Apply(s, ReverseLineFeed))
  {
    hide Apply, ShiftDown, BlankRows, Blank, OnlyCells, MovedDown;
    Shown(s);
    FeedsApply(s, 0);
    var r := Apply(s, ReverseLineFeed);
    if Y(s) == s.top {
      ReverseKeepsCells(s);
      BlankLines(s, 1);
      ShiftedDownIs(s, r, s.top, 1, 1);
    }
  }

  /** With a wrap pending a rune goes where a carriage return and a line feed lead,
      whatever the margins and whichever screen is shown. */
  lemma WrapIsReturnAndFeed(s: State, rune: int)
    requires Ok(s) && s.wrapPending
    ensures Ok(Apply(s, CarriageReturn)) && Ok(Apply(Apply(s, CarriageReturn), LineFeed))
    ensures Apply(s, PutRune(rune)) == Apply(Apply(Apply(s, CarriageReturn), LineFeed), PutRune(rune))
  {
    hide Apply, WriteCell, LineFeedFrom;
    var home := Apply(s, CarriageReturn);
    ApplyOk(s, CarriageReturn);
    ApplyOk(home, LineFeed);
    MovesExactly(s, 0, 0, 0, 0);
    FeedsApply(s, rune);
    FeedsApply(home, rune);
    FeedsApply(Apply(home, LineFeed), rune);
    LineFeedOk(home);
  }

  // ----- margins, modes and buffers -----

  lemma MarginsExactly(s: State, top: int, bottom: int)
    requires Ok(s)
    ensures MarginsSet(s, Apply(s, SetScrollRegion(top, bottom)), top, bottom)
  {
    hide GridOk, LineFeedFrom, ReverseFrom, WriteCell, Wrapped, Sgr, ResizeTo, EditedRow, EditedLines;
  }

  lemma SavedExactly(s: State)
    requires Ok(s)
    ensures Apply(s, SaveCursor) == s.(saved := Saved(X(s), Y(s), s.pen))
    ensures CursorRestored(s, Apply(s, RestoreCursor))
  {
    hide LineFeedFrom, ReverseFrom, WriteCell, Wrapped, Sgr, ResizeTo, EditedRow, EditedLines;
  }

  lemma ModesExactly(s: State, v: bool, title: Text)
    requires Ok(s)
    ensures Apply(s, SetCursorVisible(v)) == s.(cursorVisible := v)
    ensures Apply(s, SetBracketedPaste(v)) == s.(bracketedPaste := v)
    ensures Apply(s, SetTitle(title)) == s.(title := title)
    ensures Apply(s, ClearScrollback) == s.(evicted := [])
  {
    hide ApplyOther;
    OtherIs(s, SetCursorVisible(v));
    OtherIs(s, SetBracketedPaste(v));
    OtherIs(s, SetTitle(title));
    OtherIs(s, ClearScrollback);
  }

  lemma OtherIs(s: State, op: Op)
    requires Ok(s) && !IsMove(op) && !IsRowEdit(op) && !IsLinesEdit(op)
    ensures Apply(s, op) == ApplyOther(s, op)
    ensures match op
      case SetCursorVisible(v) => ApplyOther(s, op) == s.(cursorVisible := v)
      case SetBracketedPaste(v) => ApplyOther(s, op) == s.(bracketedPaste := v)
      case SetTitle(title) => ApplyOther(s, op) == s.(title := title)
      case ClearScrollback => ApplyOther(s, op) == s.(evicted := [])
      case ApplySGR(params) => ApplyOther(s, op) == s.(pen := Sgr(s.pen, if params == [] then [0] else params))
      case _ => true
  {
    hide LineFeedFrom, ReverseFrom, WriteCell, Wrapped, Sgr, ResizeTo, EditedRow, EditedLines, Ok;
  }

  lemma AltExactly(s: State)
    requires Ok(s)
    ensures AltShown(s, Apply(s, SetAltScreen(true))) && MainShown(s, Apply(s, SetAltScreen(false)))
  {
    hide LineFeedFrom, ReverseFrom, WriteCell, Wrapped, Sgr, ResizeTo, EditedRow, EditedLines;
  }

  lemma ResetExactly(s: State)
    requires Ok(s)
    ensures WasReset(s, Apply(s, Reset))
  {
    hide LineFeedFrom, ReverseFrom, WriteCell, Wrapped, Sgr, ResizeTo, EditedRow, EditedLines;
  }

  lemma FitsExactly(g: Grid, cols: int, rows: int)
    requires cols >= 1 && rows >= 1
    ensures Fitted(g, ResizeGrid(g, cols, rows), cols, rows)
  {
    var h := ResizeGrid(g, cols, rows);
    forall i, j | 0 <= i < rows && 0 <= j < cols
      ensures |h.cells[i]| == cols
      ensures h.cells[i][j] == if i < |g.cells| && j < |g.cells[i]| then g.cells[i][j] else EMPTY
    {
      assert h.cells[i] == ResizedLine(g.cells, cols, i);
    }
    assert forall i :: 0 <= i < rows ==> |h.cells[i]| == cols by {
      forall i | 0 <= i < rows ensures |h.cells[i]| == cols {
        assert h.cells[i] == ResizedLine(g.cells, cols, i);
      }
    }
  }

  lemma ResizeExactly(s: State, cols: int, rows: int)
    requires Ok(s)
    ensures WasResized(s, Apply(s, Resize(cols, rows)), cols, rows)
  {
    hide LineFeedFrom, ReverseFrom, WriteCell, Wrapped, Sgr, ResizeGrid, EditedRow, EditedLines, Fitted, Ok;
    FitsExactly(s.main, Greater(cols, 1), Greater(rows, 1));
    FitsExactly(s.alt, Greater(cols, 1), Greater(rows, 1));
  }

  // ----- the pen -----

  /** What single parameters do to the pen. */
  lemma PenExactly(pen: Cell, k: int, p: int)
    ensures Sgr(pen, [0]) == EMPTY
    ensures Sgr(pen, [1]) == pen.(bold := true) && Sgr(pen, [22]) == pen.(bold := false)
    ensures Sgr(pen, [4]) == pen.(underline := true) && Sgr(pen, [24]) == pen.(underline := false)
    ensures Sgr(pen, [7]) == pen.(inverse := true) && Sgr(pen, [27]) == pen.(inverse := false)
    ensures Sgr(pen, [39]) == pen.(fg := DefaultColor) && Sgr(pen, [49]) == pen.(bg := DefaultColor)
    ensures 0 <= k <= 7 ==> Sgr(pen, [30 + k]) == pen.(fg := Color16(k)) && Sgr(pen, [40 + k]) == pen.(bg := Color16(k))
    ensures 0 <= k <= 7 ==> Sgr(pen, [90 + k]) == pen.(fg := Color16(8 + k)) && Sgr(pen, [100 + k]) == pen.(bg := Color16(8 + k))
    ensures p !in {0, 1, 4, 7, 22, 24, 27} && !(30 <= p <= 49) && !(90 <= p <= 107) ==> Sgr(pen, [p]) == pen
  {
    SgrSingle(pen, 0);
    SgrSingle(pen, 1);
    SgrSingle(pen, 4);
    SgrSingle(pen, 7);
    SgrSingle(pen, 22);
    SgrSingle(pen, 24);
    SgrSingle(pen, 27);
    SgrSingle(pen, 39);
    SgrSingle(pen, 49);
    SgrSingle(pen, 30 + k);
    SgrSingle(pen, 40 + k);
    SgrSingle(pen, 90 + k);
    SgrSingle(pen, 100 + k);
    SgrSingle(pen, p);
  }

  lemma SgrSingle(pen: Cell, p: int)
    ensures p != 38 && p != 48 ==> Sgr(pen, [p]) == SgrOne(pen, p)
  {
    hide SgrOne;
    if p != 38 && p != 48 {
      SgrCons(pen, p, []);
      assert [p] + [] == [p];
    }
  }

  /** Parameters act one after the other. */
  lemma SgrCons(pen: Cell, p: int, rest: seq<int>)
    requires p != 38 && p != 48
    ensures Sgr(pen, [p] + rest) == Sgr(SgrOne(pen, p), rest)
    ensures Sgr(pen, []) == pen
  {
    hide SgrOne, ParseExtendedColor;
    assert ([p] + rest)[1..] == rest;
  }

  lemma PenInOrder(pen: Cell, p: int, rest: seq<int>)
    requires p != 38 && p != 48
    ensures Sgr(pen, [p] + rest) == Sgr(Sgr(pen, [p]), rest)
  {
    hide Sgr, SgrOne;
    SgrCons(pen, p, rest);
    SgrSingle(pen, p);
  }

  function Channel(v: int): int {
    Within(v, 256)
  }

  /** 38 and 48 take the color that follows, indexed or by channels, and what comes after
      it acts next; anything else ends the list. */
  lemma ExtendedExactly(pen: Cell, n: int, r: int, g: int, b: int, rest: seq<int>)
    ensures Sgr(pen, [38, 5, n] + rest) == Sgr(pen.(fg := Color256(Channel(n))), rest)
    ensures Sgr(pen, [48, 5, n] + rest) == Sgr(pen.(bg := Color256(Channel(n))), rest)
    ensures Sgr(pen, [38, 2, r, g, b] + rest) == Sgr(pen.(fg := ColorRGB(Channel(r), Channel(g), Channel(b))), rest)
    ensures Sgr(pen, [48, 2, r, g, b] + rest) == Sgr(pen.(bg := ColorRGB(Channel(r), Channel(g), Channel(b))), rest)
    ensures (rest == [] || (rest[0] != 2 && rest[0] != 5) || |rest| < (if rest[0] == 5 then 2 else 4)) ==>
      Sgr(pen, [38] + rest) == pen && Sgr(pen, [48] + rest) == pen
  {
    hide Sgr;
    IndexedColor(pen, 38, n, rest);
    IndexedColor(pen, 48, n, rest);
    ChannelColor(pen, 38, r, g, b, rest);
    ChannelColor(pen, 48, r, g, b, rest);
    if rest == [] || (rest[0] != 2 && rest[0] != 5) || |rest| < (if rest[0] == 5 then 2 else 4) {
      NoColor(pen, 38, rest);
      NoColor(pen, 48, rest);
    }
  }

  lemma IndexedColor(pen: Cell, p: int, n: int, rest: seq<int>)
    requires p == 38 || p == 48
    ensures Sgr(pen, [p, 5, n] + rest) ==
      Sgr(if p == 38 then pen.(fg := Color256(Channel(n))) else pen.(bg := Color256(Channel(n))), rest)
  {
    hide SgrOne;
    var all := [p, 5, n] + rest;
    assert all[1..] == [5, n] + rest;
    assert all[3..] == rest;
  }

  lemma ChannelColor(pen: Cell, p: int, r: int, g: int, b: int, rest: seq<int>)
    requires p == 38 || p == 48
    ensures var c := ColorRGB(Channel(r), Channel(g), Channel(b));
      Sgr(pen, [p, 2, r, g, b] + rest) == Sgr(if p == 38 then pen.(fg := c) else pen.(bg := c), rest)
  {
    hide SgrOne;
    var all := [p, 2, r, g, b] + rest;
    assert all[1..] == [2, r, g, b] + rest;
    assert all[5..] == rest;
  }

  lemma NoColor(pen: Cell, p: int, rest: seq<int>)
    requires p == 38 || p == 48
    requires rest == [] || (rest[0] != 2 && rest[0] != 5) || |rest| < (if rest[0] == 5 then 2 else 4)
    ensures Sgr(pen, [p] + rest) == pen
  {
    hide SgrOne;
    assert ([p] + rest)[1..] == rest;
  }

  /** An SGR changes the pen and nothing else; an empty list is a reset. */
  lemma SgrExactly(s: State, params: seq<int>)
    requires Ok(s)
    ensures Apply(s, ApplySGR(params)) == s.(pen := if params == [] then EMPTY else Sgr(s.pen, params))
  {
    hide ApplyOther, Apply, Sgr, Ok;
    OtherIs(s, ApplySGR(params));
    SgrSingle(s.pen, 0);
  }
}
