/** The terminal screen as a value (internal/terminal/screen.go).

    `Apply` says what every screen operation does to a plain state without
    storage: grids are sequences of rows, and the scrollback is the whole sequence
    of lines evicted since it was last cleared. The lemmas are about whole runs.
    `Screens.Screen` is the object with shared, moving row storage that behaves
    like this value. */
module ScreenModel {
  import opened Texts

  datatype Color = DefaultColor | Color16(index: int) | Color256(index: int) | ColorRGB(r: int, g: int, b: int)

  datatype Cell = Cell(rune: int, fg: Color, bg: Color, bold: bool, underline: bool, inverse: bool)

  const NOTHING := Cell(0, DefaultColor, DefaultColor, false, false, false)

  const SCROLLBACK_CAP: nat := 4000

  datatype Saved = NotSaved | Saved(x: int, y: int, pen: Cell)

  datatype Grid = Grid(cells: seq<seq<Cell>>, x: int, y: int)

  datatype State = State(
    cols: int, rows: int,
    main: Grid, alt: Grid, altActive: bool,
    pen: Cell,
    evicted: seq<seq<Cell>>,
    top: int, bottom: int,
    cursorVisible: bool, bracketedPaste: bool, title: Text,
    saved: Saved, altSaved: Saved,
    wrapPending: bool)

  datatype Op =
    | PutRune(rune: int) | LineFeed | ReverseLineFeed | CarriageReturn | BackSpace | Tab
    | MoveCursor(dx: int, dy: int) | SetCursor(x: int, y: int) | SetCursorCol(x: int) | SetCursorRow(y: int)
    | EraseDisplay(mode: int) | ClearScrollback | EraseLine(mode: int) | EraseChars(n: int)
    | InsertChars(n: int) | DeleteChars(n: int) | InsertLines(n: int) | DeleteLines(n: int)
    | ScrollUp(n: int) | ScrollDown(n: int) | SetScrollRegion(top: int, bottom: int)
    | SaveCursor | RestoreCursor | SetCursorVisible(v: bool) | SetBracketedPaste(v: bool)
    | SetAltScreen(enter: bool) | SetTitle(title: Text) | Reset | ApplySGR(params: seq<int>)
    | Resize(cols: int, rows: int)

  // ----- small pieces -----

  function Clamp(v: int, lo: int, hi: int): int {
    if v < lo then lo else if v > hi then hi else v
  }

  function AtLeastOne(n: int): int {
    if n < 1 then 1 else n
  }

  function AtMost(n: int, most: int): int {
    if n > most then most else n
  }

  function Repeat<T>(n: int, v: T): (r: seq<T>)
    ensures |r| == (if n < 0 then 0 else n) && forall i :: 0 <= i < |r| ==> r[i] == v
  {
    seq(if n < 0 then 0 else n, _ => v)
  }

  function Active(s: State): Grid {
    if s.altActive then s.alt else s.main
  }

  function WithActive(s: State, g: Grid): State {
    if s.altActive then s.(alt := g) else s.(main := g)
  }

  /** Erased and scrolled-in cells keep only the pen's background. */
  function Blank(s: State): Cell {
    NOTHING.(bg := s.pen.bg)
  }

  function NewGrid(cols: int, rows: int): Grid {
    Grid(Repeat(rows, Repeat(cols, NOTHING)), 0, 0)
  }

  /** `row` with cells from `from` up to `to` set to `c`. */
  function Fill(row: seq<Cell>, from: int, to: int, c: Cell): (r: seq<Cell>)
    ensures |r| == |row|
  {
    seq(|row|, i requires 0 <= i < |row| => if from <= i < to then c else row[i])
  }

  /** Lines top..bottom move up by n; n new lines appear at the bottom. */
  function ShiftUp<T>(lines: seq<T>, top: int, bottom: int, fill: seq<T>): (r: seq<T>)
    requires 0 <= top <= bottom < |lines| && |fill| <= bottom - top + 1
    ensures |r| == |lines|
  {
    lines[..top] + lines[top + |fill|..bottom + 1] + fill + lines[bottom + 1..]
  }

  /** Lines top..bottom move down by n; n new lines appear at the top. */
  function ShiftDown<T>(lines: seq<T>, top: int, bottom: int, fill: seq<T>): (r: seq<T>)
    requires 0 <= top <= bottom < |lines| && |fill| <= bottom - top + 1
    ensures |r| == |lines|
  {
    lines[..top] + fill + lines[top..bottom + 1 - |fill|] + lines[bottom + 1..]
  }

  // ----- the invariant -----

  predicate GridOk(g: Grid, cols: int, rows: int) {
    && |g.cells| == rows
    && (forall i :: 0 <= i < rows ==> |g.cells[i]| == cols)
    && 0 <= g.x < cols && 0 <= g.y < rows
  }

  predicate Ok(s: State) {
    && s.cols >= 1 && s.rows >= 1
    && GridOk(s.main, s.cols, s.rows) && GridOk(s.alt, s.cols, s.rows)
    && 0 <= s.top <= s.bottom <= s.rows - 1
    && (s.wrapPending ==> Active(s).x == s.cols - 1)
  }

  // ----- what each operation does -----

  function Place(s: State, x: int, y: int): State {
    WithActive(s.(wrapPending := false), Active(s).(x := Clamp(x, 0, s.cols - 1), y := Clamp(y, 0, s.rows - 1)))
  }

  function SetRow(s: State, y: int, row: seq<Cell>): State
    requires 0 <= y < |Active(s).cells|
  {
    WithActive(s, Active(s).(cells := Active(s).cells[y := row]))
  }

  function SetCells(s: State, cells: seq<seq<Cell>>): State {
    WithActive(s, Active(s).(cells := cells))
  }

  function BlankRows(s: State, n: int): seq<seq<Cell>> {
    Repeat(n, Repeat(s.cols, Blank(s)))
  }

  function ScrolledUp(s: State, n: int): seq<seq<Cell>>
    requires Ok(s) && n >= 0
  {
    ShiftUp(Active(s).cells, s.top, s.bottom, BlankRows(s, AtMost(n, s.bottom - s.top + 1)))
  }

  function ScrolledDown(s: State, n: int): seq<seq<Cell>>
    requires Ok(s) && n >= 0
  {
    ShiftDown(Active(s).cells, s.top, s.bottom, BlankRows(s, AtMost(n, s.bottom - s.top + 1)))
  }

  /** Only a full-height main screen records what a line feed pushes out. */
  predicate Records(s: State) {
    !s.altActive && s.top == 0 && s.bottom == s.rows - 1
  }

  /** lineFeedLocked. */
  function LineFeedFrom(s: State): State
    requires Ok(s)
  {
    var g := Active(s);
    if g.y == s.bottom then
      SetCells(if Records(s) then s.(evicted := s.evicted + [g.cells[s.top]]) else s, ScrolledUp(s, 1))
    else if g.y < s.rows - 1 then WithActive(s, g.(y := g.y + 1))
    else s
  }

  function ReverseFrom(s: State): State
    requires Ok(s)
  {
    var g := Active(s);
    if g.y == s.top then SetCells(s, ScrolledDown(s, 1))
    else if g.y > 0 then WithActive(s, g.(y := g.y - 1))
    else s
  }

  function NoWrap(s: State): State {
    s.(wrapPending := false)
  }

  /** The deferred wrap that happens just before the next rune. */
  function Wrapped(s: State): State
    requires Ok(s)
  {
    if s.wrapPending then LineFeedFrom(NoWrap(WithActive(s, Active(s).(x := 0)))) else s
  }

  function WriteCell(s: State, rune: int): State
    requires Ok(s)
  {
    var g := Active(s);
    var t := SetRow(s, g.y, g.cells[g.y][g.x := s.pen.(rune := rune)]);
    if g.x == s.cols - 1 then t.(wrapPending := true) else WithActive(t, Active(t).(x := g.x + 1))
  }

  // ----- operations that only move the cursor -----

  predicate IsMove(op: Op) {
    op.CarriageReturn? || op.BackSpace? || op.Tab? || op.MoveCursor? || op.SetCursor? || op.SetCursorCol? || op.SetCursorRow?
  }

  function MoveTarget(s: State, op: Op): (int, int)
    requires IsMove(op)
  {
    var g := Active(s);
    match op
    case CarriageReturn => (0, g.y)
    case BackSpace => (g.x - 1, g.y)
    case Tab => ((g.x / 8 + 1) * 8, g.y)
    case MoveCursor(dx, dy) => (g.x + dx, g.y + dy)
    case SetCursor(x, y) => (x, y)
    case SetCursorCol(x) => (x, g.y)
    case SetCursorRow(y) => (g.x, y)
  }

  // ----- operations on the cursor's row -----

  predicate IsRowEdit(op: Op) {
    op.EraseLine? || op.EraseChars? || op.InsertChars? || op.DeleteChars?
  }

  /** `row` after the operation, with the cursor in column `x`. */
  function RowAfter(row: seq<Cell>, op: Op, x: int, blank: Cell): (r: seq<Cell>)
    requires IsRowEdit(op) && 0 <= x < |row|
    ensures |r| == |row|
  {
    match op
    case EraseLine(mode) =>
      if mode == 0 then Fill(row, x, |row|, blank)
      else if mode == 1 then Fill(row, 0, x + 1, blank)
      else if mode == 2 then Fill(row, 0, |row|, blank)
      else row
    case EraseChars(n) => Fill(row, x, Clamp(x + AtLeastOne(n), 0, |row|), blank)
    case InsertChars(n0) =>
      var n := AtMost(AtLeastOne(n0), |row| - x);
      row[..x] + Repeat(n, blank) + row[x..|row| - n]
    case DeleteChars(n0) =>
      var n := AtMost(AtLeastOne(n0), |row| - x);
      row[..x] + row[x + n..] + Repeat(n, blank)
  }

  function EditedRow(s: State, op: Op): (r: seq<Cell>)
    requires Ok(s) && IsRowEdit(op)
    ensures |r| == s.cols
  {
    RowAfter(Active(s).cells[Active(s).y], op, Active(s).x, Blank(s))
  }

  // ----- operations on several lines -----

  predicate IsLinesEdit(op: Op) {
    op.EraseDisplay? || op.InsertLines? || op.DeleteLines? || op.ScrollUp? || op.ScrollDown?
  }

  function ErasedLine(s: State, mode: int, i: int): seq<Cell>
    requires Ok(s) && 0 <= i < s.rows
  {
    var g := Active(s);
    if (mode == 0 && i > g.y) || (mode == 1 && i < g.y) || mode == 2 then Fill(g.cells[i], 0, s.cols, Blank(s))
    else if mode == 0 && i == g.y then Fill(g.cells[i], g.x, s.cols, Blank(s))
    else if mode == 1 && i == g.y then Fill(g.cells[i], 0, g.x + 1, Blank(s))
    else g.cells[i]
  }

  function EditedLines(s: State, op: Op): seq<seq<Cell>>
    requires Ok(s) && IsLinesEdit(op)
  {
    var g := Active(s);
    match op
    case EraseDisplay(mode) => seq(s.rows, i requires 0 <= i < s.rows => ErasedLine(s, mode, i))
    case InsertLines(n) =>
      if g.y < s.top || g.y > s.bottom then g.cells
      else ShiftDown(g.cells, g.y, s.bottom, BlankRows(s, AtMost(AtLeastOne(n), s.bottom - g.y + 1)))
    case DeleteLines(n) =>
      if g.y < s.top || g.y > s.bottom then g.cells
      else ShiftUp(g.cells, g.y, s.bottom, BlankRows(s, AtMost(AtLeastOne(n), s.bottom - g.y + 1)))
    case ScrollUp(n) => ScrolledUp(s, AtLeastOne(n))
    case ScrollDown(n) => ScrolledDown(s, AtLeastOne(n))
  }

  // ----- margins, modes and buffers -----

  function ScrollRegion(s: State, top0: int, bottom0: int): State {
    var t := Clamp(top0, 0, s.rows - 1);
    var b := Clamp(bottom0, 0, s.rows - 1);
    Place(if t >= b then s.(top := 0, bottom := s.rows - 1) else s.(top := t, bottom := b), 0, 0)
  }

  function Restore(s: State): State {
    match s.saved
    case NotSaved => Place(s.(pen := NOTHING), 0, 0)
    case Saved(x, y, pen) => Place(s.(pen := pen), x, y)
  }

  function SwitchScreen(s: State, enter: bool): State {
    if enter == s.altActive then s
    else
      var t := s.(wrapPending := false, top := 0, bottom := s.rows - 1, altActive := enter);
      if enter then t.(altSaved := Saved(s.main.x, s.main.y, s.pen), alt := NewGrid(s.cols, s.rows))
      else match s.altSaved
        case NotSaved => t
        case Saved(x, y, pen) =>
          t.(main := s.main.(x := Clamp(x, 0, s.cols - 1), y := Clamp(y, 0, s.rows - 1)), pen := pen, altSaved := NotSaved)
  }

  function ResetAll(s: State): State {
    s.(pen := NOTHING, main := NewGrid(s.cols, s.rows), alt := NewGrid(s.cols, s.rows), altActive := false,
       top := 0, bottom := s.rows - 1, cursorVisible := true, bracketedPaste := false,
       saved := NotSaved, altSaved := NotSaved, wrapPending := false)
  }

  /** Content stays at the top left; what does not fit is cut, the rest is blank. */
  function ResizeRow(row: seq<Cell>, cols: int): seq<Cell>
    requires cols >= 0
  {
    if |row| > cols then row[..cols] else row + Repeat(cols - |row|, NOTHING)
  }

  function ResizedLine(cells: seq<seq<Cell>>, cols: int, i: nat): seq<Cell>
    requires cols >= 1
  {
    if i < |cells| then ResizeRow(cells[i], cols) else Repeat(cols, NOTHING)
  }

  function ResizedCells(cells: seq<seq<Cell>>, cols: int, rows: int): (r: seq<seq<Cell>>)
    requires cols >= 1 && rows >= 0
    ensures |r| == rows
  {
    seq(rows, i requires 0 <= i < rows => ResizedLine(cells, cols, i))
  }

  function ResizeGrid(g: Grid, cols: int, rows: int): Grid
    requires cols >= 1 && rows >= 1
  {
    Grid(ResizedCells(g.cells, cols, rows), Clamp(g.x, 0, cols - 1), Clamp(g.y, 0, rows - 1))
  }

  function ResizeTo(s: State, cols0: int, rows0: int): State {
    var cols, rows := AtLeastOne(cols0), AtLeastOne(rows0);
    if cols == s.cols && rows == s.rows then s
    else s.(cols := cols, rows := rows, main := ResizeGrid(s.main, cols, rows), alt := ResizeGrid(s.alt, cols, rows),
            top := 0, bottom := rows - 1, wrapPending := false)
  }

  // ----- SGR -----

  datatype Extended = Malformed | Extended(color: Color, consumed: nat)

  function ParseExtendedColor(rest: seq<int>): (r: Extended)
    ensures r.Extended? ==> r.consumed <= |rest|
  {
    if rest == [] then Malformed
    else if rest[0] == 5 then
      if |rest| < 2 then Malformed else Extended(Color256(Clamp(rest[1], 0, 255)), 2)
    else if rest[0] == 2 then
      if |rest| < 4 then Malformed
      else Extended(ColorRGB(Clamp(rest[1], 0, 255), Clamp(rest[2], 0, 255), Clamp(rest[3], 0, 255)), 4)
    else Malformed
  }

  function SgrOne(pen: Cell, p: int): Cell {
    if p == 0 then NOTHING
    else if p == 1 then pen.(bold := true)
    else if p == 4 then pen.(underline := true)
    else if p == 7 then pen.(inverse := true)
    else if p == 22 then pen.(bold := false)
    else if p == 24 then pen.(underline := false)
    else if p == 27 then pen.(inverse := false)
    else if 30 <= p <= 37 then pen.(fg := Color16(p - 30))
    else if p == 39 then pen.(fg := DefaultColor)
    else if 40 <= p <= 47 then pen.(bg := Color16(p - 40))
    else if p == 49 then pen.(bg := DefaultColor)
    else if 90 <= p <= 97 then pen.(fg := Color16(p - 90 + 8))
    else if 100 <= p <= 107 then pen.(bg := Color16(p - 100 + 8))
    else pen
  }

  /** A parameter list folded into the pen; a malformed extended color ends it. */
  function Sgr(pen: Cell, params: seq<int>): Cell
    decreases |params|
  {
    if params == [] then pen
    else if params[0] == 38 || params[0] == 48 then
      match ParseExtendedColor(params[1..])
      case Malformed => pen
      case Extended(color, consumed) =>
        Sgr(if params[0] == 38 then pen.(fg := color) else pen.(bg := color), params[1 + consumed..])
    else Sgr(SgrOne(pen, params[0]), params[1..])
  }

  // ----- all operations -----

  function Apply(s: State, op: Op): State
    requires Ok(s)
  {
    if IsMove(op) then Place(s, MoveTarget(s, op).0, MoveTarget(s, op).1)
    else if IsRowEdit(op) then SetRow(NoWrap(s), Active(s).y, EditedRow(s, op))
    else if IsLinesEdit(op) then SetCells(NoWrap(s), EditedLines(s, op))
    else ApplyOther(s, op)
  }

  function ApplyOther(s: State, op: Op): State
    requires Ok(s) && !IsMove(op) && !IsRowEdit(op) && !IsLinesEdit(op)
  {
    match op
    case PutRune(r) => WrappedOk(s); WriteCell(Wrapped(s), r)
    case LineFeed => LineFeedFrom(NoWrap(s))
    case ReverseLineFeed => ReverseFrom(NoWrap(s))
    case ClearScrollback => s.(evicted := [])
    case SetScrollRegion(t, b) => ScrollRegion(s, t, b)
    case SaveCursor => s.(saved := Saved(Active(s).x, Active(s).y, s.pen))
    case RestoreCursor => Restore(s)
    case SetCursorVisible(v) => s.(cursorVisible := v)
    case SetBracketedPaste(v) => s.(bracketedPaste := v)
    case SetAltScreen(enter) => SwitchScreen(s, enter)
    case SetTitle(title) => s.(title := title)
    case Reset => ResetAll(s)
    case ApplySGR(params) => s.(pen := Sgr(s.pen, if params == [] then [0] else params))
    case Resize(cols, rows) => ResizeTo(s, cols, rows)
  }

  function NewScreen(cols0: int, rows0: int): State {
    var cols, rows := AtLeastOne(cols0), AtLeastOne(rows0);
    State(cols, rows, NewGrid(cols, rows), NewGrid(cols, rows), false, NOTHING, [], 0, rows - 1,
          true, false, [], NotSaved, NotSaved, false)
  }

  // ----- the invariant over whole runs -----

  lemma NewScreenOk(cols: int, rows: int)
    ensures Ok(NewScreen(cols, rows))
  {
  }

  lemma CellsOk(s: State, cells: seq<seq<Cell>>)
    requires Ok(s) && |cells| == s.rows && forall i :: 0 <= i < |cells| ==> |cells[i]| == s.cols
    ensures Ok(SetCells(s, cells))
  {
  }

  lemma ShiftUpAt<T>(lines: seq<T>, top: int, bottom: int, fill: seq<T>, i: int)
    requires 0 <= top <= bottom < |lines| && |fill| <= bottom - top + 1 && 0 <= i < |lines|
    ensures ShiftUp(lines, top, bottom, fill)[i] ==
      if i < top || i > bottom then lines[i]
      else if i + |fill| <= bottom then lines[i + |fill|]
      else fill[i - (bottom + 1 - |fill|)]
  {
  }

  lemma ShiftDownAt<T>(lines: seq<T>, top: int, bottom: int, fill: seq<T>, i: int)
    requires 0 <= top <= bottom < |lines| && |fill| <= bottom - top + 1 && 0 <= i < |lines|
    ensures ShiftDown(lines, top, bottom, fill)[i] ==
      if i < top || i > bottom then lines[i]
      else if i >= top + |fill| then lines[i - |fill|]
      else fill[i - top]
  {
  }

  lemma ShiftUpWidth(lines: seq<seq<Cell>>, top: int, bottom: int, fill: seq<seq<Cell>>, cols: int)
    requires 0 <= top <= bottom < |lines| && |fill| <= bottom - top + 1
    requires forall i :: 0 <= i < |lines| ==> |lines[i]| == cols
    requires forall i :: 0 <= i < |fill| ==> |fill[i]| == cols
    ensures forall i :: 0 <= i < |lines| ==> |ShiftUp(lines, top, bottom, fill)[i]| == cols
  {
    forall i | 0 <= i < |lines| ensures |ShiftUp(lines, top, bottom, fill)[i]| == cols {
      ShiftUpAt(lines, top, bottom, fill, i);
    }
  }

  lemma ShiftDownWidth(lines: seq<seq<Cell>>, top: int, bottom: int, fill: seq<seq<Cell>>, cols: int)
    requires 0 <= top <= bottom < |lines| && |fill| <= bottom - top + 1
    requires forall i :: 0 <= i < |lines| ==> |lines[i]| == cols
    requires forall i :: 0 <= i < |fill| ==> |fill[i]| == cols
    ensures forall i :: 0 <= i < |lines| ==> |ShiftDown(lines, top, bottom, fill)[i]| == cols
  {
    forall i | 0 <= i < |lines| ensures |ShiftDown(lines, top, bottom, fill)[i]| == cols {
      ShiftDownAt(lines, top, bottom, fill, i);
    }
  }

  lemma ScrolledWidth(s: State, n: int)
    requires Ok(s) && n >= 0
    ensures |ScrolledUp(s, n)| == |ScrolledDown(s, n)| == s.rows
    ensures forall i :: 0 <= i < s.rows ==> |ScrolledUp(s, n)[i]| == |ScrolledDown(s, n)[i]| == s.cols
  {
    hide ShiftUp, ShiftDown;
    var fill := BlankRows(s, AtMost(n, s.bottom - s.top + 1));
    ShiftUpWidth(Active(s).cells, s.top, s.bottom, fill, s.cols);
    ShiftDownWidth(Active(s).cells, s.top, s.bottom, fill, s.cols);
  }

  lemma EditedLinesWidth(s: State, op: Op)
    requires Ok(s) && IsLinesEdit(op)
    ensures |EditedLines(s, op)| == s.rows
    ensures forall i :: 0 <= i < s.rows ==> |EditedLines(s, op)[i]| == s.cols
  {
    hide ShiftUp, ShiftDown, ScrolledUp, ScrolledDown, Fill;
    var g := Active(s);
    match op
    case EraseDisplay(mode) =>
    case InsertLines(n) =>
      if s.top <= g.y <= s.bottom {
        ShiftDownWidth(g.cells, g.y, s.bottom, BlankRows(s, AtMost(AtLeastOne(n), s.bottom - g.y + 1)), s.cols);
      }
    case DeleteLines(n) =>
      if s.top <= g.y <= s.bottom {
        ShiftUpWidth(g.cells, g.y, s.bottom, BlankRows(s, AtMost(AtLeastOne(n), s.bottom - g.y + 1)), s.cols);
      }
    case ScrollUp(n) => ScrolledWidth(s, AtLeastOne(n));
    case ScrollDown(n) => ScrolledWidth(s, AtLeastOne(n));
  }

  lemma LineFeedOk(s: State)
    requires Ok(s) && !s.wrapPending
    ensures Ok(LineFeedFrom(s)) && !LineFeedFrom(s).wrapPending
    ensures Ok(ReverseFrom(s))
  {
    hide ScrolledUp, ScrolledDown;
    ScrolledWidth(s, 1);
  }

  lemma WrappedOk(s: State)
    requires Ok(s)
    ensures Ok(Wrapped(s)) && !Wrapped(s).wrapPending
  {
    hide LineFeedFrom;
    if s.wrapPending {
      LineFeedOk(NoWrap(WithActive(s, Active(s).(x := 0))));
    }
  }

  lemma ResizeOk(s: State, cols: int, rows: int)
    requires Ok(s)
    ensures Ok(ResizeTo(s, cols, rows))
  {
  }

  lemma PlaceOk(s: State, x: int, y: int)
    requires Ok(s)
    ensures Ok(Place(s, x, y))
  {
  }

  lemma SetRowOk(s: State, y: int, row: seq<Cell>)
    requires Ok(s) && 0 <= y < s.rows && |row| == s.cols
    ensures Ok(SetRow(s, y, row))
  {
  }

  lemma WriteCellOk(s: State, rune: int)
    requires Ok(s) && !s.wrapPending
    ensures Ok(WriteCell(s, rune))
  {
  }

  lemma ScrollRegionOk(s: State, top: int, bottom: int)
    requires Ok(s)
    ensures Ok(ScrollRegion(s, top, bottom))
  {
    hide Place;
    var t, b := Clamp(top, 0, s.rows - 1), Clamp(bottom, 0, s.rows - 1);
    PlaceOk(if t >= b then s.(top := 0, bottom := s.rows - 1) else s.(top := t, bottom := b), 0, 0);
  }

  lemma RestoreOk(s: State)
    requires Ok(s)
    ensures Ok(Restore(s))
  {
    hide Place;
    match s.saved
    case NotSaved => PlaceOk(s.(pen := NOTHING), 0, 0);
    case Saved(x, y, pen) => PlaceOk(s.(pen := pen), x, y);
  }

  lemma SwitchOk(s: State, enter: bool)
    requires Ok(s)
    ensures Ok(SwitchScreen(s, enter)) && Ok(ResetAll(s))
  {
  }

  lemma OtherOk(s: State, op: Op)
    requires Ok(s) && !IsMove(op) && !IsRowEdit(op) && !IsLinesEdit(op)
    ensures Ok(ApplyOther(s, op))
  {
    hide ReverseFrom, LineFeedFrom, Wrapped, WriteCell, ResizeTo, Sgr, ScrollRegion, Restore, SwitchScreen, ResetAll;
    match op
    case PutRune(r) => WrappedOk(s); WriteCellOk(Wrapped(s), r);
    case LineFeed => LineFeedOk(NoWrap(s));
    case ReverseLineFeed => LineFeedOk(NoWrap(s));
    case SetScrollRegion(t, b) => ScrollRegionOk(s, t, b);
    case RestoreCursor => RestoreOk(s);
    case SetAltScreen(enter) => SwitchOk(s, enter);
    case Reset => SwitchOk(s, true);
    case Resize(cols, rows) => ResizeOk(s, cols, rows);
    case _ =>
  }

  lemma ApplyOk(s: State, op: Op)
    requires Ok(s)
    ensures Ok(Apply(s, op))
  {
    hide EditedRow, EditedLines, ApplyOther, Place, MoveTarget, SetRow, SetCells;
    if IsMove(op) {
      PlaceOk(s, MoveTarget(s, op).0, MoveTarget(s, op).1);
    } else if IsRowEdit(op) {
      SetRowOk(NoWrap(s), Active(s).y, EditedRow(s, op));
    } else if IsLinesEdit(op) {
      EditedLinesWidth(s, op);
      CellsOk(NoWrap(s), EditedLines(s, op));
    } else {
      OtherOk(s, op);
    }
  }

  /** Over every run of operations, resizes included, the invariant holds. */
  function Run(s: State, ops: seq<Op>): (r: State)
    requires Ok(s)
    ensures Ok(r)
  {
    if ops == [] then s
    else
      var before := Run(s, ops[..|ops| - 1]);
      ApplyOk(before, ops[|ops| - 1]);
      Apply(before, ops[|ops| - 1])
  }

  // ----- scrollback -----

  /** The retained part of the evicted lines: the last 4000. */
  function Retained(evicted: seq<seq<Cell>>): seq<seq<Cell>> {
    if |evicted| <= SCROLLBACK_CAP then evicted else evicted[|evicted| - SCROLLBACK_CAP..]
  }

  /** Everything the user can scroll through, oldest first. */
  function Page(s: State): seq<seq<Cell>> {
    Retained(s.evicted) + s.main.cells
  }

  function WithoutFirst<T>(s: seq<T>): seq<T>
    requires s != []
  {
    s[1..]
  }

  lemma RetainedSnoc(evicted: seq<seq<Cell>>, line: seq<Cell>)
    ensures Retained(evicted + [line]) ==
      if |Retained(evicted)| == SCROLLBACK_CAP then WithoutFirst(Retained(evicted)) + [line] else Retained(evicted) + [line]
  {
  }

  lemma NoWrapOk(s: State)
    requires Ok(s)
    ensures Ok(NoWrap(s))
  {
  }

  lemma FullScroll(s: State)
    requires Ok(s) && Records(s)
    ensures ScrolledUp(s, 1) == s.main.cells[1..] + [Repeat(s.cols, Blank(s))]
  {
    assert BlankRows(s, 1) == [Repeat(s.cols, Blank(s))];
  }

  lemma FullLineFeed(s: State)
    requires Ok(s) && Records(s) && s.main.y == s.bottom
    ensures var r := Apply(s, LineFeed);
      r.main.cells == s.main.cells[1..] + [Repeat(s.cols, Blank(s))] && r.evicted == s.evicted + [s.main.cells[0]]
  {
    hide ScrolledUp, Repeat;
    NoWrapOk(s);
    FullScroll(NoWrap(s));
  }

  /** A line feed at the bottom of a full-height main screen adds one blank line to
      the page and loses a line exactly when the scrollback already held 4000. */
  lemma LineFeedConserves(s: State)
    requires Ok(s) && Records(s) && s.main.y == s.bottom
    ensures var r := Apply(s, LineFeed); var longer := Page(s) + [Repeat(s.cols, Blank(s))];
      Page(r) == if |Retained(s.evicted)| == SCROLLBACK_CAP then WithoutFirst(longer) else longer
  {
    hide Retained, Apply, Records, Repeat;
    var blank := Repeat(s.cols, Blank(s));
    var cells := s.main.cells;
    var held := Retained(s.evicted);
    FullLineFeed(s);
    RetainedSnoc(s.evicted, cells[0]);
    assert [cells[0]] + cells[1..] == cells;
    if |held| == SCROLLBACK_CAP {
      assert held + cells + [blank] == [held[0]] + (held[1..] + cells + [blank]);
    }
  }

  /** Any other line feed leaves the scrollback alone. */
  lemma LineFeedElsewhere(s: State)
    requires Ok(s) && !(Records(s) && s.main.y == s.bottom)
    ensures Apply(s, LineFeed).evicted == s.evicted
  {
    hide ScrolledUp;
  }

  predicate Feeds(op: Op) {
    op.LineFeed? || op.PutRune?
  }

  /** Only runes and line feeds add to the evicted lines, at most one line each, and
      only clearing removes any: a line once evicted is never changed. */
  lemma EvictedOnlyGrows(s: State, op: Op)
    requires Ok(s)
    ensures op.ClearScrollback? ==> Apply(s, op).evicted == []
    ensures !op.ClearScrollback? ==>
      && s.evicted <= Apply(s, op).evicted
      && |Apply(s, op).evicted| <= |s.evicted| + (if Feeds(op) then 1 else 0)
  {
    hide ScrolledUp, ScrolledDown, Sgr, EditedRow, EditedLines, MoveTarget;
    if !IsMove(op) && !IsRowEdit(op) && !IsLinesEdit(op) {
      OtherEvicted(s, op);
    }
  }

  lemma OtherEvicted(s: State, op: Op)
    requires Ok(s) && !IsMove(op) && !IsRowEdit(op) && !IsLinesEdit(op)
    ensures op.ClearScrollback? ==> ApplyOther(s, op).evicted == []
    ensures !op.ClearScrollback? ==>
      && s.evicted <= ApplyOther(s, op).evicted
      && |ApplyOther(s, op).evicted| <= |s.evicted| + (if Feeds(op) then 1 else 0)
  {
    hide LineFeedFrom, ReverseFrom, WriteCell, Wrapped, Sgr, Ok, ResizeGrid;
    NoWrapOk(s);
    FeedFrame(NoWrap(s));
    RuneFrame(s);
  }

  /** Line feeds and runes touch nothing but the active grid, the pending wrap and
      the evicted lines. */
  lemma FeedFrame(s: State)
    requires Ok(s)
    ensures var r := LineFeedFrom(s);
      && r == s.(main := r.main, alt := r.alt, evicted := r.evicted)
      && (s.altActive ==> r.main == s.main && r.evicted == s.evicted)
      && s.evicted <= r.evicted && |r.evicted| <= |s.evicted| + 1
    ensures var r := ReverseFrom(s);
      && r == s.(main := r.main, alt := r.alt)
      && (s.altActive ==> r.main == s.main)
  {
    hide ScrolledUp, ScrolledDown, Ok;
  }

  lemma RuneFrame(s: State)
    requires Ok(s)
    ensures Ok(Wrapped(s))
    ensures forall rune :: var r := WriteCell(Wrapped(s), rune);
      && r == s.(main := r.main, alt := r.alt, evicted := r.evicted, wrapPending := r.wrapPending)
      && (s.altActive ==> r.main == s.main && r.evicted == s.evicted)
      && s.evicted <= r.evicted && |r.evicted| <= |s.evicted| + 1
  {
    hide LineFeedFrom;
    WrappedOk(s);
    if s.wrapPending {
      FeedFrame(NoWrap(WithActive(s, Active(s).(x := 0))));
    }
  }

  lemma {:induction false} EvictedPrefix(s: State, ops: seq<Op>)
    requires Ok(s) && forall i :: 0 <= i < |ops| ==> !ops[i].ClearScrollback?
    ensures s.evicted <= Run(s, ops).evicted
  {
    hide Apply;
    if ops != [] {
      var front := ops[..|ops| - 1];
      EvictedPrefix(s, front);
      EvictedOnlyGrows(Run(s, front), ops[|ops| - 1]);
    }
  }

  // ----- the alternate screen -----

  /** What may happen between entering and leaving the alternate screen. */
  ghost predicate StaysInside(op: Op) {
    !op.Reset? && !op.Resize? && op != SetAltScreen(false)
  }

  /** The main screen put aside: its cells, and the cursor and pen saved for it. */
  ghost predicate Aside(s: State, home: State) {
    && s.altActive && s.cols == home.cols && s.rows == home.rows
    && s.main == home.main && s.altSaved == Saved(home.main.x, home.main.y, home.pen)
  }

  lemma AsideStep(s: State, home: State, op: Op)
    requires Ok(s) && Aside(s, home) && StaysInside(op)
    ensures Aside(Apply(s, op), home)
    ensures Apply(s, op).evicted == if op.ClearScrollback? then [] else s.evicted
  {
    hide Ok, EditedRow, EditedLines, MoveTarget, ApplyOther;
    if !IsMove(op) && !IsRowEdit(op) && !IsLinesEdit(op) {
      OtherAside(s, home, op);
    }
  }

  lemma OtherAside(s: State, home: State, op: Op)
    requires Ok(s) && Aside(s, home) && StaysInside(op) && !IsMove(op) && !IsRowEdit(op) && !IsLinesEdit(op)
    ensures Aside(ApplyOther(s, op), home)
    ensures ApplyOther(s, op).evicted == if op.ClearScrollback? then [] else s.evicted
  {
    hide Ok, LineFeedFrom, ReverseFrom, WriteCell, Wrapped, Sgr, ResizeTo, ResetAll;
    NoWrapOk(s);
    FeedFrame(NoWrap(s));
    RuneFrame(s);
  }

  lemma {:induction false} AsideRun(s: State, home: State, ops: seq<Op>)
    requires Ok(s) && Aside(s, home) && s.evicted == home.evicted
    requires forall i :: 0 <= i < |ops| ==> StaysInside(ops[i])
    ensures Aside(Run(s, ops), home)
    ensures Run(s, ops).evicted == if exists i :: 0 <= i < |ops| && ops[i].ClearScrollback? then [] else home.evicted
  {
    hide Apply, StaysInside, Aside, Ok;
    if ops != [] {
      var front, last := ops[..|ops| - 1], ops[|ops| - 1];
      AsideRun(s, home, front);
      AsideStep(Run(s, front), home, last);
      if last.ClearScrollback? {
        assert ops[|ops| - 1].ClearScrollback?;
      } else {
        assert (exists i :: 0 <= i < |ops| && ops[i].ClearScrollback?) <==>
               (exists i :: 0 <= i < |front| && front[i].ClearScrollback?) by {
          assert forall i :: 0 <= i < |front| ==> front[i] == ops[i];
        }
      }
    }
  }

  /** Alternate screen round trip: entering, running anything that stays inside, and
      leaving gives back the main cells, cursor and pen, and the scrollback unless it
      was explicitly cleared. */
  lemma AltScreenRoundTrip(home: State, ops: seq<Op>)
    requires Ok(home) && !home.altActive
    requires forall i :: 0 <= i < |ops| ==> StaysInside(ops[i])
    ensures var r := Run(home, [SetAltScreen(true)] + ops + [SetAltScreen(false)]);
      && !r.altActive && r.main == home.main && r.pen == home.pen && r.altSaved == NotSaved
      && (r.evicted == home.evicted || exists i :: 0 <= i < |ops| && ops[i].ClearScrollback? && r.evicted == [])
  {
    hide Apply, StaysInside;
    var entered := EnterAside(home);
    AsideRun(entered, home, ops);
    var inside := Run(entered, ops);
    RunOne(home, SetAltScreen(true));
    RunConcat(home, [SetAltScreen(true)], ops);
    RunConcat(home, [SetAltScreen(true)] + ops, [SetAltScreen(false)]);
    RunOne(inside, SetAltScreen(false));
    LeaveAside(inside, home);
  }

  lemma EnterAside(home: State) returns (s: State)
    requires Ok(home) && !home.altActive
    ensures s == Apply(home, SetAltScreen(true)) && Ok(s) && Aside(s, home) && s.evicted == home.evicted
  {
    s := Apply(home, SetAltScreen(true));
    ApplyOk(home, SetAltScreen(true));
  }

  lemma LeaveAside(s: State, home: State)
    requires Ok(s) && Aside(s, home) && Ok(home)
    ensures var r := Apply(s, SetAltScreen(false));
      !r.altActive && r.main == home.main && r.pen == home.pen && r.altSaved == NotSaved && r.evicted == s.evicted
  {
  }

  lemma RunOne(s: State, op: Op)
    requires Ok(s)
    ensures Run(s, [op]) == Apply(s, op)
  {
    hide Apply;
    assert [op][..0] == [];
    assert Run(s, []) == s;
  }

  lemma {:induction false} RunConcat(s: State, a: seq<Op>, b: seq<Op>)
    requires Ok(s)
    ensures Run(s, a + b) == Run(Run(s, a), b)
  {
    hide Apply, Ok;
    if b == [] {
      assert a + b == a;
    } else {
      assert (a + b)[..|a + b| - 1] == a + b[..|b| - 1];
      RunConcat(s, a, b[..|b| - 1]);
    }
  }
}
