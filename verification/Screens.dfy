/** The terminal screen as the source stores it (internal/terminal/screen.go).

    Rows are slices: a backing array and a length. Scrolling, line insertion and
    deletion move rows between slots of the outer slice without copying cells, the
    scrollback adopts rows the grid lets go of, and cells are written in place. The
    class behaves like the storage-free `ScreenModel.State` because no two rows of
    either grid or the scrollback ever share storage; that is part of `Valid`. */
module Screens {
  import opened Texts
  import opened ScreenModel

  datatype Row = Row(store: array<Cell>, len: nat)

  datatype GridState = GridState(cells: seq<Row>, cursorX: int, cursorY: int)

  /** The cells of every backing array in use. */
  type Store = map<array<Cell>, seq<Cell>>

  ghost predicate RowShows(row: Row, content: seq<Cell>, st: Store) {
    row.store in st && row.len <= |st[row.store]| && st[row.store][..row.len] == content
  }

  ghost predicate Shows(rows: seq<Row>, content: seq<seq<Cell>>, st: Store) {
    |rows| == |content| && forall i :: 0 <= i < |rows| ==> RowShows(rows[i], content[i], st)
  }

  ghost predicate Distinct(rows: seq<Row>) {
    forall i, j :: 0 <= i < j < |rows| ==> rows[i].store != rows[j].store
  }

  ghost predicate Disjoint(a: seq<Row>, b: seq<Row>) {
    forall i, j :: 0 <= i < |a| && 0 <= j < |b| ==> a[i].store != b[j].store
  }

  /** No two rows of the grids or the scrollback share storage. */
  ghost predicate Separate(main: seq<Row>, alt: seq<Row>, sb: seq<Row>) {
    && Distinct(main) && Distinct(alt) && Distinct(sb)
    && Disjoint(main, alt) && Disjoint(main, sb) && Disjoint(alt, sb)
  }

  ghost predicate InStore(rows: seq<Row>, st: Store) {
    forall i :: 0 <= i < |rows| ==> rows[i].store in st
  }

  /** The storage occurs in none of the rows. */
  ghost predicate Without(rows: seq<Row>, a: array<Cell>) {
    forall i :: 0 <= i < |rows| ==> rows[i].store != a
  }

  lemma ShownInStore(rows: seq<Row>, content: seq<seq<Cell>>, st: Store)
    requires Shows(rows, content, st)
    ensures InStore(rows, st)
  {
  }

  /** Rows whose storage is not written keep showing what they showed. */
  lemma WriteElsewhere(rows: seq<Row>, content: seq<seq<Cell>>, st: Store, a: array<Cell>, cells: seq<Cell>)
    requires Shows(rows, content, st) && Without(rows, a)
    ensures Shows(rows, content, st[a := cells])
  {
  }

  /** Writing the storage of row y changes row y and no other. */
  lemma WriteHere(rows: seq<Row>, content: seq<seq<Cell>>, st: Store, y: int, cells: seq<Cell>, row: seq<Cell>)
    requires Shows(rows, content, st) && Distinct(rows) && 0 <= y < |rows|
    requires rows[y].len <= |cells| && cells[..rows[y].len] == row
    ensures Shows(rows, content[y := row], st[rows[y].store := cells])
  {
    var a := rows[y].store;
    forall i | 0 <= i < |rows| ensures RowShows(rows[i], content[y := row][i], st[a := cells]) {
      assert RowShows(rows[i], content[i], st);
    }
  }

  // ----- storage that moves -----

  /** Each row of `after` is a different row of `before` or has new storage. */
  ghost predicate Rearranged(before: seq<Row>, after: seq<Row>, from: seq<int>, st: Store) {
    && |from| == |after|
    && (forall i :: 0 <= i < |after| ==>
          if from[i] < 0 then after[i].store !in st
          else from[i] < |before| && after[i].store == before[from[i]].store)
    && (forall i, j :: 0 <= i < j < |after| && (from[i] >= 0 || from[j] >= 0) ==> from[i] != from[j])
    && (forall i, j :: 0 <= i < j < |after| && from[i] < 0 && from[j] < 0 ==> after[i].store != after[j].store)
  }

  lemma RearrangedDistinct(before: seq<Row>, after: seq<Row>, from: seq<int>, st: Store)
    requires Rearranged(before, after, from, st) && Distinct(before) && InStore(before, st)
    ensures Distinct(after)
  {
    forall i, j | 0 <= i < j < |after| ensures after[i].store != after[j].store {
      if from[i] >= 0 && from[j] >= 0 {
        assert from[i] != from[j];
      }
    }
  }

  lemma RearrangedDisjoint(before: seq<Row>, after: seq<Row>, from: seq<int>, st: Store, other: seq<Row>)
    requires Rearranged(before, after, from, st) && Disjoint(before, other) && InStore(other, st)
    ensures Disjoint(after, other) && Disjoint(other, after)
  {
  }

  /** The rows after lines top..bottom moved up by |fill|. */
  function ShiftedUpFrom(n: nat, top: int, bottom: int, k: nat): seq<int> {
    seq(n, i requires 0 <= i < n => if i < top || i > bottom then i else if i + k <= bottom then i + k else -1)
  }

  function ShiftedDownFrom(n: nat, top: int, bottom: int, k: nat): seq<int> {
    seq(n, i requires 0 <= i < n => if i < top || i > bottom then i else if i >= top + k then i - k else -1)
  }

  ghost predicate FreshRows(fill: seq<Row>, st: Store) {
    Distinct(fill) && forall i :: 0 <= i < |fill| ==> fill[i].store !in st
  }

  lemma ShiftUpRearranges(rows: seq<Row>, top: int, bottom: int, fill: seq<Row>, st: Store)
    requires 0 <= top <= bottom < |rows| && |fill| <= bottom - top + 1 && FreshRows(fill, st)
    ensures Rearranged(rows, ShiftUp(rows, top, bottom, fill), ShiftedUpFrom(|rows|, top, bottom, |fill|), st)
  {
    hide ShiftUp;
    var after := ShiftUp(rows, top, bottom, fill);
    var from := ShiftedUpFrom(|rows|, top, bottom, |fill|);
    forall i | 0 <= i < |after|
      ensures if from[i] < 0 then after[i].store !in st
              else from[i] < |rows| && after[i].store == rows[from[i]].store
    {
      ShiftUpAt(rows, top, bottom, fill, i);
    }
    forall i, j | 0 <= i < j < |after| && from[i] < 0 && from[j] < 0 ensures after[i].store != after[j].store {
      ShiftUpAt(rows, top, bottom, fill, i);
      ShiftUpAt(rows, top, bottom, fill, j);
    }
  }

  lemma ShiftDownRearranges(rows: seq<Row>, top: int, bottom: int, fill: seq<Row>, st: Store)
    requires 0 <= top <= bottom < |rows| && |fill| <= bottom - top + 1 && FreshRows(fill, st)
    ensures Rearranged(rows, ShiftDown(rows, top, bottom, fill), ShiftedDownFrom(|rows|, top, bottom, |fill|), st)
  {
    hide ShiftDown;
    var after := ShiftDown(rows, top, bottom, fill);
    var from := ShiftedDownFrom(|rows|, top, bottom, |fill|);
    forall i | 0 <= i < |after|
      ensures if from[i] < 0 then after[i].store !in st
              else from[i] < |rows| && after[i].store == rows[from[i]].store
    {
      ShiftDownAt(rows, top, bottom, fill, i);
    }
    forall i, j | 0 <= i < j < |after| && from[i] < 0 && from[j] < 0 ensures after[i].store != after[j].store {
      ShiftDownAt(rows, top, bottom, fill, i);
      ShiftDownAt(rows, top, bottom, fill, j);
    }
  }

  lemma ShiftUpShows(rows: seq<Row>, content: seq<seq<Cell>>, top: int, bottom: int, fill: seq<Row>, blank: seq<seq<Cell>>, st: Store)
    requires 0 <= top <= bottom < |rows| && |fill| == |blank| <= bottom - top + 1
    requires Shows(rows, content, st) && Shows(fill, blank, st)
    ensures Shows(ShiftUp(rows, top, bottom, fill), ShiftUp(content, top, bottom, blank), st)
  {
    hide ShiftUp, RowShows;
    forall i | 0 <= i < |rows|
      ensures RowShows(ShiftUp(rows, top, bottom, fill)[i], ShiftUp(content, top, bottom, blank)[i], st)
    {
      ShiftUpAt(rows, top, bottom, fill, i);
      ShiftUpAt(content, top, bottom, blank, i);
    }
  }

  lemma ShiftDownShows(rows: seq<Row>, content: seq<seq<Cell>>, top: int, bottom: int, fill: seq<Row>, blank: seq<seq<Cell>>, st: Store)
    requires 0 <= top <= bottom < |rows| && |fill| == |blank| <= bottom - top + 1
    requires Shows(rows, content, st) && Shows(fill, blank, st)
    ensures Shows(ShiftDown(rows, top, bottom, fill), ShiftDown(content, top, bottom, blank), st)
  {
    hide ShiftDown, RowShows;
    forall i | 0 <= i < |rows|
      ensures RowShows(ShiftDown(rows, top, bottom, fill)[i], ShiftDown(content, top, bottom, blank)[i], st)
    {
      ShiftDownAt(rows, top, bottom, fill, i);
      ShiftDownAt(content, top, bottom, blank, i);
    }
  }

  // ----- the scrollback ring -----

  function PushedRing<T>(sb: seq<T>, head: nat, line: T): (r: seq<T>)
    requires |sb| >= SCROLLBACK_CAP ==> head < |sb|
    ensures |r| == (if |sb| < SCROLLBACK_CAP then |sb| + 1 else |sb|)
  {
    if |sb| < SCROLLBACK_CAP then sb + [line] else sb[head := line]
  }

  /** Index of the oldest line after `n` pushes. */
  function RingHead(n: nat): nat {
    if n < SCROLLBACK_CAP then 0 else n % SCROLLBACK_CAP
  }

  /** The slots after pushing the evicted lines one by one. */
  function RingSlots(evicted: seq<seq<Cell>>): (r: seq<seq<Cell>>)
    ensures |r| == (if |evicted| < SCROLLBACK_CAP then |evicted| else SCROLLBACK_CAP)
  {
    if evicted == [] then []
    else PushedRing(RingSlots(evicted[..|evicted| - 1]), RingHead(|evicted| - 1), evicted[|evicted| - 1])
  }

  /** Read from its head the ring is the retained tail of the evicted lines. */
  lemma {:induction false} RingSlotsHold(evicted: seq<seq<Cell>>, j: nat)
    requires |evicted| - |RingSlots(evicted)| <= j < |evicted|
    ensures RingSlots(evicted)[j % SCROLLBACK_CAP] == evicted[j]
  {
    var front := evicted[..|evicted| - 1];
    if j < |front| {
      RingSlotsHold(front, j);
      SlotsDiffer(j, |front|);
    }
  }

  lemma SlotsDiffer(j: nat, n: nat)
    requires j < n && (n >= SCROLLBACK_CAP ==> n - j < SCROLLBACK_CAP)
    ensures n >= SCROLLBACK_CAP ==> j % SCROLLBACK_CAP != n % SCROLLBACK_CAP
    ensures n < SCROLLBACK_CAP ==> j % SCROLLBACK_CAP == j
  {
  }

  lemma RingPush(sb: seq<Row>, evicted: seq<seq<Cell>>, line: Row, content: seq<Cell>, st: Store)
    requires Shows(sb, RingSlots(evicted), st) && RowShows(line, content, st)
    ensures |sb| >= SCROLLBACK_CAP ==> RingHead(|evicted|) < |sb|
    ensures Shows(PushedRing(sb, RingHead(|evicted|), line), RingSlots(evicted + [content]), st)
  {
    hide RowShows, RingSlots, PushedRing;
    SlotsPush(evicted, content);
    PushShows(sb, RingSlots(evicted), RingHead(|evicted|), line, content, st);
  }

  lemma SlotsPush(evicted: seq<seq<Cell>>, content: seq<Cell>)
    ensures RingSlots([]) == []
    ensures |RingSlots(evicted)| >= SCROLLBACK_CAP ==> RingHead(|evicted|) < |RingSlots(evicted)|
    ensures RingSlots(evicted + [content]) == PushedRing(RingSlots(evicted), RingHead(|evicted|), content)
  {
    assert (evicted + [content])[..|evicted + [content]| - 1] == evicted;
  }

  lemma PushShows(sb: seq<Row>, slots: seq<seq<Cell>>, head: nat, line: Row, content: seq<Cell>, st: Store)
    requires Shows(sb, slots, st) && RowShows(line, content, st)
    requires |sb| >= SCROLLBACK_CAP ==> head < |sb|
    ensures Shows(PushedRing(sb, head, line), PushedRing(slots, head, content), st)
  {
    hide RowShows;
  }

  lemma PushSeparate(grid: seq<Row>, other: seq<Row>, sb: seq<Row>, head: nat, st: Store,
                     top: int, bottom: int, added: Row)
    requires Separate(grid, other, sb) && InStore(grid, st) && InStore(other, st) && InStore(sb, st)
    requires 0 <= top <= bottom < |grid| && added.store !in st
    requires |sb| >= SCROLLBACK_CAP ==> head < |sb|
    ensures Separate(ShiftUp(grid, top, bottom, [added]), other, PushedRing(sb, head, grid[top]))
  {
    hide ShiftUp;
    var after := ShiftUp(grid, top, bottom, [added]);
    var ring := PushedRing(sb, head, grid[top]);
    ShiftUpSeparate(grid, other, sb, st, top, bottom, [added]);
    forall i | 0 <= i < |after| ensures after[i].store != grid[top].store {
      ShiftUpAt(grid, top, bottom, [added], i);
    }
  }

  lemma ShiftUpSeparate(grid: seq<Row>, other: seq<Row>, sb: seq<Row>, st: Store,
                        top: int, bottom: int, fill: seq<Row>)
    requires Separate(grid, other, sb) && InStore(grid, st) && InStore(other, st) && InStore(sb, st)
    requires 0 <= top <= bottom < |grid| && |fill| <= bottom - top + 1 && FreshRows(fill, st)
    ensures Separate(ShiftUp(grid, top, bottom, fill), other, sb)
  {
    hide ShiftUp, Rearranged, FreshRows;
    var after, from := ShiftUp(grid, top, bottom, fill), ShiftedUpFrom(|grid|, top, bottom, |fill|);
    ShiftUpRearranges(grid, top, bottom, fill, st);
    RearrangedDistinct(grid, after, from, st);
    RearrangedDisjoint(grid, after, from, st, other);
    RearrangedDisjoint(grid, after, from, st, sb);
  }

  lemma ShiftDownSeparate(grid: seq<Row>, other: seq<Row>, sb: seq<Row>, st: Store,
                          top: int, bottom: int, fill: seq<Row>)
    requires Separate(grid, other, sb) && InStore(grid, st) && InStore(other, st) && InStore(sb, st)
    requires 0 <= top <= bottom < |grid| && |fill| <= bottom - top + 1 && FreshRows(fill, st)
    ensures Separate(ShiftDown(grid, top, bottom, fill), other, sb)
  {
    hide ShiftDown, Rearranged, FreshRows;
    var after, from := ShiftDown(grid, top, bottom, fill), ShiftedDownFrom(|grid|, top, bottom, |fill|);
    ShiftDownRearranges(grid, top, bottom, fill, st);
    RearrangedDistinct(grid, after, from, st);
    RearrangedDisjoint(grid, after, from, st, other);
    RearrangedDisjoint(grid, after, from, st, sb);
  }

  lemma SeparateSwap(a: seq<Row>, b: seq<Row>, sb: seq<Row>)
    ensures Separate(a, b, sb) <==> Separate(b, a, sb)
  {
  }

  // ----- fillRow and the cell copies -----

  method FillRow(row: Row, from: int, to: int, c: Cell)
    requires row.len <= row.store.Length && from >= 0
    modifies row.store
    ensures row.store[..row.len] == Fill(old(row.store[..row.len]), from, to, c)
  {
    var i := from;
    while i < to && i < row.len
      invariant from <= i
      invariant forall k :: 0 <= k < row.len ==>
        row.store[k] == if from <= k < i then c else old(row.store[k])
      invariant i <= to || i == from
    {
      row.store[i] := c;
      i := i + 1;
    }
  }

  /** copy(row[x+n:], row[x:cols-n]), then blanks at the cursor. */
  method OpenGap(row: Row, x: int, n: int, blank: Cell)
    requires row.len <= row.store.Length && 0 <= x <= x + n <= row.len
    modifies row.store
    ensures var r := old(row.store[..row.len]);
      row.store[..row.len] == r[..x] + Repeat(n, blank) + r[x..row.len - n]
  {
    forall i | x + n <= i < row.len {
      row.store[i] := row.store[i - n];
    }
    FillRow(row, x, x + n, blank);
    ghost var r := old(row.store[..row.len]);
    assert forall i :: 0 <= i < row.len ==>
      row.store[..row.len][i] == if i < x then r[i] else if i < x + n then blank else r[i - n];
    assert row.store[..row.len] == r[..x] + Repeat(n, blank) + r[x..row.len - n];
  }

  /** copy(row[x:], row[x+n:]), then blanks at the end. */
  method CloseGap(row: Row, x: int, n: int, blank: Cell)
    requires row.len <= row.store.Length && 0 <= x <= x + n <= row.len
    modifies row.store
    ensures var r := old(row.store[..row.len]);
      row.store[..row.len] == r[..x] + r[x + n..] + Repeat(n, blank)
  {
    forall i | x <= i < row.len - n {
      row.store[i] := row.store[i + n];
    }
    FillRow(row, row.len - n, row.len, blank);
    ghost var r := old(row.store[..row.len]);
    assert forall i :: 0 <= i < row.len ==>
      row.store[..row.len][i] == if i < x then r[i] else if i < row.len - n then r[i + n] else blank;
    assert row.store[..row.len] == r[..x] + r[x + n..] + Repeat(n, blank);
  }

  /** The cell writes of eraseLine, eraseChars, insertChars and deleteChars. */
  method EditCells(row: Row, op: Op, x: int, blank: Cell)
    requires row.len <= row.store.Length && IsRowEdit(op) && 0 <= x < row.len
    modifies row.store
    ensures row.store[..row.len] == RowAfter(old(row.store[..row.len]), op, x, blank)
  {
    hide Fill, Repeat;
    match op {
      case EraseLine(mode) =>
        if mode == 0 {
          FillRow(row, x, row.len, blank);
        } else if mode == 1 {
          FillRow(row, 0, x + 1, blank);
        } else if mode == 2 {
          FillRow(row, 0, row.len, blank);
        }
      case EraseChars(n0) =>
        var n := if n0 < 1 then 1 else n0;
        FillRow(row, x, Clamp(x + n, 0, row.len), blank);
      case InsertChars(n0) =>
        var n := if n0 < 1 then 1 else n0;
        if n > row.len - x {
          n := row.len - x;
        }
        OpenGap(row, x, n, blank);
      case DeleteChars(n0) =>
        var n := if n0 < 1 then 1 else n0;
        if n > row.len - x {
          n := row.len - x;
        }
        CloseGap(row, x, n, blank);
    }
  }

  // ----- the screen -----

  lemma ShowsGrows(rows: seq<Row>, content: seq<seq<Cell>>, st: Store, bigger: Store)
    requires Shows(rows, content, st) && Extends(st, bigger)
    ensures Shows(rows, content, bigger)
  {
    forall i | 0 <= i < |rows| ensures RowShows(rows[i], content[i], bigger) {
      assert RowShows(rows[i], content[i], st);
    }
  }

  ghost predicate Extends(st: Store, bigger: Store) {
    forall a :: a in st ==> a in bigger && bigger[a] == st[a]
  }

  method NewRow(cols: int, c: Cell) returns (row: Row)
    requires cols >= 0
    ensures fresh(row.store) && row.store[..] == Repeat(cols, c) && row.len == cols
  {
    var store := new Cell[cols](_ => c);
    row := Row(store, cols);
  }

  datatype ScreenSnapshot = ScreenSnapshot(
    cells: seq<seq<Cell>>, cursorX: int, cursorY: int, cursorVisible: bool,
    cols: int, rows: int, scrollbackLen: nat, title: Text)

  /** What a renderer sees of a state. */
  function SnapshotOf(s: State): ScreenSnapshot {
    var g := Active(s);
    ScreenSnapshot(g.cells, g.x, g.y, s.cursorVisible, s.cols, s.rows, |Retained(s.evicted)|, s.title)
  }

  class Screen {
    var cols: int
    var rows: int
    var main: GridState
    var alt: GridState
    var altActive: bool
    var pen: Cell
    var sb: seq<Row>
    var sbHead: nat
    var scrollTop: int
    var scrollBottom: int
    var cursorVisible: bool
    var bracketedPaste: bool
    var title: Text
    var saved: Saved
    var altSaved: Saved
    var wrapPending: bool

    ghost var model: State
    ghost var store: Store

    /** Every field but the cells and the scrollback is the model's. */
    ghost predicate FieldsAgree()
      reads this
    {
      && cols == model.cols && rows == model.rows
      && main.cursorX == model.main.x && main.cursorY == model.main.y
      && alt.cursorX == model.alt.x && alt.cursorY == model.alt.y
      && altActive == model.altActive && pen == model.pen
      && scrollTop == model.top && scrollBottom == model.bottom
      && cursorVisible == model.cursorVisible && bracketedPaste == model.bracketedPaste && title == model.title
      && saved == model.saved && altSaved == model.altSaved && wrapPending == model.wrapPending
    }

    /** `store` is what the arrays hold. */
    ghost predicate InSync()
      reads this, store.Keys
    {
      forall a :: a in store ==> store[a] == a[..]
    }

    ghost predicate Rows()
      reads this
    {
      && Separate(main.cells, alt.cells, sb)
      && Shows(main.cells, model.main.cells, store) && Shows(alt.cells, model.alt.cells, store)
      && Shows(sb, RingSlots(model.evicted), store) && sbHead == RingHead(|model.evicted|)
    }

    ghost predicate Valid()
      reads this, store.Keys
    {
      Ok(model) && FieldsAgree() && InSync() && Rows()
    }

    function Current(): GridState
      reads this
    {
      if altActive then alt else main
    }

    constructor (cols0: int, rows0: int)
      ensures Valid() && fresh(store.Keys) && model == NewScreen(cols0, rows0)
    {
      hide Ok, RingSlots, NewGrid, Shows, Separate;
      NewScreenOk(cols0, rows0);
      NewGridCursor(AtLeastOne(cols0), AtLeastOne(rows0));
      SlotsPush([], []);
      cols, rows := AtLeastOne(cols0), AtLeastOne(rows0);
      main, alt := GridState([], 0, 0), GridState([], 0, 0);
      altActive, pen, sb, sbHead := false, NOTHING, [], 0;
      scrollTop, scrollBottom := 0, AtLeastOne(rows0) - 1;
      cursorVisible, bracketedPaste, title := true, false, [];
      saved, altSaved, wrapPending := NotSaved, NotSaved, false;
      model := NewScreen(cols0, rows0);
      store := map[];
      new;
      FreshGrids();
      NothingShown(store);
    }

    /** Both buffers replaced by new blank grids; the scrollback stays. */
    method FreshGrids()
      requires InSync() && cols >= 1 && rows >= 1
      requires Distinct(sb) && InStore(sb, store)
      modifies this`store, this`main, this`alt
      ensures InSync() && Extends(old(store), store) && fresh(store.Keys - old(store.Keys))
      ensures var n := NewGrid(cols, rows);
        && Shows(main.cells, n.cells, store) && Shows(alt.cells, n.cells, store)
        && main.cursorX == alt.cursorX == n.x && main.cursorY == alt.cursorY == n.y
      ensures Separate(main.cells, alt.cells, sb)
    {
      hide NewGrid, Shows;
      NewGridCursor(cols, rows);
      var m := MakeGrid();
      ghost var st := store;
      ShownInStore(m, NewGrid(cols, rows).cells, st);
      var a := MakeGrid();
      ShowsGrows(m, NewGrid(cols, rows).cells, st, store);
      main, alt := GridState(m, 0, 0), GridState(a, 0, 0);
    }

    /** newGrid's cells, with their storage. */
    method MakeGrid() returns (cells: seq<Row>)
      requires InSync() && cols >= 1 && rows >= 1
      modifies this`store
      ensures InSync() && Extends(old(store), store) && fresh(store.Keys - old(store.Keys))
      ensures Shows(cells, NewGrid(cols, rows).cells, store) && FreshRows(cells, old(store))
    {
      cells := [];
      while |cells| < rows
        invariant |cells| <= rows
        invariant InSync() && Extends(old(store), store) && fresh(store.Keys - old(store.Keys))
        invariant FreshRows(cells, old(store)) && Shows(cells, Repeat(|cells|, Repeat(cols, NOTHING)), store)
      {
        var row := NewRow(cols, NOTHING);
        AppendFresh(cells, row, old(store), store, Repeat(cols, NOTHING));
        store := store[row.store := row.store[..]];
        cells := cells + [row];
      }
      assert Repeat(|cells|, Repeat(cols, NOTHING)) == NewGrid(cols, rows).cells;
    }

    /** blankRow. */
    method BlankRow() returns (row: Row)
      requires InSync() && cols >= 1
      modifies this`store
      ensures InSync() && fresh(row.store) && row.store !in old(store)
      ensures store == old(store)[row.store := Repeat(cols, NOTHING.(bg := pen.bg))] && row.len == cols
    {
      row := NewRow(cols, NOTHING.(bg := pen.bg));
      store := store[row.store := row.store[..]];
    }

    // ----- cursor moves -----

    /** `wrapPending = false`. */
    method EndWrap()
      requires Valid()
      modifies this`wrapPending, this`model
      ensures Valid() && model == NoWrap(old(model))
    {
      hide Ok, Shows, Separate, RingSlots;
      NoWrapOk(model);
      wrapPending := false;
      model := NoWrap(model);
    }

    /** Put the active cursor on a cell of the grid. */
    method PutCursor(x: int, y: int)
      requires Valid() && 0 <= x < cols && 0 <= y < rows
      modifies this`main, this`alt, this`wrapPending, this`model
      ensures Valid() && model == Place(old(model), x, y)
    {
      hide Ok, Shows, Separate, RingSlots;
      PlaceOk(model, x, y);
      wrapPending := false;
      if altActive {
        alt := alt.(cursorX := x, cursorY := y);
      } else {
        main := main.(cursorX := x, cursorY := y);
      }
      model := Place(model, x, y);
    }

    method CarriageReturn()
      requires Valid()
      modifies this
      ensures Valid() && store == old(store) && model == Apply(old(model), Op.CarriageReturn)
    {
      hide Rows;
      PutCursor(0, Current().cursorY);
    }

    method Backspace()
      requires Valid()
      modifies this
      ensures Valid() && store == old(store) && model == Apply(old(model), Op.BackSpace)
    {
      hide Rows;
      var g := Current();
      PutCursor(if g.cursorX > 0 then g.cursorX - 1 else g.cursorX, g.cursorY);
    }

    method Tab()
      requires Valid()
      modifies this
      ensures Valid() && store == old(store) && model == Apply(old(model), Op.Tab)
    {
      hide Rows;
      var g := Current();
      var next := (g.cursorX / 8 + 1) * 8;
      PutCursor(Clamp(next, 0, cols - 1), g.cursorY);
    }

    method MoveCursor(dx: int, dy: int)
      requires Valid()
      modifies this
      ensures Valid() && store == old(store) && model == Apply(old(model), Op.MoveCursor(dx, dy))
    {
      hide Rows;
      var g := Current();
      PutCursor(Clamp(g.cursorX + dx, 0, cols - 1), Clamp(g.cursorY + dy, 0, rows - 1));
    }

    method SetCursor(x: int, y: int)
      requires Valid()
      modifies this
      ensures Valid() && store == old(store) && model == Apply(old(model), Op.SetCursor(x, y))
    {
      hide Rows;
      PutCursor(Clamp(x, 0, cols - 1), Clamp(y, 0, rows - 1));
    }

    method SetCursorCol(x: int)
      requires Valid()
      modifies this
      ensures Valid() && store == old(store) && model == Apply(old(model), Op.SetCursorCol(x))
    {
      hide Rows;
      PutCursor(Clamp(x, 0, cols - 1), Current().cursorY);
    }

    method SetCursorRow(y: int)
      requires Valid()
      modifies this
      ensures Valid() && store == old(store) && model == Apply(old(model), Op.SetCursorRow(y))
    {
      hide Rows;
      PutCursor(Current().cursorX, Clamp(y, 0, rows - 1));
    }

    // ----- writing into one row -----

    /** What is known about the active cursor. */
    lemma CursorKnown()
      requires Valid()
      ensures var g := Current();
        && |g.cells| == |Active(model).cells| == rows == model.rows && cols == model.cols >= 1
        && 0 <= g.cursorX < cols && 0 <= g.cursorY < rows
        && g.cursorX == Active(model).x && g.cursorY == Active(model).y
    {
      hide Separate, RingSlots, RowShows;
    }

    /** What is known about a row of the active grid. */
    lemma RowKnown(y: int)
      requires Valid() && 0 <= y < rows
      ensures |Current().cells| == |Active(model).cells| == rows
      ensures var row := Current().cells[y];
        && row.len == cols && row.store in store && row.len <= row.store.Length
        && row.store[..row.len] == Active(model).cells[y]
    {
      hide Separate, RingSlots;
      assert RowShows(Current().cells[y], Active(model).cells[y], store);
    }

    /** After the storage of row `y` of the active grid was written in place. */
    ghost method RowWritten(y: int, row: seq<Cell>)
      requires Ok(model) && FieldsAgree() && Rows() && 0 <= y < rows && |Current().cells| == |Active(model).cells| == rows
      requires forall a :: a in store && a != Current().cells[y].store ==> store[a] == a[..]
      requires Current().cells[y].len <= Current().cells[y].store.Length
      requires Current().cells[y].store[..Current().cells[y].len] == row && |row| == cols
      modifies this`store, this`model
      ensures Valid() && model == SetRow(old(model), y, row) && store.Keys == old(store.Keys)
    {
      hide Ok, Shows, RowShows, RingSlots;
      var a := Current().cells[y].store;
      var cells := a[..];
      SetRowOk(model, y, row);
      StoreElsewhere(main.cells, alt.cells, sb, y);
      StoreElsewhere(alt.cells, main.cells, sb, y);
      RowInStore(Current().cells, Active(model).cells, store, y);
      WriteElsewhere(sb, RingSlots(model.evicted), store, a, cells);
      if altActive {
        WriteElsewhere(main.cells, model.main.cells, store, a, cells);
        WriteHere(alt.cells, model.alt.cells, store, y, cells, row);
      } else {
        WriteElsewhere(alt.cells, model.alt.cells, store, a, cells);
        WriteHere(main.cells, model.main.cells, store, y, cells, row);
      }
      store := store[a := cells];
      model := SetRow(model, y, row);
    }

    /** eraseLine, eraseChars, insertChars and deleteChars. */
    method EditRow(op: Op)
      requires Valid() && IsRowEdit(op)
      modifies this, store.Keys
      ensures Valid() && store.Keys == old(store.Keys) && model == Apply(old(model), op)
    {
      hide Ok, Rows, RowAfter, SetRow;
      EndWrap();
      CursorKnown();
      var g := Current();
      RowKnown(g.cursorY);
      EditCells(g.cells[g.cursorY], op, g.cursorX, NOTHING.(bg := pen.bg));
      RowWritten(g.cursorY, EditedRow(model, op));
    }

    /** One fillRow of a line of the active grid. */
    method FillLine(y: int, from: int, to: int, c: Cell)
      requires Valid() && 0 <= y < rows && from >= 0
      modifies this`store, this`model, store.Keys
      ensures Valid() && store.Keys == old(store.Keys)
      ensures model == SetRow(old(model), y, Fill(Active(old(model)).cells[y], from, to, c))
    {
      hide Ok, Rows, Fill, SetRow;
      RowKnown(y);
      FillRow(Current().cells[y], from, to, c);
      RowWritten(y, Fill(Active(model).cells[y], from, to, c));
    }

    method EraseLine(mode: int)
      requires Valid()
      modifies this, store.Keys
      ensures Valid() && store.Keys == old(store.Keys) && model == Apply(old(model), Op.EraseLine(mode))
    {
      hide Rows, Apply;
      EditRow(Op.EraseLine(mode));
    }

    method EraseChars(n: int)
      requires Valid()
      modifies this, store.Keys
      ensures Valid() && store.Keys == old(store.Keys) && model == Apply(old(model), Op.EraseChars(n))
    {
      hide Rows, Apply;
      EditRow(Op.EraseChars(n));
    }

    method InsertChars(n: int)
      requires Valid()
      modifies this, store.Keys
      ensures Valid() && store.Keys == old(store.Keys) && model == Apply(old(model), Op.InsertChars(n))
    {
      hide Rows, Apply;
      EditRow(Op.InsertChars(n));
    }

    method DeleteChars(n: int)
      requires Valid()
      modifies this, store.Keys
      ensures Valid() && store.Keys == old(store.Keys) && model == Apply(old(model), Op.DeleteChars(n))
    {
      hide Rows, Apply;
      EditRow(Op.DeleteChars(n));
    }

    /** The model with the first `upto` lines of the active grid erased as `mode` says. */
    ghost function PartlyErased(s: State, mode: int, upto: int): State
      requires Ok(s)
    {
      SetCells(s, seq(s.rows, i requires 0 <= i < s.rows => if i < upto then ErasedLine(s, mode, i) else Active(s).cells[i]))
    }

    method EraseDisplay(mode: int)
      requires Valid()
      modifies this, store.Keys
      ensures Valid() && store.Keys == old(store.Keys) && model == Apply(old(model), Op.EraseDisplay(mode))
    {
      hide Ok, Rows, InSync, Apply, PartlyErased;
      EndWrap();
      ghost var s := model;
      ApplyErase(old(model), mode);
      CursorKnown();
      NothingErased(s, mode);
      var y := 0;
      while y < rows
        invariant 0 <= y <= rows == s.rows && Valid() && store.Keys == old(store.Keys)
        invariant model == PartlyErased(s, mode, y)
      {
        EraseLineOf(y, mode, s);
        y := y + 1;
      }
    }

    /** One line of eraseDisplay: whole, in part, or not at all. */
    method EraseLineOf(y: int, mode: int, ghost s: State)
      requires Valid() && Ok(s) && model == PartlyErased(s, mode, y) && 0 <= y < s.rows
      modifies this`store, this`model, store.Keys
      ensures Valid() && store.Keys == old(store.Keys) && model == PartlyErased(s, mode, y + 1)
    {
      hide Ok, Rows, InSync, Fill, Separate;
      EraseStep(s, mode, y);
      CursorKnown();
      var cy, cx := Current().cursorY, Current().cursorX;
      var blank := NOTHING.(bg := pen.bg);
      if (mode == 0 && y > cy) || (mode == 1 && y < cy) || mode == 2 {
        FillLine(y, 0, cols, blank);
      } else if mode == 0 && y == cy {
        FillLine(y, cx, cols, blank);
      } else if mode == 1 && y == cy {
        FillLine(y, 0, cx + 1, blank);
      }
    }

    lemma ApplyErase(s: State, mode: int)
      requires Ok(s)
      ensures Ok(NoWrap(s)) && Apply(s, Op.EraseDisplay(mode)) == PartlyErased(NoWrap(s), mode, s.rows)
    {
      hide Fill;
      var n := NoWrap(s);
      assert forall i :: 0 <= i < s.rows ==> ErasedLine(s, mode, i) == ErasedLine(n, mode, i);
      assert EditedLines(s, Op.EraseDisplay(mode)) == Active(PartlyErased(n, mode, s.rows)).cells;
    }

    lemma NothingErased(s: State, mode: int)
      requires Ok(s)
      ensures PartlyErased(s, mode, 0) == s
    {
      hide Fill, ErasedLine;
      assert Active(PartlyErased(s, mode, 0)).cells == Active(s).cells;
    }

    lemma EraseStep(s: State, mode: int, y: int)
      requires Ok(s) && 0 <= y < s.rows
      ensures var p := PartlyErased(s, mode, y); var q := PartlyErased(s, mode, y + 1);
        && |Active(p).cells| == s.rows && Active(p).cells[y] == Active(s).cells[y]
        && q == SetRow(p, y, ErasedLine(s, mode, y))
        && (ErasedLine(s, mode, y) == Active(s).cells[y] ==> q == p)
    {
      hide Fill, ErasedLine;
      var p, q := PartlyErased(s, mode, y), PartlyErased(s, mode, y + 1);
      assert Active(q).cells == Active(p).cells[y := ErasedLine(s, mode, y)];
      if ErasedLine(s, mode, y) == Active(s).cells[y] {
        assert Active(q).cells == Active(p).cells;
      }
    }

    // ----- moving rows between lines -----

    /** New rows for the active grid, whose storage is nobody else's. */
    method ReplaceCells(cells: seq<Row>, ghost content: seq<seq<Cell>>)
      requires Ok(model) && FieldsAgree() && InSync()
      requires |content| == rows && forall i :: 0 <= i < |content| ==> |content[i]| == cols
      requires Shows(cells, content, store)
      requires altActive ==> Shows(main.cells, model.main.cells, store) && Separate(main.cells, cells, sb)
      requires !altActive ==> Shows(alt.cells, model.alt.cells, store) && Separate(cells, alt.cells, sb)
      requires Shows(sb, RingSlots(model.evicted), store) && sbHead == RingHead(|model.evicted|)
      modifies this`main, this`alt, this`model
      ensures Valid() && model == SetCells(old(model), content)
    {
      hide Ok, Shows, Separate, RingSlots, RingHead;
      CellsOkFor(content);
      if altActive {
        alt := alt.(cells := cells);
      } else {
        main := main.(cells := cells);
      }
      model := SetCells(model, content);
    }

    lemma CellsOkFor(content: seq<seq<Cell>>)
      requires Ok(model) && FieldsAgree()
      requires |content| == rows && forall i :: 0 <= i < |content| ==> |content[i]| == cols
      ensures Ok(SetCells(model, content))
    {
      CellsOk(model, content);
    }

    /** Blank rows in lines from..from+n of `cells`. */
    method BlankRange(cells: seq<Row>, from: int, n: int) returns (r: seq<Row>, ghost fill: seq<Row>)
      requires InSync() && cols >= 1 && 0 <= from <= from + n <= |cells|
      modifies this`store
      ensures InSync() && Extends(old(store), store) && fresh(store.Keys - old(store.Keys))
      ensures |fill| == n && FreshRows(fill, old(store)) && r == cells[..from] + fill + cells[from + n..]
      ensures Shows(fill, Repeat(n, Repeat(cols, NOTHING.(bg := pen.bg))), store)
    {
      hide Shows, FreshRows;
      r, fill := cells, [];
      NoFreshRows(store);
      NothingShown(store);
      var i := from;
      while i < from + n
        invariant from <= i <= from + n && |fill| == i - from
        invariant InSync() && Extends(old(store), store) && fresh(store.Keys - old(store.Keys))
        invariant FreshRows(fill, old(store)) && r == cells[..from] + fill + cells[i..]
        invariant Shows(fill, Repeat(|fill|, Repeat(cols, NOTHING.(bg := pen.bg))), store)
      {
        ghost var st := store;
        var row := BlankRow();
        AppendFresh(fill, row, old(store), st, Repeat(cols, NOTHING.(bg := pen.bg)));
        fill := fill + [row];
        r := r[i := row];
        i := i + 1;
      }
    }

    /** insertLines. */
    method InsertLines(n0: int)
      requires Valid()
      modifies this
      ensures Valid() && fresh(store.Keys - old(store.Keys)) && model == Apply(old(model), Op.InsertLines(n0))
    {
      hide Ok, Rows, InSync, ShiftDown, Repeat;
      EndWrap();
      CursorKnown();
      var y := Current().cursorY;
      if y < scrollTop || y > scrollBottom {
        assert SetCells(model, Active(model).cells) == model;
        return;
      }
      var n := if n0 < 1 then 1 else n0;
      if n > scrollBottom - y + 1 {
        n := scrollBottom - y + 1;
      }
      RegionKnown();
      OpenLines(y, n);
    }

    method OpenLines(y: int, n: int)
      requires Valid() && 0 <= y <= scrollBottom < rows && 1 <= n <= scrollBottom - y + 1
      requires |Active(model).cells| == rows
      modifies this`main, this`alt, this`model, this`store
      ensures Valid() && fresh(store.Keys - old(store.Keys))
      ensures model == SetCells(old(model), ShiftDown(Active(old(model)).cells, y, scrollBottom, BlankRows(old(model), n)))
    {
      hide Ok, ShiftDown, Repeat, Shows, Separate, InSync, FreshRows, RingSlots;
      CursorKnown();
      var grid := Current().cells;
      var cells := grid;
      var r := scrollBottom;
      while r >= y + n
        invariant y + n - 1 <= r <= scrollBottom && |cells| == rows
        invariant forall i :: r < i <= scrollBottom ==> cells[i] == grid[i - n]
        invariant forall i :: 0 <= i < rows && (i <= r || i > scrollBottom) ==> cells[i] == grid[i]
      {
        cells := cells[r := cells[r - n]];
        r := r - 1;
      }
      ghost var st := store;
      var filled, fill := BlankRange(cells, y, n);
      DownIsShift(grid, cells, y, scrollBottom, fill, filled);
      PlaceShifted(filled, fill, y, st, false);
    }

    /** deleteLines. */
    method DeleteLines(n0: int)
      requires Valid()
      modifies this
      ensures Valid() && fresh(store.Keys - old(store.Keys)) && model == Apply(old(model), Op.DeleteLines(n0))
    {
      hide Ok, Rows, InSync, ShiftUp, Repeat;
      EndWrap();
      CursorKnown();
      var y := Current().cursorY;
      if y < scrollTop || y > scrollBottom {
        assert SetCells(model, Active(model).cells) == model;
        return;
      }
      var n := if n0 < 1 then 1 else n0;
      if n > scrollBottom - y + 1 {
        n := scrollBottom - y + 1;
      }
      RegionKnown();
      CloseLines(y, n);
    }

    method CloseLines(y: int, n: int)
      requires Valid() && 0 <= y <= scrollBottom < rows && 1 <= n <= scrollBottom - y + 1
      requires |Active(model).cells| == rows
      modifies this`main, this`alt, this`model, this`store
      ensures Valid() && fresh(store.Keys - old(store.Keys))
      ensures model == SetCells(old(model), ShiftUp(Active(old(model)).cells, y, scrollBottom, BlankRows(old(model), n)))
    {
      hide Ok, ShiftUp, Repeat, Shows, Separate, InSync, FreshRows, RingSlots;
      CursorKnown();
      var grid := Current().cells;
      var cells := grid;
      var r := y;
      while r + n <= scrollBottom
        invariant y <= r <= scrollBottom + 1 - n && |cells| == rows
        invariant forall i :: y <= i < r ==> cells[i] == grid[i + n]
        invariant forall i :: 0 <= i < rows && (i < y || i >= r) ==> cells[i] == grid[i]
      {
        cells := cells[r := cells[r + n]];
        r := r + 1;
      }
      ghost var st := store;
      var filled, fill := BlankRange(cells, scrollBottom - n + 1, n);
      UpIsShift(grid, cells, y, scrollBottom, fill, filled);
      PlaceShifted(filled, fill, y, st, true);
    }

    lemma RegionKnown()
      requires Valid()
      ensures 0 <= scrollTop <= scrollBottom < rows
    {
      hide Rows;
    }

    /** Install a shifted grid: `cells` is the old grid with lines from `y` to the
        bottom margin moved by |fill| new rows. */
    method PlaceShifted(cells: seq<Row>, ghost fill: seq<Row>, ghost y: int, ghost st: Store, ghost up: bool)
      requires Ok(model) && FieldsAgree() && InSync()
      requires 0 <= y <= scrollBottom < |Current().cells| == |Active(model).cells| == rows
      requires |fill| <= scrollBottom - y + 1
      requires up ==> cells == ShiftUp(Current().cells, y, scrollBottom, fill)
      requires !up ==> cells == ShiftDown(Current().cells, y, scrollBottom, fill)
      requires FreshRows(fill, st) && Extends(st, store)
      requires Separate(main.cells, alt.cells, sb)
      requires Shows(main.cells, model.main.cells, st) && Shows(alt.cells, model.alt.cells, st)
      requires Shows(sb, RingSlots(model.evicted), st) && sbHead == RingHead(|model.evicted|)
      requires Shows(fill, BlankRows(model, |fill|), store)
      modifies this`main, this`alt, this`model
      ensures Valid()
      ensures var blank := BlankRows(old(model), |fill|); var lines := Active(old(model)).cells;
        model == SetCells(old(model),
          if up then ShiftUp(lines, y, scrollBottom, blank) else ShiftDown(lines, y, scrollBottom, blank))
    {
      hide Ok, ShiftUp, ShiftDown, Repeat, Shows, Separate, InSync, FreshRows, RingSlots, Extends;
      ghost var grid, lines := Current().cells, Active(model).cells;
      ghost var blank := BlankRows(model, |fill|);
      ghost var content := if up then ShiftUp(lines, y, scrollBottom, blank) else ShiftDown(lines, y, scrollBottom, blank);
      ghost var other := if altActive then main.cells else alt.cells;
      ShownInStore(main.cells, model.main.cells, st);
      ShownInStore(alt.cells, model.alt.cells, st);
      ShownInStore(sb, RingSlots(model.evicted), st);
      ShowsGrows(main.cells, model.main.cells, st, store);
      ShowsGrows(alt.cells, model.alt.cells, st, store);
      ShowsGrows(sb, RingSlots(model.evicted), st, store);
      SeparateSwap(main.cells, alt.cells, sb);
      ShiftedWidth(model, y, |fill|);
      if up {
        ShiftUpShows(grid, lines, y, scrollBottom, fill, blank, store);
        ShiftUpSeparate(grid, other, sb, st, y, scrollBottom, fill);
      } else {
        ShiftDownShows(grid, lines, y, scrollBottom, fill, blank, store);
        ShiftDownSeparate(grid, other, sb, st, y, scrollBottom, fill);
      }
      SeparateSwap(cells, other, sb);
      ReplaceCells(cells, content);
    }

    // ----- scrolling -----

    /** pushScrollbackLocked: adopt the line. */
    method PushScrollback(line: Row)
      requires sbHead == (if |sb| < SCROLLBACK_CAP then 0 else sbHead)
      requires |sb| >= SCROLLBACK_CAP ==> sbHead < |sb|
      modifies this`sb, this`sbHead
      ensures sb == PushedRing(old(sb), old(sbHead), line)
      ensures sbHead == if old(|sb|) < SCROLLBACK_CAP then old(sbHead) else (old(sbHead) + 1) % SCROLLBACK_CAP
    {
      if |sb| < SCROLLBACK_CAP {
        sb := sb + [line];
        return;
      }
      sb := sb[sbHead := line];
      sbHead := (sbHead + 1) % SCROLLBACK_CAP;
    }

    /** One turn of scrollUpLocked's loop. */
    method ScrollUpOnce(record: bool)
      requires Valid() && (record ==> Records(model))
      modifies this`main, this`alt, this`sb, this`sbHead, this`model, this`store
      ensures Valid() && fresh(store.Keys - old(store.Keys)) && model == ScrolledOnce(old(model), record)
    {
      hide Ok, ShiftUp, Repeat, Shows, Separate, FreshRows, RingSlots, PushedRing, RingHead, ScrolledOnce;
      CursorKnown();
      RegionKnown();
      ShownLength(sb, RingSlots(model.evicted), store);
      RingKnown(sb, model.evicted);
      ghost var st, ring, ringHead := store, sb, sbHead;
      var grid, top, bot := Current().cells, scrollTop, scrollBottom;
      if record {
        PushScrollback(grid[top]);
      }
      var cells := grid[..top] + grid[top + 1..bot + 1] + grid[bot..];
      var row := BlankRow();
      cells := cells[bot := row];
      OneUpIsShift(grid, top, bot, row, cells);
      FinishScroll(cells, row, st, ring, ringHead, record);
    }

    /** The top line is in the ring, the new row at the bottom: account for both. */
    method FinishScroll(cells: seq<Row>, row: Row, ghost st: Store, ghost ring: seq<Row>, ghost ringHead: nat, ghost record: bool)
      requires Ok(model) && FieldsAgree() && InSync() && (record ==> Records(model))
      requires row.store !in st && row.len == cols && store == st[row.store := Repeat(cols, Blank(model))]
      requires 0 <= scrollTop <= scrollBottom < |Current().cells| == |Active(model).cells| == rows
      requires cells == ShiftUp(Current().cells, scrollTop, scrollBottom, [row])
      requires Separate(main.cells, alt.cells, ring)
      requires Shows(main.cells, model.main.cells, st) && Shows(alt.cells, model.alt.cells, st)
      requires Shows(ring, RingSlots(model.evicted), st) && ringHead == RingHead(|model.evicted|)
      requires |ring| >= SCROLLBACK_CAP ==> ringHead < |ring|
      requires sb == if record then PushedRing(ring, ringHead, main.cells[scrollTop]) else ring
      requires sbHead == if record then RingHead(|model.evicted| + 1) else ringHead
      modifies this`main, this`alt, this`model
      ensures Valid() && model == ScrolledOnce(old(model), record)
    {
      hide Ok, ShiftUp, Repeat, Shows, Separate, FreshRows, RingSlots, PushedRing, RingHead;
      FreshOne(row, st);
      BlankShown(row, model, store);
      ghost var lines := Active(model).cells;
      if record {
        ScrollOutSeparate(main.cells, alt.cells, ring, ringHead, st, model, scrollTop, scrollBottom, row, store);
        model := model.(evicted := model.evicted + [lines[scrollTop]]);
        EvictedIrrelevant(old(model), model);
      } else {
        ShownInStore(ring, RingSlots(model.evicted), st);
        ShowsGrows(ring, RingSlots(model.evicted), st, store);
      }
      PlaceScrolled(cells, row, st, ring, record);
    }

    /** Install a grid scrolled up by one line. */
    method PlaceScrolled(cells: seq<Row>, row: Row, ghost st: Store, ghost ring: seq<Row>, ghost record: bool)
      requires Ok(model) && FieldsAgree() && InSync() && Extends(st, store) && FreshRows([row], st)
      requires 0 <= scrollTop <= scrollBottom < |Current().cells| == |Active(model).cells| == rows
      requires cells == ShiftUp(Current().cells, scrollTop, scrollBottom, [row])
      requires Separate(main.cells, alt.cells, ring) && InStore(ring, st)
      requires if record then !altActive && Separate(cells, alt.cells, sb) else ring == sb
      requires Shows(main.cells, model.main.cells, st) && Shows(alt.cells, model.alt.cells, st)
      requires Shows(sb, RingSlots(model.evicted), store) && sbHead == RingHead(|model.evicted|)
      requires Shows([row], BlankRows(model, 1), store)
      modifies this`main, this`alt, this`model
      ensures Valid() && model == SetCells(old(model), ScrolledUp(old(model), 1))
    {
      hide Ok, ShiftUp, Repeat, Shows, Separate, InSync, FreshRows, RingSlots, Extends;
      ghost var grid, lines := Current().cells, Active(model).cells;
      ghost var blank := BlankRows(model, 1);
      ghost var other := if altActive then main.cells else alt.cells;
      ShownInStore(main.cells, model.main.cells, st);
      ShownInStore(alt.cells, model.alt.cells, st);
      ShowsGrows(main.cells, model.main.cells, st, store);
      ShowsGrows(alt.cells, model.alt.cells, st, store);
      SeparateSwap(main.cells, alt.cells, ring);
      ShiftedWidth(model, scrollTop, 1);
      ShiftUpShows(grid, lines, scrollTop, scrollBottom, [row], blank, store);
      ShiftUpSeparate(grid, other, ring, st, scrollTop, scrollBottom, [row]);
      SeparateSwap(cells, other, ring);
      ReplaceCells(cells, ShiftUp(lines, scrollTop, scrollBottom, blank));
    }

    /** scrollUpLocked. */
    method ScrollUpLocked(n0: int, record0: bool)
      requires Valid() && n0 >= 0
      modifies this`main, this`alt, this`sb, this`sbHead, this`model, this`store
      ensures Valid() && fresh(store.Keys - old(store.Keys))
      ensures var s := old(model);
        model == Scrolled(s, AtMost(n0, s.bottom - s.top + 1), record0 && Records(s))
    {
      hide Ok, Rows, InSync, ScrolledUp;
      var top, bot := scrollTop, scrollBottom;
      var n := n0;
      if n > bot - top + 1 {
        n := bot - top + 1;
      }
      RegionKnown();
      var record := record0 && !altActive && top == 0 && bot == rows - 1;
      ghost var s := model;
      var i := 0;
      while i < n
        invariant 0 <= i <= n && Valid() && fresh(store.Keys - old(store.Keys))
        invariant model == Scrolled(s, i, record) && (record ==> Records(model))
      {
        ScrollUpOnce(record);
        i := i + 1;
      }
    }

    /** scrollUp. */
    method ScrollUp(n0: int)
      requires Valid()
      modifies this
      ensures Valid() && fresh(store.Keys - old(store.Keys)) && model == Apply(old(model), Op.ScrollUp(n0))
    {
      hide Ok, Rows, InSync, ScrolledUp, Scrolled;
      var n := if n0 < 1 then 1 else n0;
      EndWrap();
      RegionKnown();
      ScrolledUpMany(old(model), n);
      ScrollUpLocked(n, false);
    }

    /** One turn of scrollDownLocked's outer loop. */
    method ScrollDownOnce()
      requires Valid()
      modifies this`main, this`alt, this`model, this`store
      ensures Valid() && fresh(store.Keys - old(store.Keys))
      ensures model == SetCells(old(model), ScrolledDown(old(model), 1))
    {
      hide Ok, Rows, InSync, ShiftDown;
      CursorKnown();
      RegionKnown();
      OpenLines(scrollTop, 1);
    }

    /** scrollDownLocked. */
    method ScrollDownLocked(n0: int)
      requires Valid() && n0 >= 0
      modifies this`main, this`alt, this`model, this`store
      ensures Valid() && fresh(store.Keys - old(store.Keys))
      ensures var s := old(model); model == SetCells(s, ScrolledDown(s, n0))
    {
      hide Ok, Rows, InSync, ScrolledDown;
      var top, bot := scrollTop, scrollBottom;
      var n := n0;
      if n > bot - top + 1 {
        n := bot - top + 1;
      }
      RegionKnown();
      ghost var s := model;
      ScrolledDownNone(s);
      var i := 0;
      while i < n
        invariant 0 <= i <= n && Valid() && fresh(store.Keys - old(store.Keys))
        invariant model == SetCells(s, ScrolledDown(s, i))
      {
        ScrolledDownNext(s, i);
        ScrollDownOnce();
        i := i + 1;
      }
      ScrolledDownClosed(s, n0);
    }

    method ScrollDown(n0: int)
      requires Valid()
      modifies this
      ensures Valid() && fresh(store.Keys - old(store.Keys)) && model == Apply(old(model), Op.ScrollDown(n0))
    {
      hide Ok, Rows, InSync, ScrolledDown;
      var n := if n0 < 1 then 1 else n0;
      NoWrapScrolledDown(model, n);
      EndWrap();
      ScrollDownLocked(n);
    }

    // ----- line feeds and runes -----

    /** lineFeedLocked. */
    method LineFeedLocked()
      requires Valid() && !wrapPending
      modifies this`main, this`alt, this`sb, this`sbHead, this`model, this`store
      ensures Valid() && fresh(store.Keys - old(store.Keys)) && model == LineFeedFrom(old(model))
    {
      hide Ok, Rows, InSync, ScrolledUp;
      CursorKnown();
      RegionKnown();
      var g := Current();
      if g.cursorY == scrollBottom {
        ScrolledFirst(model, Records(model));
        ScrollUpLocked(1, true);
      } else if g.cursorY < rows - 1 {
        MoveDown(1);
      }
    }

    /** `cursorY++` and `cursorY--`. */
    method MoveDown(d: int)
      requires Valid() && !wrapPending && 0 <= Current().cursorY + d < rows
      modifies this`main, this`alt, this`model
      ensures Valid() && model == WithActive(old(model), Active(old(model)).(y := Active(old(model)).y + d))
    {
      hide Shows, Separate, RingSlots;
      if altActive {
        alt := alt.(cursorY := alt.cursorY + d);
      } else {
        main := main.(cursorY := main.cursorY + d);
      }
      model := WithActive(model, Active(model).(y := Active(model).y + d));
    }

    method LineFeed()
      requires Valid()
      modifies this
      ensures Valid() && fresh(store.Keys - old(store.Keys)) && model == Apply(old(model), Op.LineFeed)
    {
      hide Ok, Rows, InSync, LineFeedFrom;
      EndWrap();
      LineFeedLocked();
    }

    method ReverseLineFeed()
      requires Valid()
      modifies this
      ensures Valid() && fresh(store.Keys - old(store.Keys)) && model == Apply(old(model), Op.ReverseLineFeed)
    {
      hide Ok, Rows, InSync, ScrolledDown;
      EndWrap();
      CursorKnown();
      var g := Current();
      if g.cursorY == scrollTop {
        ScrollDownLocked(1);
      } else if g.cursorY > 0 {
        MoveDown(-1);
      }
    }

    method PutRune(r: int)
      requires Valid()
      modifies this, store.Keys
      ensures Valid() && fresh(store.Keys - old(store.Keys)) && model == Apply(old(model), Op.PutRune(r))
    {
      hide Ok, Rows, InSync, Wrapped, WriteCell;
      WrappedOk(model);
      WrapNow();
      WriteRune(r);
    }

    /** The deferred wrap. */
    method WrapNow()
      requires Valid()
      modifies this`main, this`alt, this`wrapPending, this`sb, this`sbHead, this`model, this`store
      ensures Valid() && fresh(store.Keys - old(store.Keys)) && model == Wrapped(old(model)) && !wrapPending
    {
      hide Rows, InSync, LineFeedFrom, Place;
      if wrapPending {
        CursorKnown();
        HomeColumn(model);
        PutCursor(0, Current().cursorY);
        LineFeedLocked();
        LineFeedOk(NoWrap(WithActive(old(model), Active(old(model)).(x := 0))));
      }
    }

    /** Write at the cursor, then advance or arm the deferred wrap. */
    method WriteRune(r: int)
      requires Valid() && !wrapPending
      modifies this`main, this`alt, this`wrapPending, this`model, this`store, store.Keys
      ensures Valid() && store.Keys == old(store.Keys) && model == WriteCell(old(model), r)
    {
      hide Ok, Rows, SetRow, Place;
      CursorKnown();
      var g := Current();
      RowKnown(g.cursorY);
      var c := pen.(rune := r);
      var row := g.cells[g.cursorY];
      ghost var s := model;
      row.store[g.cursorX] := c;
      ghost var content := Active(s).cells[g.cursorY][g.cursorX := c];
      assert row.store[..row.len] == content;
      RowWritten(g.cursorY, content);
      AdvanceCursor(g.cursorX);
    }

    method AdvanceCursor(x: int)
      requires Valid() && !wrapPending && x == Current().cursorX
      modifies this`main, this`alt, this`wrapPending, this`model
      ensures Valid()
      ensures model == if x == cols - 1 then old(model).(wrapPending := true)
        else WithActive(old(model), Active(old(model)).(x := x + 1))
    {
      hide Shows, Separate, RingSlots;
      if x == cols - 1 {
        wrapPending := true;
        model := model.(wrapPending := true);
      } else {
        if altActive {
          alt := alt.(cursorX := x + 1);
        } else {
          main := main.(cursorX := x + 1);
        }
        model := WithActive(model, Active(model).(x := x + 1));
      }
    }

    // ----- margins, modes and buffers -----

    method ClearScrollback()
      requires Valid()
      modifies this
      ensures Valid() && store == old(store) && model == Apply(old(model), Op.ClearScrollback)
    {
      hide Ok, Shows, Separate, RingSlots;
      ApplyOk(model, Op.ClearScrollback);
      NothingShown(store);
      SlotsPush([], []);
      SeparateEmpty(main.cells, alt.cells, sb);
      sb := [];
      sbHead := 0;
      model := Apply(model, Op.ClearScrollback);
    }

    method SetMargins(top: int, bottom: int)
      requires Valid() && 0 <= top <= bottom < rows
      modifies this`scrollTop, this`scrollBottom, this`model
      ensures Valid() && model == old(model).(top := top, bottom := bottom)
    {
      hide Shows, Separate, RingSlots;
      scrollTop, scrollBottom := top, bottom;
      model := model.(top := top, bottom := bottom);
    }

    method SetScrollRegion(top0: int, bottom0: int)
      requires Valid()
      modifies this
      ensures Valid() && store == old(store) && model == Apply(old(model), Op.SetScrollRegion(top0, bottom0))
    {
      hide Ok, Rows, InSync, Place;
      CursorKnown();
      var top := Clamp(top0, 0, rows - 1);
      var bottom := Clamp(bottom0, 0, rows - 1);
      if top >= bottom {
        top, bottom := 0, rows - 1;
      }
      SetMargins(top, bottom);
      PutCursor(0, 0);
    }

    /** `s.pen = c`. */
    method SetPen(c: Cell)
      requires Valid()
      modifies this`pen, this`model
      ensures Valid() && model == old(model).(pen := c)
    {
      hide Shows, Separate, RingSlots;
      pen := c;
      model := model.(pen := c);
    }

    method SaveCursor()
      requires Valid()
      modifies this
      ensures Valid() && store == old(store) && model == Apply(old(model), Op.SaveCursor)
    {
      hide Ok, Apply, Shows, Separate, RingSlots;
      CursorKnown();
      SaveApplies(model);
      var g := Current();
      saved := Saved.Saved(g.cursorX, g.cursorY, pen);
      model := model.(saved := saved);
    }

    method RestoreCursor()
      requires Valid()
      modifies this
      ensures Valid() && store == old(store) && model == Apply(old(model), Op.RestoreCursor)
    {
      hide Ok, Rows, InSync;
      CursorKnown();
      match saved
      case NotSaved =>
        SetPen(NOTHING);
        PutCursor(0, 0);
      case Saved(x, y, p) =>
        SetPen(p);
        PutCursor(Clamp(x, 0, cols - 1), Clamp(y, 0, rows - 1));
    }

    method SetCursorVisible(v: bool)
      requires Valid()
      modifies this
      ensures Valid() && store == old(store) && model == Apply(old(model), Op.SetCursorVisible(v))
    {
      hide Ok, Apply, Shows, Separate, RingSlots;
      VisibleApplies(model, v);
      cursorVisible := v;
      model := model.(cursorVisible := v);
    }

    method SetBracketedPaste(v: bool)
      requires Valid()
      modifies this
      ensures Valid() && store == old(store) && model == Apply(old(model), Op.SetBracketedPaste(v))
    {
      hide Ok, Apply, Shows, Separate, RingSlots;
      PasteApplies(model, v);
      bracketedPaste := v;
      model := model.(bracketedPaste := v);
    }

    method SetTitle(t: Text)
      requires Valid()
      modifies this
      ensures Valid() && store == old(store) && model == Apply(old(model), Op.SetTitle(t))
    {
      hide Ok, Apply, Shows, Separate, RingSlots;
      TitleApplies(model, t);
      title := t;
      model := model.(title := t);
    }

    method SetAltScreen(enter: bool)
      requires Valid()
      modifies this
      ensures Valid() && fresh(store.Keys - old(store.Keys)) && model == Apply(old(model), Op.SetAltScreen(enter))
    {
      hide Ok, Shows, Separate, RingSlots, NewGrid, InSync, FreshRows;
      ApplyOk(model, Op.SetAltScreen(enter));
      if enter == altActive {
        return;
      }
      if enter {
        EnterAlt();
      } else {
        LeaveAlt();
      }
    }

    method EnterAlt()
      requires Valid() && !altActive
      modifies this
      ensures Valid() && fresh(store.Keys - old(store.Keys)) && model == SwitchScreen(old(model), true)
    {
      hide Ok, Rows, NewGrid;
      ClearAlt();
      ShowAlt();
    }

    /** `s.alt = newGrid(s.cols, s.rows)`. */
    method ClearAlt()
      requires Valid() && !altActive
      modifies this`alt, this`store, this`model
      ensures Valid() && fresh(store.Keys - old(store.Keys))
      ensures model == old(model).(alt := NewGrid(cols, rows))
    {
      hide Ok, Shows, Separate, RingSlots, NewGrid, FreshRows, Extends;
      AltClearedOk(model);
      CursorKnown();
      ghost var st := store;
      var cells := MakeGrid();
      ShownInStore(main.cells, model.main.cells, st);
      ShownInStore(sb, RingSlots(model.evicted), st);
      ShowsGrows(main.cells, model.main.cells, st, store);
      ShowsGrows(sb, RingSlots(model.evicted), st, store);
      FreshSeparate(main.cells, alt.cells, sb, cells, st);
      NewGridCursor(cols, rows);
      alt := GridState(cells, 0, 0);
      model := model.(alt := NewGrid(cols, rows));
    }

    method ShowAlt()
      requires Valid() && !altActive
      modifies this`wrapPending, this`altSaved, this`altActive, this`scrollTop, this`scrollBottom, this`model
      ensures Valid() && model == ShowingAlt(old(model))
    {
      hide Ok, Shows, Separate, RingSlots;
      ShowingOk(model);
      wrapPending := false;
      altSaved := Saved.Saved(main.cursorX, main.cursorY, pen);
      altActive := true;
      scrollTop, scrollBottom := 0, rows - 1;
      model := ShowingAlt(model);
    }

    method LeaveAlt()
      requires Valid() && altActive
      modifies this
      ensures Valid() && store == old(store) && model == SwitchScreen(old(model), false)
    {
      hide Ok, Rows;
      ShowMain();
      match altSaved {
        case NotSaved =>
        case Saved(x, y, p) =>
          RestoreMain(x, y, p);
      }
    }

    method ShowMain()
      requires Valid() && altActive
      modifies this`wrapPending, this`altActive, this`scrollTop, this`scrollBottom, this`model
      ensures Valid() && model == ShowingMain(old(model))
    {
      hide Ok, Shows, Separate, RingSlots;
      ShowingOk(model);
      wrapPending := false;
      altActive := false;
      scrollTop, scrollBottom := 0, rows - 1;
      model := ShowingMain(model);
    }

    /** Give the main screen its cursor and pen back. */
    method RestoreMain(x: int, y: int, p: Cell)
      requires Valid() && !wrapPending
      modifies this`main, this`pen, this`altSaved, this`model
      ensures Valid()
      ensures var s := old(model);
        model == s.(main := s.main.(x := Clamp(x, 0, cols - 1), y := Clamp(y, 0, rows - 1)), pen := p, altSaved := NotSaved)
    {
      hide Ok, Shows, Separate, RingSlots;
      MainCursorOk(model, x, y, p);
      main := main.(cursorX := Clamp(x, 0, cols - 1), cursorY := Clamp(y, 0, rows - 1));
      pen := p;
      altSaved := NotSaved;
      model := model.(main := model.main.(x := main.cursorX, y := main.cursorY), pen := p, altSaved := NotSaved);
    }

    method Reset()
      requires Valid()
      modifies this
      ensures Valid() && fresh(store.Keys - old(store.Keys)) && model == Apply(old(model), Op.Reset)
    {
      hide Ok, Rows, NewGrid, Apply;
      ResetApplies(model);
      ClearModes();
      ClearGrids();
    }

    method ClearModes()
      requires Valid()
      modifies this`pen, this`altActive, this`scrollTop, this`scrollBottom, this`cursorVisible, this`bracketedPaste,
        this`saved, this`altSaved, this`wrapPending, this`model
      ensures Valid() && model == ModesCleared(old(model))
    {
      hide Ok, Shows, Separate, RingSlots;
      ModesClearedOk(model);
      PlainModes();
      ghost var s := ModesCleared(model);
      ModesClearedFields(model);
      hide ModesCleared;
      ForgetSaved();
      FullMargins();
      model := s;
    }

    method PlainModes()
      requires Valid()
      modifies this`pen, this`cursorVisible, this`bracketedPaste, this`model
      ensures Valid() && model == old(model).(pen := NOTHING, cursorVisible := true, bracketedPaste := false)
    {
      hide Shows, Separate, RingSlots;
      pen, cursorVisible, bracketedPaste := NOTHING, true, false;
      model := model.(pen := NOTHING, cursorVisible := true, bracketedPaste := false);
    }

    method ForgetSaved()
      modifies this`altActive, this`saved, this`altSaved
      ensures !altActive && saved == altSaved == NotSaved
    {
      altActive := false;
      saved := NotSaved;
      altSaved := NotSaved;
    }

    /** The scroll region is the whole screen again, and no wrap is pending. */
    method FullMargins()
      modifies this`scrollTop, this`scrollBottom, this`wrapPending
      ensures scrollTop == 0 && scrollBottom == rows - 1 && !wrapPending
    {
      scrollTop, scrollBottom := 0, rows - 1;
      wrapPending := false;
    }

    method ClearGrids()
      requires Valid() && !wrapPending
      modifies this`main, this`alt, this`store, this`model
      ensures Valid() && fresh(store.Keys - old(store.Keys))
      ensures model == old(model).(main := NewGrid(cols, rows), alt := NewGrid(cols, rows))
    {
      hide Ok, Shows, Separate, RingSlots, NewGrid;
      GridsClearedOk(model);
      CursorKnown();
      ShownInStore(sb, RingSlots(model.evicted), store);
      ghost var st := store;
      RingDistinct(main.cells, alt.cells, sb);
      FreshGrids();
      ShowsGrows(sb, RingSlots(model.evicted), st, store);
      model := model.(main := NewGrid(cols, rows), alt := NewGrid(cols, rows));
    }

    /** applySGR: the loop over the parameters. */
    method ApplySGR(params0: seq<int>)
      requires Valid()
      modifies this
      ensures Valid() && store == old(store) && model == Apply(old(model), Op.ApplySGR(params0))
    {
      hide Ok, Rows, InSync, Sgr;
      var params := if params0 == [] then [0] else params0;
      var p := FoldSGR(pen, params);
      SetPen(p);
    }

    // ----- resizing -----

    /** One row of resizeGrid: cut in place, padded into a new row, or kept. */
    method FitRow(row: Row, newCols: int, ghost content: seq<Cell>) returns (r: Row, ghost kept: bool)
      requires InSync() && RowShows(row, content, store) && newCols >= 1
      modifies this`store
      ensures InSync() && Extends(old(store), store) && fresh(store.Keys - old(store.Keys))
      ensures RowShows(r, ResizeRow(content, newCols), store)
      ensures if kept then r.store == row.store else r.store !in old(store)
    {
      kept := true;
      if row.len > newCols {
        r := Row(row.store, newCols);
        assert store[row.store][..newCols] == content[..newCols];
      } else if row.len < newCols {
        var padded := new Cell[newCols](_ => NOTHING);
        forall k | 0 <= k < row.len {
          padded[k] := row.store[k];
        }
        r, kept := Row(padded, newCols), false;
        assert padded[..] == ResizeRow(content, newCols);
        store := store[padded := padded[..]];
      } else {
        r := row;
        assert ResizeRow(content, newCols) == content;
      }
    }

    /** resizeGrid. */
    method ResizeRows(g: seq<Row>, newCols: int, newRows: int, ghost content: seq<seq<Cell>>)
      returns (cells: seq<Row>, ghost from: seq<int>)
      requires InSync() && Shows(g, content, store) && newCols >= 1 && newRows >= 1
      modifies this`store
      ensures InSync() && Extends(old(store), store) && fresh(store.Keys - old(store.Keys))
      ensures Shows(cells, ResizedCells(content, newCols, newRows), store)
      ensures Rearranged(g, cells, from, old(store))
    {
      hide Shows, Rearranged, ResizedCells, RowShows, ResizeRow;
      ghost var st0 := store;
      cells, from := [], [];
      StartResize(g, content, newCols, store);
      while |cells| < newRows
        invariant |cells| == |from| <= newRows
        invariant InSync() && Extends(st0, store) && fresh(store.Keys - st0.Keys)
        invariant Shows(g, content, store) && Shows(cells, ResizedCells(content, newCols, |cells|), store)
        invariant Rearranged(g, cells, from, st0)
        invariant forall k :: 0 <= k < |from| ==> from[k] == -1 || from[k] == k
      {
        ghost var st := store;
        var i := |cells|;
        var row;
        ghost var kept := false;
        ShownLength(g, content, store);
        if i < |g| {
          ShownRow(g, content, store, i);
          row, kept := FitRow(g[i], newCols, content[i]);
        } else {
          row := NewRow(newCols, NOTHING);
          store := store[row.store := row.store[..]];
          NewRowShown(row, newCols, store);
        }
        AppendResized(g, cells, from, st0, st, store, content, newCols, row, kept);
        cells, from := cells + [row], from + [if kept then i else -1];
      }
    }

    method Resize(cols0: int, rows0: int)
      requires Valid()
      modifies this
      ensures Valid() && fresh(store.Keys - old(store.Keys)) && model == Apply(old(model), Op.Resize(cols0, rows0))
    {
      hide Ok, Shows, Separate, RingSlots, InSync;
      var newCols, newRows := AtLeastOne(cols0), AtLeastOne(rows0);
      if newCols == cols && newRows == rows {
        return;
      }
      ResizeTo(newCols, newRows);
    }

    method ResizeTo(newCols: int, newRows: int)
      requires Valid() && newCols >= 1 && newRows >= 1 && !(newCols == cols && newRows == rows)
      modifies this
      ensures Valid() && fresh(store.Keys - old(store.Keys))
      ensures model == ScreenModel.ResizeTo(old(model), newCols, newRows)
    {
      hide Ok, Shows, Separate, RingSlots, Rearranged, ResizedCells, Extends, ScreenModel.ResizeTo;
      ghost var st := store;
      var m, fm := ResizeRows(main.cells, newCols, newRows, model.main.cells);
      ghost var st1 := store;
      ShowsGrows(alt.cells, model.alt.cells, st, st1);
      var a, fa := ResizeRows(alt.cells, newCols, newRows, model.alt.cells);
      ResizedSeparate(main.cells, alt.cells, sb, m, a, fm, fa, st, st1, model, newCols, newRows);
      ShowsGrows(m, ResizedCells(model.main.cells, newCols, newRows), st1, store);
      ExtendsTwice(st, st1, store);
      ShowsGrows(sb, RingSlots(model.evicted), st, store);
      InstallResized(m, a, newCols, newRows);
    }

    /** The resized grids, with the cursors brought back inside. */
    method InstallResized(m: seq<Row>, a: seq<Row>, newCols: int, newRows: int)
      requires Ok(model) && FieldsAgree() && InSync()
      requires newCols >= 1 && newRows >= 1 && !(newCols == cols && newRows == rows)
      requires Separate(m, a, sb)
      requires Shows(m, ResizedCells(model.main.cells, newCols, newRows), store)
      requires Shows(a, ResizedCells(model.alt.cells, newCols, newRows), store)
      requires Shows(sb, RingSlots(model.evicted), store) && sbHead == RingHead(|model.evicted|)
      modifies this`main, this`alt, this`cols, this`rows, this`scrollTop, this`scrollBottom, this`wrapPending, this`model
      ensures Valid() && model == ScreenModel.ResizeTo(old(model), newCols, newRows)
    {
      hide Ok, Shows, Separate, RingSlots, ResizedCells, RingHead, ScreenModel.ResizeTo;
      ResizedFields(model, newCols, newRows);
      ghost var s := ScreenModel.ResizeTo(model, newCols, newRows);
      TakeGrids(m, a, newCols, newRows);
      FullMargins();
      model := s;
    }

    /** The new grids and size; clampCursor on both. */
    method TakeGrids(m: seq<Row>, a: seq<Row>, newCols: int, newRows: int)
      modifies this`main, this`alt, this`cols, this`rows
      ensures cols == newCols && rows == newRows
      ensures main == GridState(m, Clamp(old(main).cursorX, 0, newCols - 1), Clamp(old(main).cursorY, 0, newRows - 1))
      ensures alt == GridState(a, Clamp(old(alt).cursorX, 0, newCols - 1), Clamp(old(alt).cursorY, 0, newRows - 1))
    {
      main := GridState(m, Clamp(main.cursorX, 0, newCols - 1), Clamp(main.cursorY, 0, newRows - 1));
      alt := GridState(a, Clamp(alt.cursorX, 0, newCols - 1), Clamp(alt.cursorY, 0, newRows - 1));
      cols, rows := newCols, newRows;
    }

    // ----- reading -----

    /** Snapshot: copies of the rows, and everything else that can be seen. */
    method Snapshot() returns (r: ScreenSnapshot)
      requires Valid()
      ensures r == SnapshotOf(model)
    {
      hide Ok, Separate, RingSlots, Shows, InSync, Retained;
      var cells := CopyRows();
      ShownLength(sb, RingSlots(model.evicted), store);
      RetainedLength(model.evicted);
      var g := Current();
      return ScreenSnapshot(cells, g.cursorX, g.cursorY, cursorVisible, cols, rows, |sb|, title);
    }

    method CopyRows() returns (cells: seq<seq<Cell>>)
      requires Valid()
      ensures cells == Active(model).cells
    {
      hide Ok, Rows, RingSlots, FieldsAgree, InSync;
      CursorKnown();
      cells := [];
      while |cells| < |Current().cells|
        invariant |cells| <= rows == |Active(model).cells| && cells == Active(model).cells[..|cells|]
      {
        var y := |cells|;
        RowKnown(y);
        var row := Current().cells[y];
        cells := cells + [row.store[..row.len]];
      }
    }

    /** cursorPosition. */
    method CursorPosition() returns (x: int, y: int)
      requires Valid()
      ensures x == Active(model).x && y == Active(model).y
    {
      var g := Current();
      return g.cursorX, g.cursorY;
    }

    /** ScrollbackLines: the clamped slice of the retained lines, oldest first. */
    method ScrollbackLines(start0: int, count0: int) returns (lines: seq<seq<Cell>>)
      requires Valid()
      ensures lines == ClampedSlice(Retained(model.evicted), start0, count0)
    {
      hide Ok, Separate, RingSlots, Retained, FieldsAgree, Shows, RowShows, InSync, RingHead;
      var start, count := start0, count0;
      var n := |sb|;
      ShownLength(sb, RingSlots(model.evicted), store);
      if start < 0 {
        count := count + start;
        start := 0;
      }
      RetainedLength(model.evicted);
      if n == 0 || count <= 0 || start >= n {
        return [];
      }
      if start + count > n {
        count := n - start;
      }
      lines := ReadLines(start, count);
    }

    method ReadLines(start: int, count: int) returns (lines: seq<seq<Cell>>)
      requires Valid() && 0 <= start < start + count <= |sb| == |Retained(model.evicted)|
      ensures lines == Retained(model.evicted)[start..start + count]
    {
      hide Ok, Rows, RingSlots, Retained, FieldsAgree, InSync, RingHead;
      ghost var held := Retained(model.evicted);
      lines := [];
      while |lines| < count
        invariant |lines| <= count && lines == held[start..start + |lines|]
      {
        var line := ReadLine(start + |lines|);
        lines := lines + [line];
      }
    }

    /** A copy of one scrollback line. */
    method ReadLine(k: int) returns (line: seq<Cell>)
      requires Valid() && 0 <= k < |sb| == |Retained(model.evicted)|
      ensures line == Retained(model.evicted)[k]
    {
      hide Ok, Separate, RingSlots, FieldsAgree, Retained;
      var idx := (sbHead + k) % |sb|;
      ShownLength(sb, RingSlots(model.evicted), store);
      RingRead(model.evicted, k);
      assert RowShows(sb[idx], RingSlots(model.evicted)[idx], store);
      line := sb[idx].store[..sb[idx].len];
    }
  }

  // ----- modes as values -----

  lemma SaveApplies(s: State)
    requires Ok(s)
    ensures Apply(s, Op.SaveCursor) == s.(saved := Saved.Saved(Active(s).x, Active(s).y, s.pen)) && Ok(Apply(s, Op.SaveCursor))
  {
    hide LineFeedFrom, ReverseFrom, Wrapped, WriteCell, NewGrid, Sgr, ResizeTo, EditedRow, EditedLines;
    hide ScrollRegion, Restore, SwitchScreen, Place;
  }

  lemma VisibleApplies(s: State, v: bool)
    requires Ok(s)
    ensures Apply(s, Op.SetCursorVisible(v)) == s.(cursorVisible := v) && Ok(Apply(s, Op.SetCursorVisible(v)))
  {
    hide LineFeedFrom, ReverseFrom, Wrapped, WriteCell, NewGrid, Sgr, ResizeTo, EditedRow, EditedLines;
    hide ScrollRegion, Restore, SwitchScreen, Place;
  }

  lemma PasteApplies(s: State, v: bool)
    requires Ok(s)
    ensures Apply(s, Op.SetBracketedPaste(v)) == s.(bracketedPaste := v) && Ok(Apply(s, Op.SetBracketedPaste(v)))
  {
    hide LineFeedFrom, ReverseFrom, Wrapped, WriteCell, NewGrid, Sgr, ResizeTo, EditedRow, EditedLines;
    hide ScrollRegion, Restore, SwitchScreen, Place;
  }

  lemma TitleApplies(s: State, t: Text)
    requires Ok(s)
    ensures Apply(s, Op.SetTitle(t)) == s.(title := t) && Ok(Apply(s, Op.SetTitle(t)))
  {
    hide LineFeedFrom, ReverseFrom, Wrapped, WriteCell, NewGrid, Sgr, ResizeTo, EditedRow, EditedLines;
    hide ScrollRegion, Restore, SwitchScreen, Place;
  }

  lemma ResetApplies(s: State)
    requires Ok(s)
    ensures Apply(s, Op.Reset) == ModesCleared(s).(main := NewGrid(s.cols, s.rows), alt := NewGrid(s.cols, s.rows))
  {
    hide LineFeedFrom, ReverseFrom, Wrapped, WriteCell, NewGrid, Sgr, ResizeTo, EditedRow, EditedLines;
    hide ScrollRegion, Restore, SwitchScreen, Place;
  }

  function ModesCleared(s: State): State {
    s.(pen := NOTHING, altActive := false, top := 0, bottom := s.rows - 1, cursorVisible := true,
       bracketedPaste := false, saved := NotSaved, altSaved := NotSaved, wrapPending := false)
  }

  function ShowingAlt(s: State): State {
    s.(wrapPending := false, altSaved := Saved.Saved(s.main.x, s.main.y, s.pen), altActive := true,
       top := 0, bottom := s.rows - 1)
  }

  function ShowingMain(s: State): State {
    s.(wrapPending := false, altActive := false, top := 0, bottom := s.rows - 1)
  }

  lemma ModesClearedFields(s: State)
    ensures var t := ModesCleared(s);
      && t.cols == s.cols && t.rows == s.rows && t.main == s.main && t.alt == s.alt && t.altActive == false
      && t.pen == NOTHING && t.evicted == s.evicted && t.top == 0 && t.bottom == s.rows - 1 && t.cursorVisible
      && !t.bracketedPaste && t.title == s.title && t.saved == NotSaved && t.altSaved == NotSaved && !t.wrapPending
  {
  }

  lemma ResizedFields(s: State, cols: int, rows: int)
    requires Ok(s) && cols >= 1 && rows >= 1 && !(cols == s.cols && rows == s.rows)
    ensures var t := ScreenModel.ResizeTo(s, cols, rows);
      && Ok(t) && t.cols == cols && t.rows == rows
      && t.main == Grid(ResizedCells(s.main.cells, cols, rows), Clamp(s.main.x, 0, cols - 1), Clamp(s.main.y, 0, rows - 1))
      && t.alt == Grid(ResizedCells(s.alt.cells, cols, rows), Clamp(s.alt.x, 0, cols - 1), Clamp(s.alt.y, 0, rows - 1))
      && t.altActive == s.altActive && t.pen == s.pen && t.evicted == s.evicted && t.top == 0 && t.bottom == rows - 1
      && t.cursorVisible == s.cursorVisible && t.bracketedPaste == s.bracketedPaste && t.title == s.title
      && t.saved == s.saved && t.altSaved == s.altSaved && !t.wrapPending
  {
    hide Ok, ResizedCells;
    ResizeOk(s, cols, rows);
  }

  lemma ModesClearedOk(s: State)
    requires Ok(s)
    ensures Ok(ModesCleared(s))
  {
  }

  lemma ShowingOk(s: State)
    requires Ok(s)
    ensures Ok(ShowingAlt(s)) && Ok(ShowingMain(s))
  {
  }

  lemma MainCursorOk(s: State, x: int, y: int, p: Cell)
    requires Ok(s) && !s.wrapPending
    ensures Ok(s.(main := s.main.(x := Clamp(x, 0, s.cols - 1), y := Clamp(y, 0, s.rows - 1)), pen := p, altSaved := NotSaved))
  {
  }

  lemma AltClearedOk(s: State)
    requires Ok(s) && !s.altActive
    ensures Ok(s.(alt := NewGrid(s.cols, s.rows)))
  {
  }

  lemma GridsClearedOk(s: State)
    requires Ok(s) && !s.wrapPending
    ensures Ok(s.(main := NewGrid(s.cols, s.rows), alt := NewGrid(s.cols, s.rows)))
  {
  }

  /** What a request for `count` lines from `start` means, out-of-range parts dropped. */
  function ClampedSlice<T>(lines: seq<T>, start: int, count: int): seq<T> {
    var from := if start < 0 then 0 else start;
    var to := if start + count > |lines| then |lines| else start + count;
    if from < to then lines[from..to] else []
  }

  /** The slice holds, in order, exactly the lines numbered start to start + count - 1. */
  lemma SliceExactly<T>(lines: seq<T>, start: int, count: int)
    ensures var r := ClampedSlice(lines, start, count); var from := if start < 0 then 0 else start;
      && (forall i :: 0 <= i < |lines| && start <= i < start + count ==> 0 <= i - from < |r| && r[i - from] == lines[i])
      && (r != [] ==> from + |r| <= |lines| && from + |r| <= start + count)
  {
  }

  /** A snapshot shows the cursor where it was placed and the rune that was put there. */
  lemma SnapshotShows(s: State, x: int, y: int, rune: int)
    requires Ok(s) && 0 <= x < s.cols && 0 <= y < s.rows
    ensures var placed := Apply(s, SetCursor(x, y));
      && Ok(placed) && SnapshotOf(placed).cursorX == x && SnapshotOf(placed).cursorY == y
      && SnapshotOf(Apply(placed, PutRune(rune))).cells == SnapshotOf(s).cells[y := SnapshotOf(s).cells[y][x := s.pen.(rune := rune)]]
  {
    ApplyOk(s, SetCursor(x, y));
    PlacedByApply(s, x, y);
    hide Apply, Ok;
    PutByApply(Apply(s, SetCursor(x, y)), rune);
  }

  lemma PlacedByApply(s: State, x: int, y: int)
    requires Ok(s) && 0 <= x < s.cols && 0 <= y < s.rows
    ensures Apply(s, SetCursor(x, y)) == WithActive(s.(wrapPending := false), Active(s).(x := x, y := y))
  {
    hide ApplyOther, EditedRow, EditedLines;
  }

  lemma PutByApply(s: State, rune: int)
    requires Ok(s) && !s.wrapPending
    ensures Apply(s, PutRune(rune)) == WriteCell(s, rune)
  {
    hide WriteCell, LineFeedFrom, ReverseFrom, ResizeTo, Sgr, EditedRow, EditedLines;
  }

  /** It shows the grid's size, the modes as they were set, and counts the lines that can
      be read back. */
  lemma SnapshotCounts(s: State, v: bool, title: Text)
    requires Ok(s)
    ensures var r := SnapshotOf(s);
      && (r.cols, r.rows) == (s.cols, s.rows) && |r.cells| == r.rows && (forall i :: 0 <= i < r.rows ==> |r.cells[i]| == r.cols)
      && r.scrollbackLen == |ClampedSlice(Retained(s.evicted), 0, 4000)|
    ensures SnapshotOf(Apply(s, SetCursorVisible(v))).cursorVisible == v
    ensures SnapshotOf(Apply(s, SetTitle(title))).title == title
  {
    ModesByApply(s, v, title);
    hide Apply, Retained;
    AtMost4000(s.evicted);
  }

  lemma ModesByApply(s: State, v: bool, title: Text)
    requires Ok(s)
    ensures Apply(s, SetCursorVisible(v)).cursorVisible == v && Apply(s, SetTitle(title)).title == title
  {
    hide Ok, WriteCell, LineFeedFrom, ReverseFrom, Wrapped, ResizeTo, Sgr, EditedRow, EditedLines;
  }

  lemma AtMost4000(evicted: seq<seq<Cell>>)
    ensures |Retained(evicted)| <= 4000
  {
  }

  lemma RetainedLength(evicted: seq<seq<Cell>>)
    ensures |Retained(evicted)| == |RingSlots(evicted)|
  {
  }

  /** Slot (head + k) modulo the ring's size holds retained line k. */
  lemma RingRead(evicted: seq<seq<Cell>>, k: nat)
    requires k < |RingSlots(evicted)|
    ensures var n := |RingSlots(evicted)|; var idx := (RingHead(|evicted|) + k) % n;
      0 <= idx < n && |Retained(evicted)| == n && RingSlots(evicted)[idx] == Retained(evicted)[k]
  {
    hide RingSlots, Retained;
    RetainedLength(evicted);
    RetainedAt(evicted, k);
    if |evicted| < SCROLLBACK_CAP {
      RingReadShort(evicted, k);
      SmallMod(k, |evicted|);
    } else {
      RingReadFull(evicted, k);
    }
  }

  lemma SmallMod(k: nat, n: nat)
    requires k < n
    ensures k % n == k
  {
  }

  lemma RingReadShort(evicted: seq<seq<Cell>>, k: nat)
    requires k < |evicted| < SCROLLBACK_CAP
    ensures RingSlots(evicted)[k] == evicted[k]
  {
    hide RingSlots;
    RingSlotsHold(evicted, k);
    SmallMod(k, SCROLLBACK_CAP);
  }

  lemma RingReadFull(evicted: seq<seq<Cell>>, k: nat)
    requires k < SCROLLBACK_CAP <= |evicted|
    ensures RingSlots(evicted)[(|evicted| % SCROLLBACK_CAP + k) % SCROLLBACK_CAP] == evicted[|evicted| - SCROLLBACK_CAP + k]
  {
    hide RingSlots;
    RingSlotsHold(evicted, |evicted| - SCROLLBACK_CAP + k);
    RingIndex(|evicted|, k);
  }

  lemma RetainedAt(evicted: seq<seq<Cell>>, k: nat)
    requires k < |Retained(evicted)|
    ensures if |evicted| <= SCROLLBACK_CAP then |Retained(evicted)| == |evicted| && Retained(evicted)[k] == evicted[k]
            else |Retained(evicted)| == SCROLLBACK_CAP && Retained(evicted)[k] == evicted[|evicted| - SCROLLBACK_CAP + k]
  {
  }

  lemma RingIndex(n: nat, k: nat)
    requires n >= SCROLLBACK_CAP
    ensures (n - SCROLLBACK_CAP + k) % SCROLLBACK_CAP == (n % SCROLLBACK_CAP + k) % SCROLLBACK_CAP
  {
    var q, r := n / SCROLLBACK_CAP, n % SCROLLBACK_CAP;
    assert n == SCROLLBACK_CAP * q + r;
    assert n - SCROLLBACK_CAP + k == SCROLLBACK_CAP * (q - 1) + (r + k);
  }

  method FoldSGR(pen: Cell, params: seq<int>) returns (p: Cell)
    ensures p == Sgr(pen, params)
  {
    p := pen;
    var i := 0;
    while i < |params|
      invariant 0 <= i <= |params|
      invariant Sgr(p, params[i..]) == Sgr(pen, params)
    {
      var q := params[i];
      var rest := params[i + 1..];
      assert params[i..][1..] == rest && params[i..][0] == q;
      if q == 38 || q == 48 {
        var c := ParseExtendedColor(rest);
        if c.Malformed? {
          return;
        }
        p := if q == 38 then p.(fg := c.color) else p.(bg := c.color);
        assert params[i..][1 + c.consumed..] == params[i + 1 + c.consumed..];
        i := i + c.consumed;
      } else {
        p := SgrOne(p, q);
      }
      i := i + 1;
    }
  }

  lemma SeparateEmpty(main: seq<Row>, alt: seq<Row>, sb: seq<Row>)
    requires Separate(main, alt, sb)
    ensures Separate(main, alt, [])
  {
  }

  lemma RingDistinct(main: seq<Row>, alt: seq<Row>, sb: seq<Row>)
    requires Separate(main, alt, sb)
    ensures Distinct(sb)
  {
  }

  lemma FreshSeparate(main: seq<Row>, alt: seq<Row>, sb: seq<Row>, cells: seq<Row>, st: Store)
    requires Separate(main, alt, sb) && FreshRows(cells, st) && InStore(main, st) && InStore(sb, st)
    ensures Separate(main, cells, sb)
  {
  }

  lemma StartResize(g: seq<Row>, content: seq<seq<Cell>>, cols: int, st: Store)
    requires cols >= 1
    ensures Shows([], ResizedCells(content, cols, 0), st) && Rearranged(g, [], [], st)
  {
  }

  lemma ShownRow(rows: seq<Row>, content: seq<seq<Cell>>, st: Store, i: int)
    requires Shows(rows, content, st) && 0 <= i < |rows|
    ensures |content| == |rows| && RowShows(rows[i], content[i], st)
  {
  }

  lemma NewRowShown(row: Row, cols: int, st: Store)
    requires row.store in st && st[row.store] == Repeat(cols, NOTHING) && row.len == cols >= 0
    ensures RowShows(row, Repeat(cols, NOTHING), st)
  {
  }

  /** One more row of the resized grid. */
  lemma AppendResized(g: seq<Row>, cells: seq<Row>, from: seq<int>, st0: Store, st: Store, bigger: Store,
                      content: seq<seq<Cell>>, cols: int, row: Row, kept: bool)
    requires cols >= 1 && |cells| == |from| && |g| == |content|
    requires Extends(st0, st) && Extends(st, bigger)
    requires Shows(g, content, st) && Shows(cells, ResizedCells(content, cols, |cells|), st)
    requires Rearranged(g, cells, from, st0)
    requires forall k :: 0 <= k < |from| ==> from[k] == -1 || from[k] == k
    requires if kept then |cells| < |g| && row.store == g[|cells|].store else row.store !in st
    requires RowShows(row, ResizedLine(content, cols, |cells|), bigger)
    ensures Shows(g, content, bigger) && Shows(cells + [row], ResizedCells(content, cols, |cells| + 1), bigger)
    ensures Rearranged(g, cells + [row], from + [if kept then |cells| else -1], st0)
  {
    hide RowShows, ResizedLine;
    ShowsGrows(g, content, st, bigger);
    ShowsGrows(cells, ResizedCells(content, cols, |cells|), st, bigger);
    ShownInStore(cells, ResizedCells(content, cols, |cells|), st);
    assert forall i :: 0 <= i < |cells| ==>
      ResizedCells(content, cols, |cells| + 1)[i] == ResizedCells(content, cols, |cells|)[i];
  }

  lemma ExtendsTwice(st: Store, st1: Store, st2: Store)
    requires Extends(st, st1) && Extends(st1, st2)
    ensures Extends(st, st2)
  {
  }

  lemma InStoreGrows(rows: seq<Row>, st: Store, bigger: Store)
    requires InStore(rows, st) && Extends(st, bigger)
    ensures InStore(rows, bigger)
  {
  }

  /** Resizing one grid after the other keeps all storage apart. */
  lemma ResizedSeparate(main: seq<Row>, alt: seq<Row>, sb: seq<Row>, m: seq<Row>, a: seq<Row>, fm: seq<int>, fa: seq<int>,
                        st: Store, st1: Store, s: State, cols: int, rows: int)
    requires Separate(main, alt, sb) && cols >= 1 && rows >= 1
    requires Shows(main, s.main.cells, st) && Shows(alt, s.alt.cells, st) && Shows(sb, RingSlots(s.evicted), st)
    requires Rearranged(main, m, fm, st) && Rearranged(alt, a, fa, st1) && Extends(st, st1)
    requires Shows(m, ResizedCells(s.main.cells, cols, rows), st1)
    ensures Separate(m, a, sb)
  {
    hide Shows, Rearranged, RingSlots, ResizedCells, InStore, Distinct, Disjoint, Extends;
    ShownInStore(main, s.main.cells, st);
    ShownInStore(alt, s.alt.cells, st);
    ShownInStore(sb, RingSlots(s.evicted), st);
    ShownInStore(m, ResizedCells(s.main.cells, cols, rows), st1);
    InStoreGrows(alt, st, st1);
    InStoreGrows(sb, st, st1);
    RearrangedDistinct(main, m, fm, st);
    RearrangedDisjoint(main, m, fm, st, alt);
    RearrangedDisjoint(main, m, fm, st, sb);
    RearrangedDistinct(alt, a, fa, st1);
    RearrangedDisjoint(alt, a, fa, st1, m);
    RearrangedDisjoint(alt, a, fa, st1, sb);
  }

  // ----- scrolling several times -----

  ghost function ScrolledOnce(s: State, record: bool): State
    requires Ok(s)
  {
    SetCells(if record then s.(evicted := s.evicted + [Active(s).cells[s.top]]) else s, ScrolledUp(s, 1))
  }

  ghost function Scrolled(s: State, n: nat, record: bool): (r: State)
    requires Ok(s)
    ensures Ok(r)
  {
    if n == 0 then s
    else
      ScrolledOnceOk(Scrolled(s, n - 1, record), record);
      ScrolledOnce(Scrolled(s, n - 1, record), record)
  }

  lemma ScrolledOnceOk(s: State, record: bool)
    requires Ok(s)
    ensures Ok(ScrolledOnce(s, record))
  {
    hide ScrolledUp;
    ScrolledWidth(s, 1);
  }

  lemma ShiftUpTwice<T>(lines: seq<T>, top: int, bottom: int, f: seq<T>, g: seq<T>)
    requires 0 <= top <= bottom < |lines| && |f| + |g| <= bottom - top + 1
    ensures ShiftUp(ShiftUp(lines, top, bottom, f), top, bottom, g) == ShiftUp(lines, top, bottom, f + g)
  {
    hide ShiftUp;
    forall i | 0 <= i < |lines|
      ensures ShiftUp(ShiftUp(lines, top, bottom, f), top, bottom, g)[i] == ShiftUp(lines, top, bottom, f + g)[i]
    {
      ShiftUpAt(ShiftUp(lines, top, bottom, f), top, bottom, g, i);
      ShiftUpAt(lines, top, bottom, f + g, i);
      if top <= i <= bottom && i + |g| <= bottom {
        ShiftUpAt(lines, top, bottom, f, i + |g|);
      } else {
        ShiftUpAt(lines, top, bottom, f, i);
      }
    }
  }

  lemma ShiftDownTwice<T>(lines: seq<T>, top: int, bottom: int, f: seq<T>, g: seq<T>)
    requires 0 <= top <= bottom < |lines| && |f| + |g| <= bottom - top + 1
    ensures ShiftDown(ShiftDown(lines, top, bottom, f), top, bottom, g) == ShiftDown(lines, top, bottom, g + f)
  {
    hide ShiftDown;
    forall i | 0 <= i < |lines|
      ensures ShiftDown(ShiftDown(lines, top, bottom, f), top, bottom, g)[i] == ShiftDown(lines, top, bottom, g + f)[i]
    {
      ShiftDownAt(ShiftDown(lines, top, bottom, f), top, bottom, g, i);
      ShiftDownAt(lines, top, bottom, g + f, i);
      if top <= i <= bottom && i >= top + |g| {
        ShiftDownAt(lines, top, bottom, f, i - |g|);
      } else {
        ShiftDownAt(lines, top, bottom, f, i);
      }
    }
  }

  /** Scrolling up n times by one line is scrolling by n lines; what is recorded are
      the n top lines in order. */
  lemma {:induction false} ScrolledIs(s: State, n: nat, record: bool)
    requires Ok(s) && n <= s.bottom - s.top + 1
    ensures var lost := if record then Active(s).cells[s.top..s.top + n] else [];
      Scrolled(s, n, record) ==
        SetCells(s.(evicted := s.evicted + lost), ShiftUp(Active(s).cells, s.top, s.bottom, BlankRows(s, n)))
  {
    hide ShiftUp, ScrolledOnce, Ok, BlankRows;
    OkShape(s);
    if n == 0 {
      ScrolledNone(s);
      assert Active(s).cells[s.top..s.top] == [];
      assert s.evicted + [] == s.evicted;
    } else {
      BlankRowsCount(s, n);
      ScrolledIs(s, n - 1, record);
      ScrolledStep(s, n, record);
    }
  }

  lemma ScrolledNone(s: State)
    requires Ok(s)
    ensures |BlankRows(s, 0)| == 0 && ShiftUp(Active(s).cells, s.top, s.bottom, BlankRows(s, 0)) == Active(s).cells
  {
    hide ShiftUp;
    var lines := Active(s).cells;
    forall i | 0 <= i < |lines| ensures ShiftUp(lines, s.top, s.bottom, BlankRows(s, 0))[i] == lines[i] {
      ShiftUpAt(lines, s.top, s.bottom, BlankRows(s, 0), i);
    }
  }

  lemma ScrolledStep(s: State, n: nat, record: bool)
    requires Ok(s) && 0 < n <= s.bottom - s.top + 1
    requires |Active(s).cells| == s.rows && |BlankRows(s, n - 1)| == n - 1 && |BlankRows(s, n)| == n
    requires var lost := if record then Active(s).cells[s.top..s.top + n - 1] else [];
      Scrolled(s, n - 1, record) ==
        SetCells(s.(evicted := s.evicted + lost), ShiftUp(Active(s).cells, s.top, s.bottom, BlankRows(s, n - 1)))
    ensures var lost := if record then Active(s).cells[s.top..s.top + n] else [];
      Scrolled(s, n, record) ==
        SetCells(s.(evicted := s.evicted + lost), ShiftUp(Active(s).cells, s.top, s.bottom, BlankRows(s, n)))
  {
    hide ShiftUp, ScrolledOnce, Ok, BlankRows;
    var lines := Active(s).cells;
    OkShape(s);
    BlankRowsCount(s, n);
    var before := ShiftUp(lines, s.top, s.bottom, BlankRows(s, n - 1));
    OneMoreScroll(s, before, s.evicted + if record then lines[s.top..s.top + n - 1] else [], record);
    ShiftUpTwice(lines, s.top, s.bottom, BlankRows(s, n - 1), BlankRows(s, 1));
    BlankRowsSum(s, n);
    ShiftUpAt(lines, s.top, s.bottom, BlankRows(s, n - 1), s.top);
    SliceSnoc(s.evicted, lines, s.top, n);
  }

  lemma BlankRowsCount(s: State, n: nat)
    ensures |BlankRows(s, n)| == n && (n > 0 ==> |BlankRows(s, n - 1)| == n - 1) && |BlankRows(s, 1)| == 1
  {
  }

  lemma BlankRowsSum(s: State, n: nat)
    requires n > 0
    ensures BlankRows(s, n - 1) + BlankRows(s, 1) == BlankRows(s, n)
    ensures BlankRows(s, 1) + BlankRows(s, n - 1) == BlankRows(s, n)
  {
  }

  lemma SliceSnoc<T>(head: seq<T>, lines: seq<T>, top: nat, n: nat)
    requires 0 < n && top + n <= |lines|
    ensures head + lines[top..top + n] == head + lines[top..top + n - 1] + [lines[top + n - 1]]
    ensures head + [] == head
  {
    assert lines[top..top + n] == lines[top..top + n - 1] + [lines[top + n - 1]];
  }

  lemma OneMoreScroll(s: State, cells: seq<seq<Cell>>, evicted: seq<seq<Cell>>, record: bool)
    requires Ok(s) && |cells| == s.rows && Ok(SetCells(s.(evicted := evicted), cells))
    ensures ScrolledOnce(SetCells(s.(evicted := evicted), cells), record) ==
      SetCells(s.(evicted := if record then evicted + [cells[s.top]] else evicted),
               ShiftUp(cells, s.top, s.bottom, BlankRows(s, 1)))
  {
    hide ShiftUp, Repeat;
  }

  lemma ScrolledFirst(s: State, record: bool)
    requires Ok(s)
    ensures Scrolled(s, 1, record) == ScrolledOnce(s, record)
  {
    hide ScrolledOnce;
    assert Scrolled(s, 0, record) == s;
  }

  lemma ScrolledUpMany(s: State, n: nat)
    requires Ok(s)
    ensures Ok(NoWrap(s))
    ensures Scrolled(NoWrap(s), AtMost(n, s.bottom - s.top + 1), false) == SetCells(NoWrap(s), ScrolledUp(s, n))
  {
    hide ShiftUp, Scrolled;
    NoWrapOk(s);
    ScrolledIs(NoWrap(s), AtMost(n, s.bottom - s.top + 1), false);
    assert s.evicted + [] == s.evicted;
  }

  lemma NoWrapScrolledDown(s: State, n: nat)
    requires Ok(s)
    ensures Ok(NoWrap(s)) && ScrolledDown(NoWrap(s), n) == ScrolledDown(s, n)
  {
  }

  lemma ScrolledDownNone(s: State)
    requires Ok(s)
    ensures SetCells(s, ScrolledDown(s, 0)) == s
  {
    hide ShiftDown;
    var lines := Active(s).cells;
    assert BlankRows(s, 0) == [];
    forall i | 0 <= i < |lines| ensures ScrolledDown(s, 0)[i] == lines[i] {
      ShiftDownAt(lines, s.top, s.bottom, [], i);
    }
    assert ScrolledDown(s, 0) == lines;
  }

  lemma ScrolledDownNext(s: State, n: nat)
    requires Ok(s) && n < s.bottom - s.top + 1
    ensures var t := SetCells(s, ScrolledDown(s, n));
      Ok(t) && SetCells(t, ScrolledDown(t, 1)) == SetCells(s, ScrolledDown(s, n + 1))
  {
    hide ShiftDown;
    ScrolledWidth(s, n);
    ShiftDownTwice(Active(s).cells, s.top, s.bottom, BlankRows(s, n), BlankRows(s, 1));
    assert BlankRows(s, 1) + BlankRows(s, n) == BlankRows(s, n + 1);
  }

  lemma ScrolledDownClosed(s: State, n: nat)
    requires Ok(s)
    ensures ScrolledDown(s, AtMost(n, s.bottom - s.top + 1)) == ScrolledDown(s, n)
  {
  }

  lemma HomeColumn(s: State)
    requires Ok(s)
    ensures Place(s, 0, Active(s).y) == NoWrap(WithActive(s, Active(s).(x := 0)))
  {
  }

  lemma OneUpIsShift(grid: seq<Row>, top: int, bot: int, row: Row, cells: seq<Row>)
    requires 0 <= top <= bot < |grid|
    requires cells == (grid[..top] + grid[top + 1..bot + 1] + grid[bot..])[bot := row]
    ensures cells == ShiftUp(grid, top, bot, [row])
  {
  }

  lemma FreshOne(row: Row, st: Store)
    requires row.store !in st
    ensures FreshRows([row], st)
  {
  }

  lemma BlankShown(row: Row, s: State, st: Store)
    requires row.store in st && st[row.store] == Repeat(s.cols, Blank(s)) && row.len == s.cols >= 0
    ensures Shows([row], BlankRows(s, 1), st)
  {
  }

  lemma EvictedIrrelevant(s: State, t: State)
    requires Ok(s) && t == s.(evicted := t.evicted)
    ensures Ok(t) && ScrolledUp(t, 1) == ScrolledUp(s, 1)
  {
  }

  lemma ShownLength(rows: seq<Row>, content: seq<seq<Cell>>, st: Store)
    requires Shows(rows, content, st)
    ensures |rows| == |content|
  {
  }

  lemma OkShape(s: State)
    requires Ok(s)
    ensures |Active(s).cells| == s.rows && 0 <= s.top <= s.bottom < s.rows
  {
  }

  lemma RingKnown(sb: seq<Row>, evicted: seq<seq<Cell>>)
    requires |sb| == |RingSlots(evicted)|
    ensures |sb| >= SCROLLBACK_CAP ==> RingHead(|evicted|) < |sb|
    ensures |sb| < SCROLLBACK_CAP ==> RingHead(|evicted|) == 0
    ensures RingHead(|evicted| + 1) ==
      if |sb| < SCROLLBACK_CAP then RingHead(|evicted|) else (RingHead(|evicted|) + 1) % SCROLLBACK_CAP
  {
    hide RingSlots;
    RingHeadNext(|evicted|);
  }

  lemma RingHeadNext(n: nat)
    ensures RingHead(n) < SCROLLBACK_CAP
    ensures RingHead(n + 1) == if n < SCROLLBACK_CAP then RingHead(n) else (RingHead(n) + 1) % SCROLLBACK_CAP
  {
  }

  /** Letting the top line go to the ring while a new row enters at the bottom. */
  lemma ScrollOutSeparate(main: seq<Row>, alt: seq<Row>, ring: seq<Row>, head: nat, st: Store, s: State,
                          top: int, bot: int, row: Row, bigger: Store)
    requires Separate(main, alt, ring) && 0 <= top <= bot < |main| && row.store !in st && Extends(st, bigger)
    requires Shows(main, s.main.cells, st) && Shows(alt, s.alt.cells, st) && Shows(ring, RingSlots(s.evicted), st)
    requires head == RingHead(|s.evicted|)
    ensures |ring| >= SCROLLBACK_CAP ==> head < |ring|
    ensures Separate(ShiftUp(main, top, bot, [row]), alt, PushedRing(ring, head, main[top]))
    ensures Shows(PushedRing(ring, head, main[top]), RingSlots(s.evicted + [s.main.cells[top]]), bigger)
    ensures InStore(ring, st)
  {
    hide ShiftUp, Separate, RingSlots, PushedRing, RowShows;
    RingKnown(ring, s.evicted);
    ShownInStore(main, s.main.cells, st);
    ShownInStore(alt, s.alt.cells, st);
    ShownInStore(ring, RingSlots(s.evicted), st);
    PushSeparate(main, alt, ring, head, st, top, bot, row);
    RingPush(ring, s.evicted, main[top], s.main.cells[top], st);
    ShowsGrows(PushedRing(ring, head, main[top]), RingSlots(s.evicted + [s.main.cells[top]]), st, bigger);
  }

  lemma ShiftedWidth(s: State, y: int, n: int)
    requires Ok(s) && 0 <= y <= s.bottom && 0 <= n <= s.bottom - y + 1
    ensures var up := ShiftUp(Active(s).cells, y, s.bottom, BlankRows(s, n));
      |up| == s.rows && forall i :: 0 <= i < |up| ==> |up[i]| == s.cols
    ensures var down := ShiftDown(Active(s).cells, y, s.bottom, BlankRows(s, n));
      |down| == s.rows && forall i :: 0 <= i < |down| ==> |down[i]| == s.cols
  {
    hide ShiftUp, ShiftDown;
    ShiftUpWidth(Active(s).cells, y, s.bottom, BlankRows(s, n), s.cols);
    ShiftDownWidth(Active(s).cells, y, s.bottom, BlankRows(s, n), s.cols);
  }

  lemma NoFreshRows(st: Store)
    ensures FreshRows([], st)
  {
  }

  lemma DownIsShift(grid: seq<Row>, cells: seq<Row>, y: int, bottom: int, fill: seq<Row>, filled: seq<Row>)
    requires 0 <= y <= bottom < |grid| == |cells| && |fill| <= bottom - y + 1
    requires forall i :: y + |fill| <= i <= bottom ==> cells[i] == grid[i - |fill|]
    requires forall i :: 0 <= i < |grid| && (i < y || i > bottom) ==> cells[i] == grid[i]
    requires filled == cells[..y] + fill + cells[y + |fill|..]
    ensures filled == ShiftDown(grid, y, bottom, fill)
  {
    hide ShiftDown;
    forall i | 0 <= i < |grid| ensures filled[i] == ShiftDown(grid, y, bottom, fill)[i] {
      ShiftDownAt(grid, y, bottom, fill, i);
    }
  }

  lemma UpIsShift(grid: seq<Row>, cells: seq<Row>, y: int, bottom: int, fill: seq<Row>, filled: seq<Row>)
    requires 0 <= y <= bottom < |grid| == |cells| && |fill| <= bottom - y + 1
    requires forall i :: y <= i < bottom + 1 - |fill| ==> cells[i] == grid[i + |fill|]
    requires forall i :: 0 <= i < |grid| && (i < y || i > bottom) ==> cells[i] == grid[i]
    requires filled == cells[..bottom - |fill| + 1] + fill + cells[bottom + 1..]
    ensures filled == ShiftUp(grid, y, bottom, fill)
  {
    hide ShiftUp;
    forall i | 0 <= i < |grid| ensures filled[i] == ShiftUp(grid, y, bottom, fill)[i] {
      ShiftUpAt(grid, y, bottom, fill, i);
    }
  }

  lemma NewGridCursor(cols: int, rows: int)
    ensures NewGrid(cols, rows).x == 0 && NewGrid(cols, rows).y == 0
  {
  }

  lemma NothingShown(st: Store)
    ensures Shows([], [], st)
  {
  }

  lemma AppendFresh(cells: seq<Row>, row: Row, st0: Store, st: Store, content: seq<Cell>)
    requires FreshRows(cells, st0) && Shows(cells, Repeat(|cells|, content), st) && Extends(st0, st)
    requires row.store !in st && row.len == |content|
    ensures FreshRows(cells + [row], st0)
    ensures Shows(cells + [row], Repeat(|cells| + 1, content), st[row.store := content])
  {
    WriteElsewhere(cells, Repeat(|cells|, content), st, row.store, content);
  }

  lemma RowInStore(rows: seq<Row>, content: seq<seq<Cell>>, st: Store, y: int)
    requires Shows(rows, content, st) && 0 <= y < |rows|
    ensures rows[y].store in st
  {
  }

  /** The storage of one row of a grid occurs in no other row. */
  lemma StoreElsewhere(grid: seq<Row>, other: seq<Row>, sb: seq<Row>, y: int)
    requires Separate(grid, other, sb) || Separate(other, grid, sb)
    ensures 0 <= y < |grid| ==> Without(other, grid[y].store) && Without(sb, grid[y].store)
    ensures Distinct(grid)
  {
  }
}
