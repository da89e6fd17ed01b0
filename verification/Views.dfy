/** Selections that stay on their text (internal/editor/view.go).

    The first half is about one position and one change: the line/column arithmetic
    of `transformPosition` is the byte-offset map `MapOffset`. The second half is
    about several views over one buffer, first as a value (`Session`), then as
    `View` objects driving a `Buffer` and notifying each other. */
module Views {
  import opened Texts
  import opened Lines
  import opened Utf8
  import opened Buffers
  import Carets

  datatype Selection = Selection(anchor: Position, cursor: Position) {
    predicate IsEmpty() {
      anchor == cursor
    }

    function AsRange(): Range {
      if cursor.LessThan(anchor) then Range(cursor, anchor) else Range(anchor, cursor)
    }
  }

  function Caret(p: Position): Selection {
    Selection(p, p)
  }

  // ----- one position through one change -----

  function TransformPosition(q: Position, ch: Change): Position {
    var (pre, post) := TextsForChange(ch);
    var spliceStart := ch.edit.range.start;
    var spliceEnd := EndOfInsert(spliceStart, pre);
    var newEnd := EndOfInsert(spliceStart, post);
    if q.LessThan(spliceStart) then q
    else if q.LessThan(spliceEnd) then newEnd
    else ShiftPosition(q, spliceEnd, newEnd)
  }

  /** Where byte `off` goes when `removed` bytes at `a` become `added` bytes. */
  function MapOffset(off: nat, a: nat, removed: nat, added: nat): nat {
    if off < a then off
    else if off < a + removed then a + added
    else off - removed + added
  }

  /** Positions follow their bytes: for a change from `t` to `u` at byte `a`, every
      valid position of `t` goes to the valid position of `u` of the mapped offset,
      and outside the splice the text on its far side is the same in both. */
  lemma TransformFollows(ch: Change, t: Text, u: Text, a: nat, off: nat)
    requires DescribesAt(ch, t, u, a) && off <= |t|
    ensures var (pre, post) := TextsForChange(ch); var to := MapOffset(off, a, |pre|, |post|);
      && to <= |u|
      && TransformPosition(PosAt(t, off), ch) == PosAt(u, to)
      && (off < a ==> u[..to] == t[..off])
      && (off >= a + |pre| ==> u[to..] == t[off..])
  {
    hide Splice, PosAt, ShiftPosition, TransformPosition;
    var (pre, post) := TextsForChange(ch);
    SpliceParts(t, u, a, pre, post);
    TransformCases(ch, t, u, a, off);
    if off < a {
      assert t[..off] == t[..a][..off] && u[..off] == u[..a][..off];
      PosAtPrefix(t, u, off);
    } else if off >= a + |pre| {
      SuffixFollows(t, u, a + |pre|, a + |post|, off - a - |pre|);
    }
  }

  /** The three branches of transformPosition, in offsets. */
  lemma TransformCases(ch: Change, t: Text, u: Text, a: nat, off: nat)
    requires DescribesAt(ch, t, u, a) && off <= |t|
    ensures var (pre, post) := TextsForChange(ch);
      && a + |post| <= |u|
      && TransformPosition(PosAt(t, off), ch) ==
         if off < a then PosAt(t, off)
         else if off < a + |pre| then PosAt(u, a + |post|)
         else ShiftPosition(PosAt(t, off), PosAt(t, a + |pre|), PosAt(u, a + |post|))
  {
    hide Splice, PosAt, EndOfInsert, ShiftPosition;
    var (pre, post) := TextsForChange(ch);
    SpliceParts(t, u, a, pre, post);
    PosAtPrefix(t, u, a);
    EndOfSplice(t, a, pre);
    EndOfSplice(u, a, post);
    PosAtOrder(t, off, a);
    PosAtOrder(t, off, a + |pre|);
  }

  lemma EndOfSplice(t: Text, a: nat, w: Text)
    requires a + |w| <= |t| && t[a..a + |w|] == w
    ensures EndOfInsert(PosAt(t, a), w) == PosAt(t, a + |w|)
  {
    EndOfInsertIsAdvance(PosAt(t, a), w);
    PosAtSplit(t, a, a + |w|);
  }

  /** Behind the splice both texts read alike, so positions shift alike. */
  lemma SuffixFollows(t: Text, u: Text, i: nat, j: nat, n: nat)
    requires i <= |t| && j <= |u| && t[i..] == u[j..] && i + n <= |t|
    ensures j + n <= |u| && u[j + n..] == t[i + n..]
    ensures ShiftPosition(PosAt(t, i + n), PosAt(t, i), PosAt(u, j)) == PosAt(u, j + n)
  {
    hide PosAt, ShiftPosition;
    assert |t| - i == |u| - j;
    assert t[i + n..] == t[i..][n..] && u[j + n..] == u[j..][n..];
    var follow := t[i..i + n];
    assert t[i..][..n] == follow && u[j..][..n] == u[j..j + n];
    PosAtSplit(t, i, i + n);
    PosAtSplit(u, j, j + n);
    ShiftReanchors(PosAt(t, i), PosAt(u, j), follow);
  }

  lemma SpliceParts(t: Text, u: Text, a: nat, pre: Text, post: Text)
    requires a + |pre| <= |t| && u == Splice(t, a, a + |pre|, post) && t[a..a + |pre|] == pre
    ensures |u| == |t| - |pre| + |post|
    ensures u[..a] == t[..a] && u[a..a + |post|] == post && u[a + |post|..] == t[a + |pre|..]
  {
  }

  /** The map keeps order, so selections never cross. */
  lemma TransformKeepsOrder(ch: Change, t: Text, u: Text, p: Position, q: Position)
    requires Describes(ch, t, u) && ValidIn(t, p) && ValidIn(t, q) && p.AtMost(q)
    ensures TransformPosition(p, ch).AtMost(TransformPosition(q, ch))
  {
    hide DescribesAt, PosAt, TransformPosition;
    var a: nat :| DescribesAt(ch, t, u, a);
    var i: nat :| i <= |t| && PosAt(t, i) == p;
    var j: nat :| j <= |t| && PosAt(t, j) == q;
    PosAtOrder(t, i, j);
    PosAtOrder(t, j, i);
    TransformFollows(ch, t, u, a, i);
    TransformFollows(ch, t, u, a, j);
    var (pre, post) := TextsForChange(ch);
    PosAtOrder(u, MapOffset(i, a, |pre|, |post|), MapOffset(j, a, |pre|, |post|));
  }

  lemma TransformValid(ch: Change, t: Text, u: Text, p: Position)
    requires Describes(ch, t, u) && ValidIn(t, p)
    ensures ValidIn(u, TransformPosition(p, ch))
  {
    hide DescribesAt, PosAt, TransformPosition;
    var a: nat :| DescribesAt(ch, t, u, a);
    var i: nat :| i <= |t| && PosAt(t, i) == p;
    TransformFollows(ch, t, u, a, i);
  }

  // ----- clamping -----

  function ClampPosition(t: Text, p: Position): Position {
    var count := |LineStarts(t)|;
    var line0 := if p.line < 0 then 0 else p.line;
    var line := if line0 >= count then count - 1 else line0;
    var length := match LineText(t, line) case None => 0 case Some(l) => |l|;
    var col0 := if p.column < 0 then 0 else p.column;
    Position(line, if col0 > length then length else col0)
  }

  /** Clamping always gives a valid position and leaves valid positions alone. */
  lemma ClampExact(t: Text, p: Position)
    ensures ValidIn(t, ClampPosition(t, p))
    ensures ClampPosition(t, p) == p <==> ValidIn(t, p)
  {
    hide LineStarts;
    StartsShape(t);
    OffsetErrors(t, ClampPosition(t, p));
    OffsetErrors(t, p);
  }

  function Apart(a: int, b: int): nat {
    if a < b then b - a else a - b
  }

  /** The clamped position is the nearest valid one: on the nearest line, and there at the
      nearest column. */
  lemma ClampNearest(t: Text, p: Position, q: Position)
    requires ValidIn(t, q)
    ensures var c := ClampPosition(t, p);
      && (q.line != c.line ==> Apart(c.line, p.line) < Apart(q.line, p.line))
      && (q.line == c.line && q.column != c.column ==> Apart(c.column, p.column) < Apart(q.column, p.column))
  {
    hide LineStarts;
    StartsShape(t);
    OffsetErrors(t, ClampPosition(t, p));
    OffsetErrors(t, q);
  }

  // ----- moving the caret -----

  function ClampLine(t: Text, line: int): (r: nat)
    ensures r < |LineStarts(t)|
  {
    StartsShape(t);
    if line < 0 then 0 else if line >= |LineStarts(t)| then |LineStarts(t)| - 1 else line
  }

  /** By lines, keeping the byte column, then by runes. */
  function MoveTarget(t: Text, p: Position, deltaLine: int, deltaColumn: int): Position {
    var target := ClampPosition(t, Position(p.line + deltaLine, p.column));
    match LineText(t, target.line)
    case None => target
    case Some(line) =>
      var snapped := Carets.SnapColumn(line, target.column);
      Position(target.line, if deltaColumn == 0 then snapped else Carets.StepColumn(line, snapped, deltaColumn))
  }

  function MovedBy(t: Text, p: Position, deltaLine: int, deltaColumn: int): Position {
    ClampPosition(t, MoveTarget(t, p, deltaLine, deltaColumn))
  }

  /** The caret lands on the clamped line, at most at its end, whatever its bytes; on
      valid UTF-8 it stands between runes, deltaColumn of them from the last place
      between runes at or left of its old column. */
  lemma MovedByExact(t: Text, p: Position, deltaLine: int, deltaColumn: int)
    ensures var r := MovedBy(t, p, deltaLine, deltaColumn);
      && ValidIn(t, r) && r.line == ClampLine(t, p.line + deltaLine)
      && LineText(t, r.line).Some?
      && var line := LineText(t, r.line).value;
         ValidUtf8(line) ==>
         && 0 <= r.column && Carets.Between(line, r.column)
         && var column := Carets.Limit(p.column, |line|); var snapped := Carets.SnapColumn(line, column);
            && 0 <= snapped <= column && Carets.Between(line, snapped)
            && (forall b: nat :: snapped < b <= column ==> !Carets.Between(line, b))
            && Carets.RuneIndex(line, r.column) == Carets.Limit(Carets.RuneIndex(line, snapped) + deltaColumn, |Runes(line).value|)
  {
    hide LineStarts, Runes, Carets.SnapColumn, Carets.StepColumn, Carets.Between, Carets.RuneIndex;
    StartsShape(t);
    var target := ClampPosition(t, Position(p.line + deltaLine, p.column));
    ClampExact(t, Position(p.line + deltaLine, p.column));
    ClampExact(t, MoveTarget(t, p, deltaLine, deltaColumn));
    var line := LineText(t, target.line).value;
    var snapped := Carets.SnapColumn(line, target.column);
    if ValidUtf8(line) {
      Carets.SnapExact(line, target.column);
      Carets.StepExact(line, snapped, deltaColumn);
      Carets.IndexBound(line, snapped);
    }
  }

  // ----- a selection through a change -----

  predicate Within(t: Text, s: Selection) {
    OffsetOf(t, s.anchor).Offset? && OffsetOf(t, s.cursor).Offset?
  }

  /** onBufferChange: transform both ends, then clamp to the new text. */
  function Follow(u: Text, s: Selection, ch: Change): Selection {
    Selection(ClampPosition(u, TransformPosition(s.anchor, ch)), ClampPosition(u, TransformPosition(s.cursor, ch)))
  }

  /** For a change the buffer announced, the clamp does nothing. */
  lemma FollowValid(ch: Change, t: Text, u: Text, s: Selection)
    requires Describes(ch, t, u) && Within(t, s)
    ensures Follow(u, s, ch) == Selection(TransformPosition(s.anchor, ch), TransformPosition(s.cursor, ch))
    ensures Within(u, Follow(u, s, ch))
  {
    hide ClampPosition, TransformPosition, Describes, OffsetOf;
    OffsetErrors(t, s.anchor);
    OffsetErrors(t, s.cursor);
    TransformValid(ch, t, u, s.anchor);
    TransformValid(ch, t, u, s.cursor);
    ClampExact(u, TransformPosition(s.anchor, ch));
    ClampExact(u, TransformPosition(s.cursor, ch));
    OffsetErrors(u, TransformPosition(s.anchor, ch));
    OffsetErrors(u, TransformPosition(s.cursor, ch));
  }

  // ----- the position before the caret -----

  /** positionBefore: one rune to the left, or the end of the previous line. */
  function PositionBefore(t: Text, p: Position): Option<Position> {
    if p.line == 0 && p.column == 0 then None
    else if p.column > 0 then
      match LineText(t, p.line)
      case Some(line) =>
        if p.column <= |line| then Some(Position(p.line, p.column - LastSize(line[..p.column])))
        else Some(Position(p.line, p.column - 1))
      case None => Some(Position(p.line, p.column - 1))
    else
      match LineText(t, p.line - 1)
      case None => None
      case Some(line) => Some(Position(p.line - 1, |line|))
  }

  /** The byte a caret at `off` deletes backwards: a newline at a line start, else
      the last rune of the line before the caret. */
  function BackOffset(t: Text, off: nat): (r: nat)
    requires 0 < off <= |t|
    ensures r < off
  {
    PosAtNonNegative(t, off);
    var col := PosAt(t, off).column;
    if col == 0 then off - 1 else off - LastSize(t[off - col..off])
  }

  lemma PositionBeforeExact(t: Text, off: nat)
    requires off <= |t|
    ensures PositionBefore(t, PosAt(t, off)) == if off == 0 then None else Some(PosAt(t, BackOffset(t, off)))
  {
    hide LineStarts, LastSize, PosAt;
    var p := PosAt(t, off);
    PosAtOrder(t, 0, off);
    assert PosAt(t, 0) == Origin by { StartOfText(t); }
    PosAtNonNegative(t, off);
    LineIsLast(t, off);
    StartsShape(t);
    var starts := LineStarts(t);
    if off > 0 {
      if p.column > 0 {
        var line := LineText(t, p.line).value;
        assert off <= LineEnd(starts, |t|, p.line) by { OffsetOfPosAt(t, off); }
        assert line[..p.column] == t[starts[p.line]..off];
        LastLineUnique(t, BackOffset(t, off), p.line);
      } else {
        assert p.line > 0;
        LastLineUnique(t, off - 1, p.line - 1);
      }
    }
  }

  /** On valid UTF-8 the bytes removed are exactly the last rune before the caret. */
  lemma BackOffsetIsOneRune(t: Text, off: nat)
    requires 0 < off <= |t|
    requires 0 < PosAt(t, off).column <= off && ValidUtf8(t[off - PosAt(t, off).column..off])
    ensures var lineStart := off - PosAt(t, off).column; var rs := Runes(t[lineStart..off]).value;
      && lineStart <= BackOffset(t, off)
      && rs != [] && Runes(t[lineStart..BackOffset(t, off)]) == Some(rs[..|rs| - 1])
  {
    hide LastSize, PosAt, Runes;
    var lineStart := off - PosAt(t, off).column;
    var before := t[lineStart..off];
    ValidLast(before);
    assert before[..|before| - LastSize(before)] == t[lineStart..BackOffset(t, off)];
  }

  lemma StartOfText(t: Text)
    ensures PosAt(t, 0) == Origin
  {
  }

  // ----- several views on one buffer, as a value -----

  datatype Session = Session(history: History, selections: seq<Selection>)

  ghost predicate SessionOk(s: Session) {
    Faithful(s.history) && forall k :: 0 <= k < |s.selections| ==> Within(s.history.doc.text, s.selections[k])
  }

  /** A command on the buffer. Every view follows the announced change except
      `driver`, which sets its own selection afterwards; `driver` is -1 when the
      command does not come from a view. */
  function Drive(s: Session, driver: int, c: Command): (r: Session)
    ensures |r.selections| == |s.selections|
  {
    var x := Execute(s.history.doc, c);
    var sels := match x.change
      case None => s.selections
      case Some(ch) => Notified(s.selections, driver, x.doc.text, ch);
    Session(Track(s.history, c), sels)
  }

  function Notified(sels: seq<Selection>, driver: int, u: Text, ch: Change): (r: seq<Selection>)
    ensures |r| == |sels|
  {
    seq(|sels|, k requires 0 <= k < |sels| => if k == driver then sels[k] else Follow(u, sels[k], ch))
  }

  function SetCaret(s: Session, i: nat, p: Position): Session
    requires i < |s.selections|
  {
    s.(selections := s.selections[i := Caret(p)])
  }

  /** InsertText: delete the selection if there is one, insert, put the caret behind. */
  function ReplaceSelection(s: Session, i: nat, text: Text): Session
    requires i < |s.selections|
  {
    var target := s.selections[i].AsRange();
    var s1 := if target.Empty() then s else Drive(s, i, Command.Delete(target));
    if text == [] then SetCaret(s1, i, target.start)
    else SetCaret(Drive(s1, i, Command.Insert(target.start, text)), i, EndOfInsert(target.start, text))
  }

  /** The text a range covers. */
  function TextIn(t: Text, r: Range): Text {
    match OffsetOf(t, r.start)
    case Offset(s) =>
      (match OffsetOf(t, r.end)
       case Offset(e) => if s <= e <= |t| then t[s..e] else []
       case _ => [])
    case _ => []
  }

  /** The edit InsertText returns: the insertion if there is one, else the deletion, else
      an empty edit at the origin. */
  function TypedEdit(t: Text, sel: Selection, text: Text): Edit {
    var target := sel.AsRange();
    if text != [] then Edit(Range(target.start, target.start), [], text)
    else if target.Empty() then Edit(Range(Origin, Origin), [], [])
    else Edit(target, TextIn(t, target), [])
  }

  /** The edit Backspace returns. */
  function BackspaceEdit(t: Text, sel: Selection): Edit {
    if !sel.IsEmpty() then TypedEdit(t, sel, [])
    else match PositionBefore(t, sel.cursor)
      case None => Edit(Range(sel.cursor, sel.cursor), [], [])
      case Some(start) => Edit(Range(start, sel.cursor), TextIn(t, Range(start, sel.cursor)), [])
  }

  function DeleteBackwards(s: Session, i: nat): Session
    requires i < |s.selections|
  {
    var sel := s.selections[i];
    if !sel.IsEmpty() then ReplaceSelection(s, i, [])
    else match PositionBefore(s.history.doc.text, sel.cursor)
      case None => s
      case Some(start) => SetCaret(Drive(s, i, Command.Delete(Range(start, sel.cursor))), i, start)
  }

  datatype Action =
    | Type(view: nat, text: Text)
    | Backspace(view: nat)
    | Select(view: nat, selection: Selection)
    | Extend(view: nat, cursor: Position)
    | Move(view: nat, deltaLine: int, deltaColumn: int)
    | Outside(command: Command)

  function Act(s: Session, act: Action): Session {
    match act
    case Type(i, text) => if i < |s.selections| then ReplaceSelection(s, i, text) else s
    case Backspace(i) => if i < |s.selections| then DeleteBackwards(s, i) else s
    case Select(i, sel) =>
      if i < |s.selections| then
        var t := s.history.doc.text;
        s.(selections := s.selections[i := Selection(ClampPosition(t, sel.anchor), ClampPosition(t, sel.cursor))])
      else s
    case Extend(i, p) =>
      if i < |s.selections| then
        s.(selections := s.selections[i := s.selections[i].(cursor := ClampPosition(s.history.doc.text, p))])
      else s
    case Move(i, dl, dc) =>
      if i < |s.selections| then SetCaret(s, i, MovedBy(s.history.doc.text, s.selections[i].cursor, dl, dc)) else s
    case Outside(c) => Drive(s, -1, c)
  }

  function ActAll(s: Session, acts: seq<Action>): Session {
    if acts == [] then s else Act(ActAll(s, acts[..|acts| - 1]), acts[|acts| - 1])
  }

  /** What a driven command leaves valid: everybody but the driver. */
  lemma DriveKeeps(s: Session, driver: int, c: Command)
    requires SessionOk(s)
    ensures var r := Drive(s, driver, c);
      && Faithful(r.history)
      && forall k :: 0 <= k < |r.selections| && k != driver ==> Within(r.history.doc.text, r.selections[k])
  {
    hide Faithful, Follow, Within, Describes, Execute, Consistent;
    TrackFaithful(s.history, c);
    FaithfulConsistent(s.history);
    ExecuteKeeps(s.history.doc, s.history.texts[0], c);
    var x := Execute(s.history.doc, c);
    if x.change.Some? {
      forall k | 0 <= k < |s.selections| ensures Within(x.doc.text, Follow(x.doc.text, s.selections[k], x.change.value)) {
        FollowValid(x.change.value, s.history.doc.text, x.doc.text, s.selections[k]);
      }
    }
  }

  /** As `DriveKeeps`, when only the others are known to be valid before. */
  lemma DriveKeepsOthers(s: Session, driver: nat, c: Command)
    requires Faithful(s.history) && driver < |s.selections|
    requires forall k :: 0 <= k < |s.selections| && k != driver ==> Within(s.history.doc.text, s.selections[k])
    ensures var r := Drive(s, driver, c);
      && Faithful(r.history)
      && forall k :: 0 <= k < |r.selections| && k != driver ==> Within(r.history.doc.text, r.selections[k])
  {
    hide Faithful, Follow, Within, Describes, Execute, Consistent;
    TrackFaithful(s.history, c);
    FaithfulConsistent(s.history);
    ExecuteKeeps(s.history.doc, s.history.texts[0], c);
    var x := Execute(s.history.doc, c);
    if x.change.Some? {
      forall k | 0 <= k < |s.selections| && k != driver
        ensures Within(x.doc.text, Follow(x.doc.text, s.selections[k], x.change.value))
      {
        FollowValid(x.change.value, s.history.doc.text, x.doc.text, s.selections[k]);
      }
    }
  }

  /** The offsets of a valid selection, in order. */
  lemma SelectionBounds(t: Text, sel: Selection) returns (s: nat, e: nat)
    requires Within(t, sel)
    ensures s <= e <= |t| && sel.AsRange() == Range(PosAt(t, s), PosAt(t, e))
    ensures sel.AsRange().Empty() <==> s == e
    ensures sel.AsRange().start.AtMost(sel.AsRange().end)
  {
    hide OffsetOf;
    var i, j := OffsetOf(t, sel.anchor).off, OffsetOf(t, sel.cursor).off;
    OffsetExact(t, sel.anchor, i);
    OffsetExact(t, sel.cursor, j);
    PosAtOrder(t, i, j);
    PosAtOrder(t, j, i);
    if j < i { s, e := j, i; } else { s, e := i, j; }
  }

  /** Typing replaces exactly the selected bytes and leaves the caret behind them. */
  lemma TypeReplaces(s: Session, i: nat, text: Text, from: nat, to: nat)
    requires SessionOk(s) && i < |s.selections|
    requires from <= to <= |s.history.doc.text|
    requires s.selections[i].AsRange() == Range(PosAt(s.history.doc.text, from), PosAt(s.history.doc.text, to))
    ensures var r := ReplaceSelection(s, i, text);
      && r.history.doc.text == Splice(s.history.doc.text, from, to, text)
      && r.selections[i] == Caret(PosAt(r.history.doc.text, from + |text|))
  {
    hide Faithful, Within, PosAt, EndOfInsert, Notified, InsertInto, DeleteFrom;
    var d := s.history.doc;
    PosAtOrder(d.text, from, to);
    var target := s.selections[i].AsRange();
    var s1 := if target.Empty() then s else Drive(s, i, Command.Delete(target));
    if from < to {
      DeleteBetween(d, from, to);
    }
    assert s1.history.doc.text == d.text[..from] + d.text[to..];
    assert s1.history.doc.text[..from] == d.text[..from];
    PosAtPrefix(d.text, s1.history.doc.text, from);
    if text != [] {
      InsertAtOffset(s1.history.doc, from, text);
    }
  }

  /** A selection whose ends are at byte offsets i and j. */
  ghost predicate SelectedAt(t: Text, sel: Selection, i: nat, j: nat) {
    i <= |t| && j <= |t| && sel == Selection(PosAt(t, i), PosAt(t, j))
  }

  /** Every view but the driver follows a change byte by byte. */
  lemma DriveMoves(s: Session, driver: int, c: Command, a: nat, k: nat, i: nat, j: nat)
    requires k < |s.selections| && k != driver && SelectedAt(s.history.doc.text, s.selections[k], i, j)
    requires var x := Execute(s.history.doc, c);
      x.change.Some? && DescribesAt(x.change.value, s.history.doc.text, x.doc.text, a)
    ensures var x := Execute(s.history.doc, c); var (pre, post) := TextsForChange(x.change.value);
      SelectedAt(x.doc.text, Drive(s, driver, c).selections[k],
        MapOffset(i, a, |pre|, |post|), MapOffset(j, a, |pre|, |post|))
  {
    hide Execute, DescribesAt, PosAt, TextsForChange, TransformPosition, Track, Follow;
    var t, x := s.history.doc.text, Execute(s.history.doc, c);
    OffsetOfPosAt(t, i);
    OffsetOfPosAt(t, j);
    FollowValid(x.change.value, t, x.doc.text, s.selections[k]) by { assert Describes(x.change.value, t, x.doc.text); }
    TransformFollows(x.change.value, t, x.doc.text, a, i);
    TransformFollows(x.change.value, t, x.doc.text, a, j);
  }

  lemma DeleteDescribed(d: Document, from: nat, to: nat)
    requires from < to <= |d.text|
    ensures var x := DeleteFrom(d, Range(PosAt(d.text, from), PosAt(d.text, to)));
      && x.change.Some? && DescribesAt(x.change.value, d.text, x.doc.text, from)
      && TextsForChange(x.change.value) == (d.text[from..to], [])
  {
    hide OffsetOf, PosAt;
    PosAtOrder(d.text, from, to);
    OffsetOfPosAt(d.text, from);
    OffsetOfPosAt(d.text, to);
  }

  lemma InsertDescribed(d: Document, at: nat, text: Text)
    requires at <= |d.text| && text != []
    ensures var x := InsertInto(d, PosAt(d.text, at), text);
      && x.change.Some? && DescribesAt(x.change.value, d.text, x.doc.text, at)
      && TextsForChange(x.change.value) == ([], text)
  {
    hide OffsetOf, PosAt;
    OffsetOfPosAt(d.text, at);
  }

  /** Typing moves the other views as one replacement of the selected bytes would,
      although it is a deletion and an insertion: ends in front stay, ends inside go
      behind the new text, ends behind shift. */
  lemma TypeMovesOthers(s: Session, me: nat, text: Text, from: nat, to: nat, k: nat, i: nat, j: nat)
    requires me < |s.selections| && k < |s.selections| && k != me && from <= to <= |s.history.doc.text|
    requires s.selections[me].AsRange() == Range(PosAt(s.history.doc.text, from), PosAt(s.history.doc.text, to))
    requires SelectedAt(s.history.doc.text, s.selections[k], i, j)
    ensures var r := ReplaceSelection(s, me, text);
      SelectedAt(r.history.doc.text, r.selections[k],
        if i < from then i else if i < to then from + |text| else i - (to - from) + |text|,
        if j < from then j else if j < to then from + |text| else j - (to - from) + |text|)
  {
    hide PosAt, EndOfInsert, InsertInto, DeleteFrom, DescribesAt, TextsForChange, SelectedAt, Drive;
    var d := s.history.doc;
    PosAtOrder(d.text, from, to);
    var target := s.selections[me].AsRange();
    var s1 := if target.Empty() then s else Drive(s, me, Command.Delete(target));
    var i1 := MapOffset(i, from, to - from, 0);
    var j1 := MapOffset(j, from, to - from, 0);
    DriveText(s, me, Command.Delete(target));
    if from < to {
      DeleteDescribed(d, from, to);
      DeleteBetween(d, from, to);
      DriveMoves(s, me, Command.Delete(target), from, k, i, j);
    }
    assert s1.history.doc.text == d.text[..from] + d.text[to..];
    assert SelectedAt(s1.history.doc.text, s1.selections[k], i1, j1);
    if text != [] {
      assert s1.history.doc.text[..from] == d.text[..from];
      PosAtPrefix(d.text, s1.history.doc.text, from);
      DriveText(s1, me, Command.Insert(target.start, text));
      InsertDescribed(s1.history.doc, from, text);
      DriveMoves(s1, me, Command.Insert(target.start, text), from, k, i1, j1);
    }
  }

  lemma DriveText(s: Session, driver: int, c: Command)
    ensures Drive(s, driver, c).history.doc == Execute(s.history.doc, c).doc
  {
  }

  /** With a selection, backspace removes exactly the selected bytes. */
  lemma BackspaceSelected(s: Session, i: nat, from: nat, to: nat)
    requires SessionOk(s) && i < |s.selections| && from < to <= |s.history.doc.text|
    requires s.selections[i].AsRange() == Range(PosAt(s.history.doc.text, from), PosAt(s.history.doc.text, to))
    ensures var r := DeleteBackwards(s, i);
      && r.history.doc.text == s.history.doc.text[..from] + s.history.doc.text[to..]
      && r.selections[i] == Caret(PosAt(r.history.doc.text, from))
  {
    hide PosAt, ReplaceSelection;
    PosAtOrder(s.history.doc.text, from, to);
    TypeReplaces(s, i, [], from, to);
  }

  lemma ReplaceKeeps(s: Session, i: nat, text: Text)
    requires SessionOk(s) && i < |s.selections|
    ensures SessionOk(ReplaceSelection(s, i, text))
  {
    hide Faithful, Within, PosAt, Notified, Track, Execute, EndOfInsert;
    var from, to := SelectionBounds(s.history.doc.text, s.selections[i]);
    TypeReplaces(s, i, text, from, to);
    var target := s.selections[i].AsRange();
    var s1 := if target.Empty() then s else Drive(s, i, Command.Delete(target));
    DriveKeeps(s, i, Command.Delete(target));
    DriveKeepsOthers(s1, i, Command.Insert(target.start, text));
    var r := ReplaceSelection(s, i, text);
    CaretWithin(r.history.doc.text, from + |text|);
  }

  lemma CaretWithin(t: Text, off: nat)
    ensures off <= |t| ==> Within(t, Caret(PosAt(t, off)))
  {
    if off <= |t| { OffsetOfPosAt(t, off); }
  }

  /** Backspace at a caret removes from the previous rune boundary (or newline) up to
      the caret and moves the caret there; at the start of the text it does nothing. */
  lemma BackspaceRemoves(s: Session, i: nat, off: nat)
    requires SessionOk(s) && i < |s.selections| && off <= |s.history.doc.text|
    requires s.selections[i] == Caret(PosAt(s.history.doc.text, off))
    ensures var r := DeleteBackwards(s, i); var t := s.history.doc.text;
      && (off == 0 ==> r == s)
      && (off > 0 ==> r.history.doc.text == t[..BackOffset(t, off)] + t[off..])
      && (off > 0 ==> r.selections[i] == Caret(PosAt(r.history.doc.text, BackOffset(t, off))))
  {
    hide Faithful, Within, PosAt, Notified, PositionBefore, DeleteFrom;
    PositionBeforeExact(s.history.doc.text, off);
    if off > 0 {
      DeleteBetween(s.history.doc, BackOffset(s.history.doc.text, off), off);
    }
  }

  /** And the other views follow. */
  lemma BackspaceMovesOthers(s: Session, me: nat, off: nat, k: nat, i: nat, j: nat)
    requires me < |s.selections| && k < |s.selections| && k != me && 0 < off <= |s.history.doc.text|
    requires s.selections[me] == Caret(PosAt(s.history.doc.text, off))
    requires SelectedAt(s.history.doc.text, s.selections[k], i, j)
    ensures var r := DeleteBackwards(s, me); var back := BackOffset(s.history.doc.text, off);
      SelectedAt(r.history.doc.text, r.selections[k],
        if i < back then i else if i < off then back else i - (off - back),
        if j < back then j else if j < off then back else j - (off - back))
  {
    hide PosAt, PositionBefore, DeleteFrom, BackOffset, DescribesAt, TextsForChange, SelectedAt, Drive;
    var t := s.history.doc.text;
    var back := BackOffset(t, off);
    PositionBeforeExact(t, off);
    DeleteDescribed(s.history.doc, back, off);
    var c := Command.Delete(Range(PosAt(t, back), PosAt(t, off)));
    DriveText(s, me, c);
    DriveMoves(s, me, c, back, k, i, j);
  }

  /** The edits that typing and backspacing return, in bytes. */
  lemma ReturnedEdits(t: Text, sel: Selection, text: Text, from: nat, to: nat)
    requires from <= to <= |t| && sel.AsRange() == Range(PosAt(t, from), PosAt(t, to))
    ensures TypedEdit(t, sel, text) ==
      if text != [] then Edit(Range(PosAt(t, from), PosAt(t, from)), [], text)
      else if from < to then Edit(Range(PosAt(t, from), PosAt(t, to)), t[from..to], [])
      else Edit(Range(Position(0, 0), Position(0, 0)), [], [])
    ensures BackspaceEdit(t, sel) ==
      if from < to then Edit(Range(PosAt(t, from), PosAt(t, to)), t[from..to], [])
      else if from > 0 then
        Edit(Range(PosAt(t, BackOffset(t, from)), PosAt(t, from)), t[BackOffset(t, from)..from], [])
      else Edit(Range(PosAt(t, 0), PosAt(t, 0)), [], [])
  {
    hide PosAt, OffsetOf, PositionBefore, BackOffset;
    PosAtOrder(t, from, to);
    OffsetOfPosAt(t, from);
    OffsetOfPosAt(t, to);
    PositionBeforeExact(t, from);
    if from > 0 {
      OffsetOfPosAt(t, BackOffset(t, from));
    }
  }

  lemma BackspaceKeeps(s: Session, i: nat)
    requires SessionOk(s) && i < |s.selections|
    ensures SessionOk(DeleteBackwards(s, i))
  {
    hide Faithful, Within, PosAt, Drive, PositionBefore, ReplaceSelection, BackOffset;
    var sel := s.selections[i];
    var t := s.history.doc.text;
    if !sel.IsEmpty() {
      ReplaceKeeps(s, i, []);
    } else {
      var off, _ := SelectionBounds(t, sel);
      BackspaceRemoves(s, i, off);
      PositionBeforeExact(t, off);
      if off > 0 {
        var start := PosAt(t, BackOffset(t, off));
        DriveKeeps(s, i, Command.Delete(Range(start, sel.cursor)));
        CaretWithin(DeleteBackwards(s, i).history.doc.text, BackOffset(t, off));
      }
    }
  }

  lemma ClampWithin(t: Text, p: Position)
    ensures OffsetOf(t, ClampPosition(t, p)).Offset?
  {
    ClampExact(t, p);
    OffsetErrors(t, ClampPosition(t, p));
  }

  lemma ActKeeps(s: Session, act: Action)
    requires SessionOk(s)
    ensures SessionOk(Act(s, act))
    ensures |Act(s, act).selections| == |s.selections|
  {
    hide Faithful, ReplaceSelection, DeleteBackwards, OffsetOf, ClampPosition, Drive, MoveTarget;
    match act
    case Type(i, text) => if i < |s.selections| { ReplaceKeeps(s, i, text); ReplaceCount(s, i, text); }
    case Backspace(i) => if i < |s.selections| { BackspaceKeeps(s, i); BackspaceCount(s, i); }
    case Select(i, sel) =>
      ClampWithin(s.history.doc.text, sel.anchor);
      ClampWithin(s.history.doc.text, sel.cursor);
    case Extend(i, p) => ClampWithin(s.history.doc.text, p);
    case Move(i, dl, dc) =>
      if i < |s.selections| { ClampWithin(s.history.doc.text, MoveTarget(s.history.doc.text, s.selections[i].cursor, dl, dc)); }
    case Outside(c) => DriveKeeps(s, -1, c);
  }

  lemma ReplaceCount(s: Session, i: nat, text: Text)
    requires i < |s.selections|
    ensures |ReplaceSelection(s, i, text).selections| == |s.selections|
  {
  }

  lemma BackspaceCount(s: Session, i: nat)
    requires i < |s.selections|
    ensures |DeleteBackwards(s, i).selections| == |s.selections|
  {
  }

  /** Over every run of typing, backspacing, selecting, moving, undo, redo and edits from
      elsewhere, by any of several views, every endpoint of every view is valid. */
  lemma {:induction false} SelectionsStayValid(s: Session, acts: seq<Action>)
    requires SessionOk(s)
    ensures SessionOk(ActAll(s, acts))
  {
    if acts != [] {
      SelectionsStayValid(s, acts[..|acts| - 1]);
      ActKeeps(ActAll(s, acts[..|acts| - 1]), acts[|acts| - 1]);
    }
  }

  // ----- the objects -----

  method Clamp(buf: Buffer, p: Position) returns (r: Position)
    requires buf.Valid()
    ensures r == ClampPosition(buf.data, p)
  {
    hide Faithful, LineStarts;
    StartsCount(buf.data);
    var lineCount := buf.Lines();
    var line := p.line;
    if line < 0 {
      line := 0;
    }
    if line >= lineCount {
      line := lineCount - 1;
    }
    var text := buf.TextOfLine(line);
    var length := match text case None => 0 case Some(l) => |l|;
    var col := p.column;
    if col < 0 {
      col := 0;
    }
    if col > length {
      col := length;
    }
    return Position(line, col);
  }

  class View {
    const buf: Buffer
    var selection: Selection
    var selfMutating: nat

    constructor (buf: Buffer)
      ensures this.buf == buf && selection == Caret(Origin) && selfMutating == 0
    {
      this.buf := buf;
      selection := Caret(Origin);
      selfMutating := 0;
    }

    /** The Buffer.Observe callback. */
    method OnBufferChange(ch: Change)
      requires buf.Valid()
      modifies this`selection
      ensures selection == if selfMutating > 0 then old(selection) else Follow(buf.data, old(selection), ch)
    {
      if selfMutating > 0 {
        return;
      }
      var anchor := Clamp(buf, TransformPosition(selection.anchor, ch));
      var cursor := Clamp(buf, TransformPosition(selection.cursor, ch));
      selection := Selection(anchor, cursor);
    }

    method SetSelection(sel: Selection)
      requires buf.Valid()
      modifies this`selection
      ensures selection == Selection(ClampPosition(buf.data, sel.anchor), ClampPosition(buf.data, sel.cursor))
    {
      var anchor := Clamp(buf, sel.anchor);
      var cursor := Clamp(buf, sel.cursor);
      selection := Selection(anchor, cursor);
    }

    method MoveCursorTo(p: Position)
      requires buf.Valid()
      modifies this`selection
      ensures selection == old(selection).(cursor := ClampPosition(buf.data, p))
    {
      var cursor := Clamp(buf, p);
      selection := Selection(selection.anchor, cursor);
    }

    method MoveBy(deltaLine: int, deltaColumn: int)
      requires buf.Valid()
      modifies this`selection
      ensures selection == Caret(MovedBy(buf.data, old(selection).cursor, deltaLine, deltaColumn))
    {
      hide LineStarts, Faithful;
      var cursor := selection.cursor;
      var target := Clamp(buf, Position(cursor.line + deltaLine, cursor.column));
      var text := buf.TextOfLine(target.line);
      if text.Some? {
        var column := Carets.SnapToRuneStart(text.value, target.column);
        if deltaColumn != 0 {
          column := Carets.StepRunes(text.value, column, deltaColumn);
        }
        target := Position(target.line, column);
      }
      target := Clamp(buf, target);
      selection := Caret(target);
    }

    /** InsertText on a buffer observed by `views`, of which this is number `me`. */
    method InsertText(text: Text, views: seq<View>, ghost me: nat, ghost sels: seq<Selection>) returns (r: Outcome)
      requires buf.Valid() && me < |views| && views[me] == this
      requires Observe(views, buf, sels, -1) && SessionOk(Session(buf.history, sels))
      modifies buf, views
      ensures buf.Valid()
      ensures var next := ReplaceSelection(Session(old(buf.history), sels), me, text);
        buf.history == next.history && Observe(views, buf, next.selections, -1)
      ensures r == Applied(TypedEdit(old(buf.data), old(selection), text))
    {
      hide Faithful, Within, LineStarts, PosAt, EndOfInsert, Notified, DeleteFrom, InsertInto, TextIn;
      ghost var from, to := SelectionBounds(buf.data, selection);
      TypeSucceeds(Session(buf.history, sels), me, text, from, to);
      var target := selection.AsRange();
      r := Applied(Edit(Range(Origin, Origin), [], []));
      selfMutating := selfMutating + 1;
      ghost var s1 := Session(buf.history, sels);
      if !target.Empty() {
        s1 := Drive(s1, me, Command.Delete(target));
        r := DriveDelete(target, views, me, sels);
      }
      if text == [] {
        selection := Caret(target.start);
      } else {
        r := DriveInsert(target.start, text, views, me, s1.selections);
        selection := Caret(EndOfInsert(target.start, text));
      }
      selfMutating := selfMutating - 1;
    }

    method DriveDelete(range: Range, views: seq<View>, ghost me: nat, ghost sels: seq<Selection>) returns (r: Outcome)
      requires buf.Valid() && Observe(views, buf, sels, me)
      modifies buf, views`selection
      ensures buf.Valid() && r == DeleteFrom(old(buf.history.doc), range).outcome
      ensures var next := Drive(Session(old(buf.history), sels), me, Command.Delete(range));
        buf.history == next.history && Observe(views, buf, next.selections, me)
    {
      hide Faithful, LineStarts, Notified, DeleteFrom;
      var ch;
      r, ch := buf.Delete(range);
      NotifyViews(views, buf, ch, me, sels);
    }

    method DriveInsert(pos: Position, text: Text, views: seq<View>, ghost me: nat, ghost sels: seq<Selection>) returns (r: Outcome)
      requires buf.Valid() && Observe(views, buf, sels, me)
      modifies buf, views`selection
      ensures buf.Valid() && r == InsertInto(old(buf.history.doc), pos, text).outcome
      ensures var next := Drive(Session(old(buf.history), sels), me, Command.Insert(pos, text));
        buf.history == next.history && Observe(views, buf, next.selections, me)
    {
      hide Faithful, LineStarts, Notified, InsertInto;
      var ch;
      r, ch := buf.Insert(pos, text);
      NotifyViews(views, buf, ch, me, sels);
    }

    /** Backspace on a buffer observed by `views`, of which this is number `me`. */
    method Backspace(views: seq<View>, ghost me: nat, ghost sels: seq<Selection>) returns (r: Outcome)
      requires buf.Valid() && me < |views| && views[me] == this
      requires Observe(views, buf, sels, -1) && SessionOk(Session(buf.history, sels))
      modifies buf, views
      ensures buf.Valid()
      ensures var next := DeleteBackwards(Session(old(buf.history), sels), me);
        buf.history == next.history && Observe(views, buf, next.selections, -1)
      ensures r == Applied(BackspaceEdit(old(buf.data), old(selection)))
    {
      hide Faithful, Within, LineStarts, PosAt, EndOfInsert, Follow, Describes, DeleteFrom, BackOffset, ReplaceSelection;
      hide TextIn, TypedEdit;
      if !selection.IsEmpty() {
        r := InsertText([], views, me, sels);
        return;
      }
      var before := FindBefore(selection.cursor);
      match before
      case None =>
        r := Applied(Edit(Range(selection.cursor, selection.cursor), [], []));
      case Some(start) =>
        ghost var off, _ := SelectionBounds(buf.data, selection);
        PositionBeforeExact(buf.data, off);
        DeleteBetween(buf.history.doc, BackOffset(buf.data, off), off);
        DeleteOutcome(buf.history.doc, Range(start, selection.cursor));
        selfMutating := selfMutating + 1;
        r := DriveDelete(Range(start, selection.cursor), views, me, sels);
        selection := Caret(start);
        selfMutating := selfMutating - 1;
    }

    method FindBefore(p: Position) returns (r: Option<Position>)
      requires buf.Valid()
      ensures r == PositionBefore(buf.data, p)
    {
      hide Faithful, LineStarts;
      if p.line == 0 && p.column == 0 {
        return None;
      }
      if p.column > 0 {
        var text := buf.TextOfLine(p.line);
        if text.Some? && p.column <= |text.value| {
          return Some(Position(p.line, p.column - LastSize(text.value[..p.column])));
        }
        return Some(Position(p.line, p.column - 1));
      }
      var prev := buf.TextOfLine(p.line - 1);
      match prev
      case None => return None;
      case Some(line) => return Some(Position(p.line - 1, |line|));
    }
  }

  /** `views` are the distinct views on `buf`, with these selections; only number
      `busy` is inside one of its own mutations. */
  ghost predicate Observe(views: seq<View>, buf: Buffer, sels: seq<Selection>, busy: int)
    reads views
  {
    && |views| == |sels|
    && (forall j, k :: 0 <= j < k < |views| ==> views[j] != views[k])
    && (forall k :: 0 <= k < |views| ==>
          views[k].buf == buf && views[k].selection == sels[k] && views[k].selfMutating == if k == busy then 1 else 0)
  }

  lemma DeleteOutcome(d: Document, range: Range)
    requires DeleteFrom(d, range).change.Some? && range.start.AtMost(range.end)
    ensures DeleteFrom(d, range).outcome == Applied(Edit(range, TextIn(d.text, range), []))
  {
    hide OffsetOf;
    DeleteBounds(d.text, range, OffsetOf(d.text, range.start).off, OffsetOf(d.text, range.end).off);
  }

  lemma InsertOutcome(d: Document, pos: Position, text: Text)
    requires text != [] && InsertInto(d, pos, text).change.Some?
    ensures InsertInto(d, pos, text).outcome == Applied(Edit(Range(pos, pos), [], text))
  {
    hide OffsetOf;
  }

  lemma TypeSucceeds(s: Session, i: nat, text: Text, from: nat, to: nat)
    requires SessionOk(s) && i < |s.selections|
    requires from <= to <= |s.history.doc.text|
    requires s.selections[i].AsRange() == Range(PosAt(s.history.doc.text, from), PosAt(s.history.doc.text, to))
    ensures var target := s.selections[i].AsRange();
      var s1 := if target.Empty() then s else Drive(s, i, Command.Delete(target));
      && (!target.Empty() ==>
            DeleteFrom(s.history.doc, target).outcome == Applied(Edit(target, TextIn(s.history.doc.text, target), [])))
      && (text != [] ==>
            InsertInto(s1.history.doc, target.start, text).outcome ==
            Applied(Edit(Range(target.start, target.start), [], text)))
  {
    hide Faithful, Within, PosAt, EndOfInsert, Notified, TextIn, InsertInto;
    var d := s.history.doc;
    PosAtOrder(d.text, from, to);
    var target := s.selections[i].AsRange();
    var s1 := if target.Empty() then s else Drive(s, i, Command.Delete(target));
    if from < to {
      DeleteBetween(d, from, to);
      DeleteOutcome(d, target);
    }
    assert s1.history.doc.text[..from] == d.text[..from];
    PosAtPrefix(d.text, s1.history.doc.text, from);
    if text != [] {
      InsertAtOffset(s1.history.doc, from, text);
      InsertOutcome(s1.history.doc, target.start, text);
    }
  }

  /** The buffer's fan-out of one change to its observers. */
  method NotifyViews(views: seq<View>, buf: Buffer, ch: Option<Change>, ghost busy: int, ghost sels: seq<Selection>)
    requires buf.Valid() && Observe(views, buf, sels, busy)
    modifies views`selection
    ensures Observe(views, buf, if ch.None? then sels else Notified(sels, busy, buf.data, ch.value), busy)
  {
    hide Faithful, Follow, LineStarts;
    if ch.None? {
      return;
    }
    var i := 0;
    while i < |views|
      invariant 0 <= i <= |views|
      invariant forall k :: 0 <= k < i && k != busy ==> views[k].selection == Follow(buf.data, sels[k], ch.value)
      invariant forall k :: 0 <= k < |views| && (k >= i || k == busy) ==> views[k].selection == sels[k]
    {
      views[i].OnBufferChange(ch.value);
      i := i + 1;
    }
  }
}
