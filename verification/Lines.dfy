/** The four line models of the source and the one they all compute.

    `LineStarts` is the cache of internal/editor/buffer.go; `OffsetOf` is its
    position-to-offset conversion. `lineAt` (internal/lsp/position.go),
    `byteOffsetInText` (internal/lsp/editor_bridge.go) and `snapshotPosition`
    (internal/editor/search.go) are loops of their own, proved against these. */
module Lines {
  import opened Texts

  datatype OffsetResult = Offset(off: nat) | LineOutOfBounds | ColumnOutOfBounds

  function LineStarts(t: Text): seq<nat> {
    if t == [] then [0]
    else LineStarts(t[..|t| - 1]) + (if t[|t| - 1] == NL then [|t|] else [])
  }

  function LineEnd(starts: seq<nat>, length: nat, line: nat): int
    requires line < |starts|
  {
    if line + 1 < |starts| then starts[line + 1] - 1 else length
  }

  /** byteOffsetLocked over any cache. */
  function OffsetIn(starts: seq<nat>, length: nat, p: Position): OffsetResult {
    if p.line < 0 || p.line >= |starts| then LineOutOfBounds
    else
      var lineLength := LineEnd(starts, length, p.line) - starts[p.line];
      if p.column < 0 || p.column > lineLength then ColumnOutOfBounds
      else Offset(starts[p.line] + p.column)
  }

  function OffsetOf(t: Text, p: Position): OffsetResult {
    OffsetIn(LineStarts(t), |t|, p)
  }

  // ----- the cache describes the text -----

  lemma {:induction false} StartsCount(t: Text)
    ensures |LineStarts(t)| == CountNL(t) + 1 == PosAt(t, |t|).line + 1
    ensures LineStarts(t)[0] == 0
    ensures LineStarts(t)[CountNL(t)] + PosAt(t, |t|).column == |t|
  {
    assert t[..|t|] == t;
    if t != [] {
      var u := t[..|t| - 1];
      assert u[..|u|] == u;
      StartsCount(u);
    }
  }

  lemma {:induction false} StartsShape(t: Text)
    ensures |LineStarts(t)| > 0 && LineStarts(t)[0] == 0
    ensures forall j, k :: 0 <= j < k < |LineStarts(t)| ==> LineStarts(t)[j] < LineStarts(t)[k]
    ensures forall k :: 0 <= k < |LineStarts(t)| ==> LineStarts(t)[k] <= |t|
    ensures forall k :: 0 < k < |LineStarts(t)| ==> t[LineStarts(t)[k] - 1] == NL
  {
    if t != [] {
      var u := t[..|t| - 1];
      StartsShape(u);
      var rest := if t[|u|] == NL then [|t|] else [];
      assert LineStarts(t) == LineStarts(u) + rest;
    }
  }

  lemma {:induction false} StartsPrefix(t: Text, off: nat)
    requires off <= |t|
    ensures LineStarts(t[..off]) <= LineStarts(t)
    ensures forall k :: |LineStarts(t[..off])| <= k < |LineStarts(t)| ==> LineStarts(t)[k] > off
  {
    if off < |t| {
      var u := t[..|t| - 1];
      assert u[..off] == t[..off];
      StartsPrefix(u, off);
    } else {
      assert t[..off] == t;
    }
  }

  /** The line of an offset is the last one starting at or before it, and the
      column is the distance from that start. */
  lemma LineIsLast(t: Text, off: nat)
    requires off <= |t|
    ensures var p := PosAt(t, off);
      0 <= p.line < |LineStarts(t)| && p.column >= 0
      && LineStarts(t)[p.line] + p.column == off
      && forall k :: p.line < k < |LineStarts(t)| ==> LineStarts(t)[k] > off
  {
    var u := t[..off];
    assert u[..|u|] == u;
    StartsCount(u);
    StartsPrefix(t, off);
    PosAtNonNegative(t, off);
  }

  /** Any line with that property is the line of the offset. */
  lemma LastLineUnique(t: Text, off: nat, line: nat)
    requires off <= |t| && line < |LineStarts(t)|
    requires LineStarts(t)[line] <= off
    requires line + 1 < |LineStarts(t)| ==> LineStarts(t)[line + 1] > off
    ensures PosAt(t, off) == Position(line, off - LineStarts(t)[line])
  {
    LineIsLast(t, off);
    StartsShape(t);
  }

  /** Offsets 0..length and valid positions correspond one to one: a position
      converts to an offset exactly when that offset has the position. */
  lemma OffsetExact(t: Text, p: Position, off: nat)
    ensures OffsetOf(t, p) == Offset(off) <==> off <= |t| && PosAt(t, off) == p
  {
    StartsShape(t);
    if OffsetOf(t, p) == Offset(off) {
      LastLineUnique(t, off, p.line);
    }
    if off <= |t| && PosAt(t, off) == p {
      LineIsLast(t, off);
    }
  }

  /** Conversion errors mean exactly that no offset has the position, and the line
      error takes precedence. */
  lemma OffsetErrors(t: Text, p: Position)
    ensures OffsetOf(t, p).Offset? <==> ValidIn(t, p)
    ensures OffsetOf(t, p).LineOutOfBounds? <==>
      forall off: nat :: off <= |t| ==> PosAt(t, off).line != p.line
  {
    StartsShape(t);
    match OffsetOf(t, p)
    case Offset(off) => OffsetExact(t, p, off);
    case LineOutOfBounds =>
      forall off: nat | off <= |t| ensures PosAt(t, off).line != p.line {
        LineIsLast(t, off);
      }
    case ColumnOutOfBounds =>
      LastLineUnique(t, LineStarts(t)[p.line], p.line);
      forall off: nat | off <= |t| ensures PosAt(t, off) != p {
        OffsetExact(t, p, off);
      }
  }

  lemma OffsetOfPosAt(t: Text, off: nat)
    requires off <= |t|
    ensures OffsetOf(t, PosAt(t, off)) == Offset(off)
  {
    OffsetExact(t, PosAt(t, off), off);
  }

  /** Line `line` of `t` without its newline. */
  function LineText(t: Text, line: int): (r: Option<Text>) {
    StartsShape(t);
    var starts := LineStarts(t);
    if line < 0 || line >= |starts| then None
    else Some(t[starts[line]..LineEnd(starts, |t|, line)])
  }

  /** Lines never contain a newline, and joined by newlines they are the text. */
  function JoinLines(t: Text, n: nat): Text
    requires n <= |LineStarts(t)|
  {
    if n == 0 then []
    else if n == 1 then LineText(t, 0).value
    else JoinLines(t, n - 1) + [NL] + LineText(t, n - 1).value
  }

  lemma {:induction false} NoNLBetweenStarts(t: Text, i: nat)
    requires i < |t| && t[i] == NL
    ensures i + 1 in LineStarts(t)
  {
    StartsPrefix(t, i + 1);
    var u := t[..i + 1];
    assert u[..|u| - 1] == t[..i];
    assert LineStarts(u)[|LineStarts(u)| - 1] == i + 1;
  }

  lemma LinesHaveNoNL(t: Text, line: nat)
    requires line < |LineStarts(t)|
    ensures NL !in LineText(t, line).value
  {
    StartsShape(t);
    var starts := LineStarts(t);
    var s := starts[line];
    forall i | s <= i < LineEnd(starts, |t|, line) ensures t[i] != NL {
      if t[i] == NL {
        NoNLBetweenStarts(t, i);
        var k :| 0 <= k < |starts| && starts[k] == i + 1;
      }
    }
  }

  lemma {:induction false} LinesRebuildText(t: Text, n: nat)
    requires 0 < n <= |LineStarts(t)|
    ensures 0 <= LineEnd(LineStarts(t), |t|, n - 1) <= |t|
    ensures JoinLines(t, n) == t[..LineEnd(LineStarts(t), |t|, n - 1)]
    ensures n == |LineStarts(t)| ==> JoinLines(t, n) == t
  {
    StartsShape(t);
    if n > 1 {
      LinesRebuildText(t, n - 1);
    }
  }

  // ----- the loops -----

  /** rebuildLineStarts and snapshotLineStarts. */
  method SnapshotLineStarts(text: Text) returns (starts: seq<nat>)
    ensures starts == LineStarts(text)
  {
    starts := [0];
    var i := 0;
    while i < |text|
      invariant 0 <= i <= |text|
      invariant starts == LineStarts(text[..i])
    {
      assert text[..i + 1][..i] == text[..i];
      if text[i] == NL {
        starts := starts + [i + 1];
      }
      i := i + 1;
    }
    assert text[..i] == text;
  }

  /** The binary search of PositionAt and snapshotPosition. */
  method SnapshotPosition(lineStarts: seq<nat>, offset: nat, ghost text: Text) returns (p: Position)
    requires lineStarts == LineStarts(text) && offset <= |text|
    ensures p == PosAt(text, offset)
  {
    StartsShape(text);
    var low, high := 0, |lineStarts|;
    var line := 0;
    while low < high
      invariant 0 <= low <= high <= |lineStarts|
      invariant line < |lineStarts| && lineStarts[line] <= offset
      invariant line + 1 == low || line == low == 0
      invariant high < |lineStarts| ==> lineStarts[high] > offset
    {
      var mid := (low + high) / 2;
      if lineStarts[mid] <= offset {
        line := mid;
        low := mid + 1;
      } else {
        high := mid;
      }
    }
    LastLineUnique(text, offset, line);
    p := Position(line, offset - lineStarts[line]);
  }

  /** strings.IndexByte for the newline: its first index at or after `from`. */
  method IndexNL(text: Text, from: nat) returns (i: int)
    requires from <= |text|
    ensures i == -1 || from <= i < |text|
    ensures forall k :: from <= k < (if i < 0 then |text| else i) ==> text[k] != NL
    ensures i >= 0 ==> text[i] == NL
  {
    i := from;
    while i < |text|
      invariant from <= i <= |text|
      invariant forall k :: from <= k < i ==> text[k] != NL
    {
      if text[i] == NL {
        return;
      }
      i := i + 1;
    }
    i := -1;
  }

  /** Where the next line starts, seen from the start of line `line`. */
  lemma NextStart(t: Text, line: nat, i: int)
    requires line < |LineStarts(t)|
    requires i == -1 || LineStarts(t)[line] <= i < |t|
    requires forall k :: LineStarts(t)[line] <= k < (if i < 0 then |t| else i) ==> t[k] != NL
    requires i >= 0 ==> t[i] == NL
    ensures i == -1 ==> line + 1 == |LineStarts(t)|
    ensures i >= 0 ==> line + 1 < |LineStarts(t)| && LineStarts(t)[line + 1] == i + 1
  {
    StartsShape(t);
    var starts := LineStarts(t);
    if line + 1 < |starts| {
      assert t[starts[line + 1] - 1] == NL;
    }
    if i >= 0 {
      NoNLBetweenStarts(t, i);
      var k :| 0 <= k < |starts| && starts[k] == i + 1;
      assert k > line;
    }
  }

  datatype SearchResult = Found(off: nat) | OutOfBounds

  /** byteOffsetInText: the bridge's own line accounting agrees with the buffer's,
      up to its single error value. */
  method ByteOffsetInText(text: Text, pos: Position) returns (r: SearchResult)
    ensures r == match OffsetOf(text, pos) case Offset(off) => Found(off) case _ => OutOfBounds
  {
    StartsShape(text);
    if pos.line < 0 || pos.column < 0 {
      return OutOfBounds;
    }
    var lineStart := 0;
    var line := 0;
    while line < pos.line
      invariant 0 <= line <= pos.line && line < |LineStarts(text)|
      invariant lineStart == LineStarts(text)[line]
    {
      var nl := IndexNL(text, lineStart);
      NextStart(text, line, nl);
      if nl < 0 {
        return OutOfBounds;
      }
      lineStart := nl + 1;
      line := line + 1;
    }
    var lineLen := |text| - lineStart;
    var nl := IndexNL(text, lineStart);
    NextStart(text, line, nl);
    if nl >= 0 {
      lineLen := nl - lineStart;
    }
    if pos.column > lineLen {
      return OutOfBounds;
    }
    return Found(lineStart + pos.column);
  }
}
