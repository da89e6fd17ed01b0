/** Shared vocabulary: byte texts, zero-based byte positions and the position
    arithmetic of the editor (internal/editor/position.go and the helpers at the
    end of internal/editor/view.go).

    Everything rests on `Advance`: the position reached by reading a text byte by
    byte from a given position. The source never walks like that; it counts
    newlines, searches for the last one or consults a cache. The lemmas of the
    project show that all those forms agree with `Advance`. */
module Texts {
  type byte = b: int | 0 <= b < 256
  type Text = seq<byte>

  const NL: byte := 10

  datatype Option<+T> = None | Some(value: T)

  datatype Position = Position(line: int, column: int) {
    predicate LessThan(other: Position) {
      if line != other.line then line < other.line else column < other.column
    }

    predicate AtMost(other: Position) {
      LessThan(other) || this == other
    }
  }

  const Origin := Position(0, 0)

  datatype Range = Range(start: Position, end: Position) {
    predicate Empty() {
      start == end
    }

    function Normalized(): (r: Range)
      ensures r.start.AtMost(r.end)
      ensures {r.start, r.end} == {start, end}
      ensures start.AtMost(end) ==> r == this
    {
      if start.LessThan(end) || start == end then this else Range(end, start)
    }
  }

  // ----- searching -----

  /** Index of the first `b` in `s`, or the length when there is none. */
  function IndexOf(s: Text, b: byte): (i: nat)
    ensures i <= |s| && (forall k :: 0 <= k < i ==> s[k] != b) && (i < |s| ==> s[i] == b)
  {
    if s == [] || s[0] == b then 0 else 1 + IndexOf(s[1..], b)
  }

  /** What makes an index the first. */
  lemma FirstIndex(s: Text, b: byte, i: nat)
    requires i <= |s| && (forall k :: 0 <= k < i ==> s[k] != b) && (i < |s| ==> s[i] == b)
    ensures IndexOf(s, b) == i
  {
    var j := IndexOf(s, b);
  }

  // ----- reading a text from a position -----

  function Step(p: Position, c: byte): Position {
    if c == NL then Position(p.line + 1, 0) else Position(p.line, p.column + 1)
  }

  function Advance(p: Position, t: Text): Position {
    if t == [] then p else Step(Advance(p, t[..|t| - 1]), t[|t| - 1])
  }

  /** The position of byte offset `off` of text `t`. */
  function PosAt(t: Text, off: nat): Position
    requires off <= |t|
  {
    Advance(Origin, t[..off])
  }

  /** A position is valid in `t` when some byte offset of `t` has it. */
  ghost predicate ValidIn(t: Text, p: Position) {
    exists off: nat :: off <= |t| && PosAt(t, off) == p
  }

  lemma {:induction false} AdvanceConcat(p: Position, a: Text, b: Text)
    ensures Advance(p, a + b) == Advance(Advance(p, a), b)
  {
    if b == [] {
      assert a + b == a;
    } else {
      AdvanceConcat(p, a, b[..|b| - 1]);
      assert (a + b)[..|a + b| - 1] == a + b[..|b| - 1];
    }
  }

  lemma {:induction false} AdvanceGrows(p: Position, t: Text)
    ensures t != [] ==> p.LessThan(Advance(p, t))
    ensures p.AtMost(Advance(p, t))
    ensures Advance(p, t).line >= p.line
    ensures p.column >= 0 ==> Advance(p, t).column >= 0
  {
    if t != [] {
      AdvanceGrows(p, t[..|t| - 1]);
    }
  }

  lemma PosAtSplit(t: Text, i: nat, j: nat)
    requires i <= j <= |t|
    ensures PosAt(t, j) == Advance(PosAt(t, i), t[i..j])
  {
    AdvanceConcat(Origin, t[..i], t[i..j]);
    assert t[..i] + t[i..j] == t[..j];
  }

  /** Offsets and their positions have the same order. */
  lemma PosAtOrder(t: Text, i: nat, j: nat)
    requires i <= |t| && j <= |t|
    ensures i < j <==> PosAt(t, i).LessThan(PosAt(t, j))
    ensures i == j <==> PosAt(t, i) == PosAt(t, j)
  {
    if i <= j {
      PosAtSplit(t, i, j);
      AdvanceGrows(PosAt(t, i), t[i..j]);
    } else {
      PosAtSplit(t, j, i);
      AdvanceGrows(PosAt(t, j), t[j..i]);
    }
  }

  /** The position of an offset only depends on the text before it. */
  lemma PosAtPrefix(t: Text, u: Text, off: nat)
    requires off <= |t| && off <= |u| && t[..off] == u[..off]
    ensures PosAt(t, off) == PosAt(u, off)
  {
  }

  lemma PosAtNonNegative(t: Text, off: nat)
    requires off <= |t|
    ensures PosAt(t, off).line >= 0 && PosAt(t, off).column >= 0
    ensures PosAt(t, off).column <= off
  {
    AdvanceGrows(Origin, t[..off]);
    ColumnBound(t[..off]);
  }

  lemma {:induction false} ColumnBound(t: Text)
    ensures Advance(Origin, t).column <= |t|
  {
    if t != [] {
      ColumnBound(t[..|t| - 1]);
    }
  }

  // ----- endOfInsert: newline count and last newline -----

  function CountNL(t: Text): nat {
    if t == [] then 0
    else CountNL(t[..|t| - 1]) + (if t[|t| - 1] == NL then 1 else 0)
  }

  function LastIndexNL(t: Text): int {
    if t == [] then -1
    else if t[|t| - 1] == NL then |t| - 1
    else LastIndexNL(t[..|t| - 1])
  }

  function EndOfInsert(p: Position, text: Text): Position {
    if text == [] then p
    else
      var lines := CountNL(text);
      if lines == 0 then Position(p.line, p.column + |text|)
      else Position(p.line + lines, |text| - LastIndexNL(text) - 1)
  }

  /** endOfInsert computes the position reached by reading the inserted text. */
  lemma {:induction false} EndOfInsertIsAdvance(p: Position, text: Text)
    ensures EndOfInsert(p, text) == Advance(p, text)
  {
    if text != [] {
      EndOfInsertIsAdvance(p, text[..|text| - 1]);
      LastIndexExists(text[..|text| - 1]);
    }
  }

  lemma {:induction false} LastIndexExists(t: Text)
    ensures -1 <= LastIndexNL(t) < |t|
    ensures LastIndexNL(t) == -1 <==> CountNL(t) == 0
    ensures LastIndexNL(t) >= 0 ==> t[LastIndexNL(t)] == NL
    ensures forall i :: LastIndexNL(t) < i < |t| ==> t[i] != NL
  {
    if t != [] {
      LastIndexExists(t[..|t| - 1]);
    }
  }

  // ----- shiftPosition -----

  function ShiftPosition(q: Position, spliceEnd: Position, newEnd: Position): Position {
    Position(
      q.line - spliceEnd.line + newEnd.line,
      if q.line == spliceEnd.line then q.column - spliceEnd.column + newEnd.column else q.column)
  }

  /** shiftPosition re-anchors: what follows the splice keeps its distance in text
      from the splice's end, whatever mixture of lines and columns that is. */
  lemma {:induction false} ShiftReanchors(spliceEnd: Position, newEnd: Position, follow: Text)
    ensures ShiftPosition(Advance(spliceEnd, follow), spliceEnd, newEnd) == Advance(newEnd, follow)
  {
    if follow != [] {
      ShiftReanchors(spliceEnd, newEnd, follow[..|follow| - 1]);
      AdvanceGrows(spliceEnd, follow[..|follow| - 1]);
    }
  }

  /** `t` with the bytes [s, e) replaced by `w`. */
  function Splice(t: Text, s: nat, e: nat, w: Text): Text
    requires s <= e <= |t|
  {
    t[..s] + w + t[e..]
  }
}
