/** Byte positions and LSP positions (internal/lsp/position.go).

    An LSP position counts UTF-16 code units within a line (LSP 3.17, section
    "Position"). The conversions are rune-by-rune loops; here they are proved
    against `Utf8.Units`, the length of the UTF-16 encoding of a decoded prefix. */
module LspPositions {
  import opened Texts
  import opened Lines
  import opened Utf8

  datatype LspPosition = LspPosition(line: int, character: int) {
    predicate LessThan(other: LspPosition) {
      if line != other.line then line < other.line else character < other.character
    }
  }

  datatype LspRange = LspRange(start: LspPosition, end: LspPosition)

  datatype Conversion<+T> = Converted(value: T) | PositionOutOfBounds | InvalidUtf8

  // ----- what the conversions mean -----

  /** A rune of the line fails to decode somewhere before `limit`. */
  ghost predicate BadRuneBefore(line: Text, limit: nat) {
    exists off: nat :: off < limit && BadRuneAt(line, off)
  }

  ghost predicate BadRuneAt(line: Text, off: nat) {
    off < |line| && ValidUtf8(line[..off]) && DecodeRune(line[off..]).Invalid()
  }

  ghost function UnitsForColumn(line: Text, column: nat): Conversion<nat> {
    if column > |line| then PositionOutOfBounds
    else match Units(line[..column])
      case Some(n) => Converted(n)
      case None => if BadRuneBefore(line, column) then InvalidUtf8 else PositionOutOfBounds
  }

  ghost predicate ColumnHasUnits(line: Text, column: nat, units: nat) {
    column <= |line| && Units(line[..column]) == Some(units)
  }

  ghost predicate BadRuneBelow(line: Text, units: nat) {
    exists off: nat :: BadRuneAt(line, off) && Units(line[..off]).value < units
  }

  ghost function ColumnForUnits(line: Text, units: nat): Conversion<nat> {
    if exists column: nat :: ColumnHasUnits(line, column, units) then
      var column: nat :| ColumnHasUnits(line, column, units);
      Converted(column)
    else if BadRuneBelow(line, units) then InvalidUtf8
    else PositionOutOfBounds
  }

  ghost function ToLsp(text: Text, p: Position): Conversion<LspPosition> {
    if p.line < 0 || p.column < 0 then PositionOutOfBounds
    else match LineText(text, p.line)
      case None => PositionOutOfBounds
      case Some(line) =>
        match UnitsForColumn(line, p.column)
        case Converted(n) => Converted(LspPosition(p.line, n))
        case PositionOutOfBounds => PositionOutOfBounds
        case InvalidUtf8 => InvalidUtf8
  }

  ghost function FromLsp(text: Text, p: LspPosition): Conversion<Position> {
    if p.line < 0 || p.character < 0 then PositionOutOfBounds
    else match LineText(text, p.line)
      case None => PositionOutOfBounds
      case Some(line) =>
        match ColumnForUnits(line, p.character)
        case Converted(n) => Converted(Position(p.line, n))
        case PositionOutOfBounds => PositionOutOfBounds
        case InvalidUtf8 => InvalidUtf8
  }

  ghost function RangeToLsp(text: Text, r: Range): Conversion<LspRange> {
    match ToLsp(text, r.start)
    case PositionOutOfBounds => PositionOutOfBounds
    case InvalidUtf8 => InvalidUtf8
    case Converted(s) =>
      match ToLsp(text, r.end)
      case PositionOutOfBounds => PositionOutOfBounds
      case InvalidUtf8 => InvalidUtf8
      case Converted(e) => Converted(LspRange(s, e))
  }

  ghost function RangeFromLsp(text: Text, r: LspRange): Conversion<Range> {
    match FromLsp(text, r.start)
    case PositionOutOfBounds => PositionOutOfBounds
    case InvalidUtf8 => InvalidUtf8
    case Converted(s) =>
      match FromLsp(text, r.end)
      case PositionOutOfBounds => PositionOutOfBounds
      case InvalidUtf8 => InvalidUtf8
      case Converted(e) => Converted(Range(s, e))
  }

  // ----- rune boundaries of a line -----

  /** Between two boundaries there is a whole rune. */
  lemma NextBoundary(line: Text, a: nat, b: nat)
    requires a < b <= |line| && ValidUtf8(line[..a]) && ValidUtf8(line[..b])
    ensures !DecodeRune(line[a..]).Invalid() && a + DecodeRune(line[a..]).size <= b
    ensures Units(line[..a]).value < Units(line[..b]).value
  {
    var mid := line[a..b];
    assert line[..a] + mid == line[..b];
    UnitsConcat(line[..a], mid);
    RunesConcat(line[..a], mid);
    UnitsPositive(mid);
    assert line[a..][..b - a] == mid;
    if DecodeRune(line[a..]).Invalid() || DecodeRune(line[a..]).size > b - a {
      DecodeCut(line[a..], b - a);
    }
  }

  /** Reading one rune moves from a boundary to the next one. */
  lemma BoundaryStep(line: Text, a: nat)
    requires a < |line| && ValidUtf8(line[..a]) && !DecodeRune(line[a..]).Invalid()
    ensures var d := DecodeRune(line[a..]);
      a + d.size <= |line|
      && Units(line[..a + d.size]) == Some(Units(line[..a]).value + if d.rune > 0xFFFF then 2 else 1)
  {
    hide DecodeRune, Runes;
    var d := DecodeRune(line[a..]);
    var mid := line[a..a + d.size];
    assert line[a..][..d.size] == mid;
    DecodePrefix(line[a..], d.size);
    UnitsOfOne(mid);
    assert line[..a] + mid == line[..a + d.size];
    UnitsConcat(line[..a], mid);
  }

  /** No two columns of a line have the same number of units before them, and the
      counts grow with the column. */
  lemma UnitsOrder(line: Text, a: nat, b: nat)
    requires a <= |line| && b <= |line| && ValidUtf8(line[..a]) && ValidUtf8(line[..b])
    ensures a < b <==> Units(line[..a]).value < Units(line[..b]).value
    ensures a == b <==> Units(line[..a]) == Units(line[..b])
  {
    if a < b {
      NextBoundary(line, a, b);
    } else if b < a {
      NextBoundary(line, b, a);
    }
  }

  /** A bad rune ends everything: no boundary lies beyond it. */
  lemma BadRuneStops(line: Text, off: nat, b: nat)
    requires BadRuneAt(line, off) && b <= |line| && ValidUtf8(line[..b])
    ensures b <= off
  {
    if off < b {
      NextBoundary(line, off, b);
    }
  }

  // ----- the conversions are inverse and ordered -----

  lemma ColumnForUnitsExact(line: Text, column: nat, units: nat)
    ensures ColumnForUnits(line, units) == Converted(column) <==> ColumnHasUnits(line, column, units)
    ensures UnitsForColumn(line, column) == Converted(units) <==> ColumnHasUnits(line, column, units)
  {
    if ColumnHasUnits(line, column, units) {
      forall other: nat | ColumnHasUnits(line, other, units) ensures other == column {
        UnitsOrder(line, column, other);
      }
    }
  }

  /** Byte to LSP and LSP to byte undo each other wherever either succeeds. */
  lemma ConversionsInverse(text: Text, p: Position, q: LspPosition)
    ensures ToLsp(text, p) == Converted(q) <==> FromLsp(text, q) == Converted(p)
  {
    match LineText(text, p.line)
    case None =>
    case Some(line) =>
      if p.line == q.line && p.column >= 0 && q.character >= 0 {
        ColumnForUnitsExact(line, p.column, q.character);
      }
  }

  /** The text of the position's line up to the position. */
  ghost function LinePrefix(text: Text, p: Position): (r: Option<Text>)
    ensures r.Some? <==> OffsetOf(text, p).Offset?
    ensures r.Some? ==>
      && 0 <= p.column <= OffsetOf(text, p).off <= |text|
      && r.value == text[OffsetOf(text, p).off - p.column..OffsetOf(text, p).off]
  {
    StartsShape(text);
    match LineText(text, p.line)
    case None => None
    case Some(line) => if 0 <= p.column <= |line| then Some(line[..p.column]) else None
  }

  /** Byte to LSP succeeds exactly when the line exists and its text up to the
      column is valid UTF-8; the character is the UTF-16 length of that text. */
  lemma ToLspExact(text: Text, p: Position)
    ensures ToLsp(text, p).Converted? <==> LinePrefix(text, p).Some? && ValidUtf8(LinePrefix(text, p).value)
    ensures ToLsp(text, p).Converted? ==>
      ToLsp(text, p).value.line == p.line
      && Some(ToLsp(text, p).value.character) == Units(LinePrefix(text, p).value)
  {
    hide LineStarts, Runes;
    StartsShape(text);
  }

  /** Both directions keep document order. */
  lemma ConversionsOrdered(text: Text, p1: Position, p2: Position)
    requires ToLsp(text, p1).Converted? && ToLsp(text, p2).Converted?
    ensures p1.LessThan(p2) <==> ToLsp(text, p1).value.LessThan(ToLsp(text, p2).value)
  {
    if p1.line == p2.line {
      UnitsOrder(LineText(text, p1.line).value, p1.column, p2.column);
    }
  }

  lemma FromLspIsValid(text: Text, q: LspPosition)
    requires FromLsp(text, q).Converted?
    ensures OffsetOf(text, FromLsp(text, q).value).Offset?
  {
    var p := FromLsp(text, q).value;
    ConversionsInverse(text, p, q);
    ToLspExact(text, p);
  }

  // ----- the loops -----

  /** lineAt walks the text by runes, yet finds every newline byte. */
  method LineAt(text: Text, want: nat) returns (r: Option<Text>)
    ensures r == LineText(text, want)
  {
    StartsShape(text);
    var start, line, i := 0, 0, 0;
    while i < |text|
      invariant start <= i <= |text|
      invariant 0 <= line <= want
      invariant line < |LineStarts(text)| && LineStarts(text)[line] == start
      invariant forall k :: start <= k < i ==> text[k] != NL
    {
      var d := DecodeRune(text[i..]);
      NewlineStandsAlone(text[i..]);
      assert forall k :: i < k < i + d.size ==> text[k] == text[i..][k - i];
      if d.rune == NL {
        NextStart(text, line, i);
        if line == want {
          return Some(text[start..i]);
        }
        line := line + 1;
        start := i + 1;
      }
      i := i + d.size;
    }
    NextStart(text, line, -1);
    if line == want {
      assert text[start..] == text[start..|text|];
      return Some(text[start..]);
    }
    return None;
  }

  method Utf16UnitsForByteColumn(line: Text, column: nat) returns (r: Conversion<nat>)
    ensures r == UnitsForColumn(line, column)
  {
    if column > |line| {
      return PositionOutOfBounds;
    }
    var units, offset := 0, 0;
    while offset < column
      invariant 0 <= offset <= column
      invariant Units(line[..offset]) == Some(units)
      decreases column - offset
    {
      var d := DecodeRune(line[offset..]);
      if d.Invalid() {
        assert BadRuneAt(line, offset);
        if ValidUtf8(line[..column]) { BadRuneStops(line, offset, column); }
        return InvalidUtf8;
      }
      if offset + d.size > column {
        SplitRune(line, offset, column);
        return PositionOutOfBounds;
      }
      BoundaryStep(line, offset);
      units := units + if d.rune > 0xFFFF then 2 else 1;
      offset := offset + d.size;
    }
    return Converted(units);
  }

  lemma SplitRune(line: Text, offset: nat, column: nat)
    requires offset < column <= |line| && ValidUtf8(line[..offset])
    requires !DecodeRune(line[offset..]).Invalid() && offset + DecodeRune(line[offset..]).size > column
    ensures UnitsForColumn(line, column) == PositionOutOfBounds
  {
    if ValidUtf8(line[..column]) {
      NextBoundary(line, offset, column);
    }
    forall off: nat | off < column && BadRuneAt(line, off) ensures false {
      BoundaryStep(line, offset);
      BadRuneStops(line, off, offset + DecodeRune(line[offset..]).size);
    }
  }

  method ByteColumnForUtf16Units(line: Text, character: nat) returns (r: Conversion<nat>)
    ensures r == ColumnForUnits(line, character)
  {
    var units, offset := 0, 0;
    while offset < |line|
      invariant 0 <= offset <= |line| && units <= character
      invariant Units(line[..offset]) == Some(units)
      decreases |line| - offset
    {
      if units == character {
        ColumnForUnitsExact(line, offset, units);
        return Converted(offset);
      }
      var d := DecodeRune(line[offset..]);
      if d.Invalid() {
        assert BadRuneAt(line, offset);
        forall column: nat | ColumnHasUnits(line, column, character) ensures false {
          BadRuneStops(line, offset, column);
          UnitsOrder(line, column, offset);
        }
        return InvalidUtf8;
      }
      BoundaryStep(line, offset);
      var width := if d.rune > 0xFFFF then 2 else 1;
      if units + width > character {
        SplitPair(line, offset, character);
        return PositionOutOfBounds;
      }
      units := units + width;
      offset := offset + d.size;
    }
    assert line[..offset] == line;
    if units == character {
      ColumnForUnitsExact(line, offset, units);
      return Converted(|line|);
    }
    forall column: nat | ColumnHasUnits(line, column, character) ensures false {
      UnitsOrder(line, column, offset);
    }
    forall off: nat | BadRuneAt(line, off) ensures false {
      BadRuneStops(line, off, offset);
    }
    return PositionOutOfBounds;
  }

  lemma SplitPair(line: Text, offset: nat, character: nat)
    requires offset < |line| && ValidUtf8(line[..offset])
    requires !DecodeRune(line[offset..]).Invalid()
    requires offset + DecodeRune(line[offset..]).size <= |line| && ValidUtf8(line[..offset + DecodeRune(line[offset..]).size])
    requires Units(line[..offset]).value < character < Units(line[..offset + DecodeRune(line[offset..]).size]).value
    ensures ColumnForUnits(line, character) == PositionOutOfBounds
  {
    var next := offset + DecodeRune(line[offset..]).size;
    forall column: nat | ColumnHasUnits(line, column, character) ensures false {
      UnitsOrder(line, offset, column);
      UnitsOrder(line, column, next);
      NextBoundary(line, offset, column);
    }
    forall off: nat | BadRuneAt(line, off) && Units(line[..off]).value < character ensures false {
      BadRuneStops(line, off, next);
      UnitsOrder(line, next, off);
    }
  }

  method PositionFromBytePosition(text: Text, line: int, column: int) returns (r: Conversion<LspPosition>)
    ensures r == ToLsp(text, Position(line, column))
  {
    if line < 0 || column < 0 {
      return PositionOutOfBounds;
    }
    var lineText := LineAt(text, line);
    match lineText
    case None => return PositionOutOfBounds;
    case Some(t) =>
      var c := Utf16UnitsForByteColumn(t, column);
      match c
      case Converted(n) => return Converted(LspPosition(line, n));
      case PositionOutOfBounds => return PositionOutOfBounds;
      case InvalidUtf8 => return InvalidUtf8;
  }

  method RangeFromByteRange(text: Text, range: Range) returns (r: Conversion<LspRange>)
    ensures r == RangeToLsp(text, range)
  {
    var s := PositionFromBytePosition(text, range.start.line, range.start.column);
    match s
    case PositionOutOfBounds => return PositionOutOfBounds;
    case InvalidUtf8 => return InvalidUtf8;
    case Converted(start) =>
      var e := PositionFromBytePosition(text, range.end.line, range.end.column);
      match e
      case PositionOutOfBounds => return PositionOutOfBounds;
      case InvalidUtf8 => return InvalidUtf8;
      case Converted(end) => return Converted(LspRange(start, end));
  }

  method BytePositionFromPosition(text: Text, pos: LspPosition) returns (r: Conversion<Position>)
    ensures r == FromLsp(text, pos)
  {
    if pos.line < 0 || pos.character < 0 {
      return PositionOutOfBounds;
    }
    var lineText := LineAt(text, pos.line);
    match lineText
    case None => return PositionOutOfBounds;
    case Some(t) =>
      var c := ByteColumnForUtf16Units(t, pos.character);
      match c
      case Converted(n) => return Converted(Position(pos.line, n));
      case PositionOutOfBounds => return PositionOutOfBounds;
      case InvalidUtf8 => return InvalidUtf8;
  }

  method RangeToByteRange(text: Text, range: LspRange) returns (r: Conversion<Range>)
    ensures r == RangeFromLsp(text, range)
  {
    var s := BytePositionFromPosition(text, range.start);
    match s
    case PositionOutOfBounds => return PositionOutOfBounds;
    case InvalidUtf8 => return InvalidUtf8;
    case Converted(start) =>
      var e := BytePositionFromPosition(text, range.end);
      match e
      case PositionOutOfBounds => return PositionOutOfBounds;
      case InvalidUtf8 => return InvalidUtf8;
      case Converted(end) => return Converted(Range(start, end));
  }
}
