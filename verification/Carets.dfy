/** Rune-wise caret movement within one line (snapToRuneStart and stepRunes of
    internal/editor/view.go). */
module Carets {
  import opened Texts
  import opened Utf8

  /** The column moved left to a byte that is no continuation byte. */
  function SnapColumn(line: Text, col: int): (r: int)
    ensures r <= col && (0 <= col ==> 0 <= r)
    decreases col
  {
    if col <= 0 || col >= |line| || !Cont(line[col]) then col else SnapColumn(line, col - 1)
  }

  function StepRight(line: Text, col: nat, n: nat): (r: nat)
    requires col <= |line|
    ensures col <= r <= |line|
    decreases n
  {
    if n == 0 || col == |line| then col else StepRight(line, col + DecodeRune(line[col..]).size, n - 1)
  }

  function StepLeft(line: Text, col: nat, n: nat): (r: nat)
    requires col <= |line|
    ensures r <= col
    decreases n
  {
    if n == 0 || col == 0 then col else StepLeft(line, col - LastSize(line[..col]), n - 1)
  }

  function StepColumn(line: Text, col0: nat, delta: int): (r: nat)
    ensures r <= |line|
  {
    var col := if col0 > |line| then |line| else col0;
    if delta >= 0 then StepRight(line, col, delta) else StepLeft(line, col, -delta)
  }

  /** A column between runes. */
  ghost predicate Between(line: Text, col: nat) {
    col <= |line| && ValidUtf8(line[..col])
  }

  /** How many runes lie to the left. */
  ghost function RuneIndex(line: Text, col: nat): nat
    requires Between(line, col)
  {
    |Runes(line[..col]).value|
  }

  function Limit(v: int, hi: nat): nat {
    if v < 0 then 0 else if v > hi then hi else v
  }

  /** In valid text the columns between runes are those that start no continuation. */
  lemma {:induction false} StartsBetween(line: Text, b: nat)
    requires ValidUtf8(line) && b < |line|
    ensures Between(line, b) <==> !Cont(line[b])
    decreases |line|
  {
    hide DecodeRune, EncodeRune;
    FirstRune(line);
    var k := DecodeRune(line).size;
    if b == 0 {
      assert line[..0] == [];
    } else if b < k {
      DecodeCut(line, b);
    } else {
      RestBetween(line, b);
      if b == k {
        FirstRune(line[k..]);
      } else {
        StartsBetween(line[k..], b - k);
        assert line[k..][b - k] == line[b];
      }
    }
  }

  /** A valid text starts with a whole rune, and only its first byte is no continuation. */
  lemma FirstRune(line: Text)
    requires ValidUtf8(line) && line != []
    ensures var d := DecodeRune(line);
      && !d.Invalid() && 0 < d.size <= |line| && ValidUtf8(line[d.size..])
      && !Cont(line[0]) && forall i :: 0 < i < d.size ==> Cont(line[i])
  {
    hide DecodeRune, EncodeRune;
    var d := DecodeRune(line);
    EncodeDecoded(line);
    EncodedShape(d.rune);
    assert forall i :: 0 <= i < d.size ==> line[..d.size][i] == line[i];
  }

  /** Past the first rune, being between runes is a matter of the rest. */
  lemma RestBetween(line: Text, b: nat)
    requires ValidUtf8(line) && line != [] && DecodeRune(line).size <= b <= |line|
    ensures var k := DecodeRune(line).size;
      Between(line, b) <==> Between(line[k..], b - k)
  {
    hide DecodeRune;
    FirstRune(line);
    var k := DecodeRune(line).size;
    DecodePrefix(line, b);
    assert line[..b][k..] == line[k..][..b - k];
  }

  /** Snapping gives the last column between runes at or left of the caret. */
  lemma {:induction false} SnapExact(line: Text, col: nat)
    requires ValidUtf8(line) && col <= |line|
    ensures var r := SnapColumn(line, col);
      0 <= r && Between(line, r) && forall b: nat :: r < b <= col ==> !Between(line, b)
    decreases col
  {
    hide Between;
    if col == |line| {
      assert line[..col] == line;
      assert Between(line, col) by { WholeBetween(line); }
    } else {
      StartsBetween(line, col);
      if col == 0 {
        NothingBetween(line);
      } else if Cont(line[col]) {
        SnapExact(line, col - 1);
      }
    }
  }

  lemma WholeBetween(line: Text)
    requires ValidUtf8(line)
    ensures Between(line, |line|) && RuneIndex(line, |line|) == |Runes(line).value|
  {
    assert line[..|line|] == line;
  }

  lemma NothingBetween(line: Text)
    ensures Between(line, 0) && RuneIndex(line, 0) == 0
  {
    assert line[..0] == [];
  }

  /** Reading one rune from between two runes counts one more. */
  lemma RightOne(line: Text, col: nat)
    requires ValidUtf8(line) && Between(line, col) && col < |line|
    ensures var next := col + DecodeRune(line[col..]).size;
      && Between(line, next) && RuneIndex(line, next) == RuneIndex(line, col) + 1
      && RuneIndex(line, col) < |Runes(line).value|
  {
    hide DecodeRune, Runes;
    var rest := line[col..];
    assert line[..col] + rest == line;
    RunesConcat(line[..col], rest);
    FirstRune(rest);
    var k := DecodeRune(rest).size;
    assert line[..col] + rest[..k] == line[..col + k];
    OneRune(rest);
    RunesConcat(line[..col], rest[..k]);
    RunesCount(rest);
  }

  lemma OneRune(s: Text)
    requires s != [] && !DecodeRune(s).Invalid()
    ensures DecodeRune(s).size <= |s| && Runes(s[..DecodeRune(s).size]) == Some([DecodeRune(s).rune])
  {
    hide DecodeRune;
    var k := DecodeRune(s).size;
    DecodePrefix(s, k);
    assert s[..k][k..] == [];
    assert Runes([]) == Some([]);
    assert [DecodeRune(s).rune] + [] == [DecodeRune(s).rune];
  }

  lemma RunesCount(s: Text)
    requires ValidUtf8(s) && s != []
    ensures |Runes(s).value| > 0
  {
    RunesNonEmpty(s);
  }

  lemma {:induction false} StepRightExact(line: Text, col: nat, n: nat)
    requires ValidUtf8(line) && Between(line, col)
    ensures var r := StepRight(line, col, n);
      Between(line, r) && RuneIndex(line, r) == Limit(RuneIndex(line, col) + n, |Runes(line).value|)
    decreases n
  {
    hide DecodeRune, Runes, Between, RuneIndex;
    WholeBetween(line);
    IndexBound(line, col);
    if n > 0 && col < |line| {
      RightOne(line, col);
      StepRightExact(line, col + DecodeRune(line[col..]).size, n - 1);
    }
  }

  lemma IndexBound(line: Text, col: nat)
    requires ValidUtf8(line) && Between(line, col)
    ensures col <= |line| && RuneIndex(line, col) <= |Runes(line).value|
    ensures col < |line| ==> RuneIndex(line, col) < |Runes(line).value|
    ensures col > 0 ==> RuneIndex(line, col) > 0
    ensures col == 0 ==> RuneIndex(line, col) == 0
  {
    hide Runes, DecodeRune;
    if col < |line| {
      RightOne(line, col);
    } else {
      WholeBetween(line);
    }
    if col > 0 {
      RunesNonEmpty(line[..col]);
    } else {
      NothingBetween(line);
    }
  }

  /** Stepping over the rune to the left counts one less. */
  lemma LeftOne(line: Text, col: nat)
    requires Between(line, col) && col > 0
    ensures var prev := col - LastSize(line[..col]);
      0 <= prev && Between(line, prev) && RuneIndex(line, prev) == RuneIndex(line, col) - 1
  {
    hide LastSize, Runes;
    var before := line[..col];
    ValidLast(before);
    var prev := col - LastSize(before);
    assert before[..|before| - LastSize(before)] == line[..prev];
  }

  lemma {:induction false} StepLeftExact(line: Text, col: nat, n: nat)
    requires ValidUtf8(line) && Between(line, col)
    ensures var r := StepLeft(line, col, n);
      Between(line, r) && RuneIndex(line, r) == Limit(RuneIndex(line, col) - n, |Runes(line).value|)
    decreases n
  {
    hide LastSize, Runes, Between, RuneIndex;
    IndexBound(line, col);
    if n > 0 && col > 0 {
      LeftOne(line, col);
      StepLeftExact(line, col - LastSize(line[..col]), n - 1);
    }
  }

  /** A step of `delta` runes moves by exactly that many, stopping at the line's ends. */
  lemma StepExact(line: Text, col: nat, delta: int)
    requires ValidUtf8(line) && Between(line, col)
    ensures var r := StepColumn(line, col, delta);
      Between(line, r) && RuneIndex(line, r) == Limit(RuneIndex(line, col) + delta, |Runes(line).value|)
  {
    hide Runes, RuneIndex, StepLeft, StepRight;
    if delta >= 0 {
      StepRightExact(line, col, delta);
    } else {
      StepLeftExact(line, col, -delta);
    }
  }

  /** The rune index says where a caret is. */
  lemma IndexDecides(line: Text, a: nat, b: nat)
    requires ValidUtf8(line) && Between(line, a) && Between(line, b) && RuneIndex(line, a) == RuneIndex(line, b)
    ensures a == b
  {
    hide Runes;
    if a < b {
      IndexGrows(line, a, b);
    } else if b < a {
      IndexGrows(line, b, a);
    }
  }

  lemma IndexGrows(line: Text, a: nat, b: nat)
    requires Between(line, a) && Between(line, b) && a < b
    ensures RuneIndex(line, a) < RuneIndex(line, b)
  {
    var mid := line[a..b];
    assert line[..a] + mid == line[..b];
    RunesConcat(line[..a], mid);
    RunesNonEmpty(mid);
  }

  /** Moving right and back by steps that stay inside the line returns to the caret. */
  lemma StepsUndo(line: Text, col: nat, delta: int)
    requires ValidUtf8(line) && Between(line, col)
    requires 0 <= RuneIndex(line, col) + delta <= |Runes(line).value|
    ensures StepColumn(line, StepColumn(line, col, delta), -delta) == col
  {
    hide Runes, RuneIndex, StepColumn, Between;
    IndexBound(line, col);
    StepExact(line, col, delta);
    var there := StepColumn(line, col, delta);
    StepExact(line, there, -delta);
    IndexDecides(line, StepColumn(line, there, -delta), col);
  }

  // ----- the loops -----

  method SnapToRuneStart(line: Text, col0: int) returns (col: int)
    ensures col == SnapColumn(line, col0)
  {
    col := col0;
    if col <= 0 || col >= |line| {
      return;
    }
    while col > 0 && Cont(line[col])
      invariant 0 <= col < |line|
      invariant SnapColumn(line, col) == SnapColumn(line, col0)
    {
      col := col - 1;
    }
  }

  method StepRunes(line: Text, col0: nat, delta0: int) returns (col: nat)
    ensures col == StepColumn(line, col0, delta0)
  {
    hide DecodeRune, LastSize;
    col := if col0 > |line| then |line| else col0;
    var delta := delta0;
    while delta > 0 && col < |line|
      invariant col <= |line| && (delta0 <= 0 ==> delta == delta0)
      invariant delta0 > 0 ==> delta >= 0 && StepRight(line, col, delta) == StepColumn(line, col0, delta0)
      invariant delta0 <= 0 ==> col == if col0 > |line| then |line| else col0
      decreases delta
    {
      col := col + DecodeRune(line[col..]).size;
      delta := delta - 1;
    }
    while delta < 0 && col > 0
      invariant col <= |line| && (delta0 >= 0 ==> delta >= 0 && col == StepColumn(line, col0, delta0))
      invariant delta0 < 0 ==> delta <= 0 && StepLeft(line, col, -delta) == StepColumn(line, col0, delta0)
      decreases -delta
    {
      col := col - LastSize(line[..col]);
      delta := delta + 1;
    }
  }
}
