/** Byte columns and display columns of one line, with tabs expanded
    (internal/ui/textlayout.go). A caret may stand at any decode boundary. */
module TextLayout {
  import opened Texts
  import opened Utf8
  import Search

  const DEFAULT_TAB_WIDTH: int := 4

  const TAB: Rune := 9

  function TabStop(tabWidth: int): (w: int)
    ensures w > 0
  {
    if tabWidth <= 0 then DEFAULT_TAB_WIDTH else tabWidth
  }

  /** The display column after a rune at column `col`. */
  function Next(col: nat, r: Rune, w: int): (n: nat)
    requires w > 0
    ensures n > col
    ensures r == TAB ==> n % w == 0 && n <= col + w
  {
    if r == TAB then
      TabLands(col, w);
      col + w - col % w
    else col + 1
  }

  lemma TabLands(col: nat, w: int)
    requires w > 0
    ensures col + w - col % w > col && (col + w - col % w) % w == 0
  {
    var q := col / w;
    assert col == w * q + col % w;
    assert w * (q + 1) == w * q + w;
    MultipleMod(q + 1, w, w * (q + 1));
  }

  lemma AtLeastOnce(w: int, k: int)
    requires w > 0 && k >= 1
    ensures w * k >= w
  {
  }

  lemma MultipleMod(k: int, w: int, x: int)
    requires w > 0 && x == w * k
    ensures x % w == 0
  {
    var q, r := x / w, x % w;
    assert x == w * q + r;
    assert w * (k - q) == r by { assert w * (k - q) == w * k - w * q; }
    if k > q {
      AtLeastOnce(w, k - q);
    } else if k < q {
      AtLeastOnce(w, q - k);
    }
  }

  /** The display column after the runes that start in the first n bytes. */
  function ColumnFrom(line: Text, n: int, w: int, col: nat): nat
    requires w > 0
    decreases |line|
  {
    if n <= 0 || line == [] then col
    else
      var d := DecodeRune(line);
      ColumnFrom(line[d.size..], n - d.size, w, Next(col, d.rune, w))
  }

  function Visual(line: Text, byteCol: int, tabWidth: int): nat {
    ColumnFrom(line, byteCol, TabStop(tabWidth), 0)
  }

  // ----- how display columns grow -----

  lemma {:induction false} ColumnSplits(line: Text, a: nat, m: int, w: int, col: nat)
    requires w > 0 && Search.Boundary(line, a) && m >= 0
    ensures ColumnFrom(line, a + m, w, col) == ColumnFrom(line[a..], m, w, ColumnFrom(line, a, w, col))
    decreases |line|
  {
    hide DecodeRune, Next;
    if a == 0 {
      assert line[0..] == line;
    } else {
      var d := DecodeRune(line);
      ColumnSplits(line[d.size..], a - d.size, m, w, Next(col, d.rune, w));
      assert line[d.size..][a - d.size..] == line[a..];
    }
  }

  /** From one boundary to the next. */
  lemma VisualStep(line: Text, a: nat, tabWidth: int)
    requires Search.Boundary(line, a) && a < |line|
    ensures var d := DecodeRune(line[a..]);
      && Search.Boundary(line, a + d.size)
      && Visual(line, a + d.size, tabWidth) == Next(Visual(line, a, tabWidth), d.rune, TabStop(tabWidth))
  {
    hide DecodeRune, Next, Search.Boundary;
    var d := DecodeRune(line[a..]);
    var w := TabStop(tabWidth);
    Search.OneRune(line[a..]);
    Search.BoundariesAdd(line, a, d.size);
    ColumnSplits(line, a, d.size, w, 0);
    assert ColumnFrom(line[a..], d.size, w, Visual(line, a, tabWidth)) == Next(Visual(line, a, tabWidth), d.rune, w);
  }

  /** From one caret to the next the display column grows by one, or over a tab to the
      next multiple of the tab width, which is 4 unless a positive one is given. */
  lemma VisualGrows(line: Text, a: nat, tabWidth: int)
    requires Search.Boundary(line, a) && a < |line|
    ensures var d := DecodeRune(line[a..]); var w := if tabWidth <= 0 then 4 else tabWidth;
      var from, to := Visual(line, a, tabWidth), Visual(line, a + d.size, tabWidth);
      && Search.Boundary(line, a + d.size)
      && (d.rune != 9 ==> to == from + 1)
      && (d.rune == 9 ==> from < to && to % w == 0 && forall k :: from < k < to ==> k % w != 0)
  {
    hide DecodeRune, Visual, Search.Boundary, TabStop;
    VisualStep(line, a, tabWidth);
    var w := if tabWidth <= 0 then 4 else tabWidth;
    assert TabStop(tabWidth) == w by { TabStopIs(tabWidth); }
    NextStopNearest(Visual(line, a, tabWidth), w);
  }

  lemma TabStopIs(tabWidth: int)
    ensures TabStop(tabWidth) == if tabWidth <= 0 then 4 else tabWidth
  {
  }

  lemma NextStopNearest(col: nat, w: int)
    requires w > 0
    ensures forall k :: col < k < col + w - col % w ==> k % w != 0
  {
    var q := col / w;
    assert col == w * q + col % w;
    forall k | col < k < col + w - col % w ensures k % w != 0 {
      if k % w == 0 {
        var m := k / w;
        assert k == w * m;
        Apart(w, q, m);
      }
    }
  }

  lemma Apart(w: int, q: int, m: int)
    requires w > 0
    ensures w * m <= w * q || w * m >= w * q + w
  {
    if m > q {
      AtLeastOnce(w, m - q);
      assert w * (m - q) == w * m - w * q;
    } else if q > m {
      AtLeastOnce(w, q - m);
      assert w * (q - m) == w * q - w * m;
    }
  }

  lemma {:induction false} NoTabsFrom(line: Text, n: nat, w: int, col: nat)
    requires w > 0 && Search.Boundary(line, n) && 9 !in Search.Decode(line[..n])
    ensures ColumnFrom(line, n, w, col) == col + |Search.Decode(line[..n])|
    decreases |line|
  {
    hide DecodeRune, Search.Decode;
    if n == 0 {
      Search.NothingDecoded();
    } else {
      var d := DecodeRune(line);
      Search.DecodeTake(line, n);
      assert [d.rune][0] in Search.Decode(line[..n]);
      NoTabsFrom(line[d.size..], n - d.size, w, Next(col, d.rune, w));
    }
  }

  /** Without tabs the display column is the number of runes to the left. */
  lemma VisualWithoutTabs(line: Text, n: nat, tabWidth: int)
    requires Search.Boundary(line, n) && 9 !in Search.Decode(line[..n])
    ensures Visual(line, n, tabWidth) == |Search.Decode(line[..n])|
  {
    NoTabsFrom(line, n, TabStop(tabWidth), 0);
  }

  lemma {:induction false} ColumnRounds(line: Text, byteCol: int, w: int, col: nat) returns (n: nat)
    requires w > 0
    ensures Search.Boundary(line, n) && ColumnFrom(line, byteCol, w, col) == ColumnFrom(line, n, w, col)
    ensures (byteCol <= n || n == |line|) && forall b: nat :: Search.Boundary(line, b) && b >= byteCol ==> b >= n
    decreases |line|
  {
    hide DecodeRune, Next;
    if byteCol <= 0 || line == [] {
      n := 0;
    } else {
      var d := DecodeRune(line);
      var rest := ColumnRounds(line[d.size..], byteCol - d.size, w, Next(col, d.rune, w));
      n := d.size + rest;
    }
  }

  /** Any byte column counts as the first caret at or after it, or the line's end. */
  lemma VisualRounds(line: Text, byteCol: int, tabWidth: int) returns (n: nat)
    ensures Search.Boundary(line, n) && Visual(line, byteCol, tabWidth) == Visual(line, n, tabWidth)
    ensures (byteCol <= n || n == |line|) && forall b: nat :: Search.Boundary(line, b) && b >= byteCol ==> b >= n
  {
    n := ColumnRounds(line, byteCol, TabStop(tabWidth), 0);
  }

  /** Later carets are shown strictly further right. */
  lemma {:induction false} VisualOrder(line: Text, a: nat, b: nat, tabWidth: int)
    requires Search.Boundary(line, a) && Search.Boundary(line, b) && a < b
    ensures Visual(line, a, tabWidth) < Visual(line, b, tabWidth)
    ensures Next(Visual(line, a, tabWidth), DecodeRune(line[a..]).rune, TabStop(tabWidth)) <= Visual(line, b, tabWidth)
    decreases b - a
  {
    hide DecodeRune, Visual, Search.Boundary;
    Search.BoundaryInside(line, b);
    var next := a + DecodeRune(line[a..]).size;
    VisualStep(line, a, tabWidth);
    Search.NextBoundary(line, a, b);
    if next < b {
      VisualOrder(line, next, b, tabWidth);
    }
  }

  // ----- the caret nearest a display column -----

  function Distance(a: int, b: int): nat {
    if a < b then b - a else a - b
  }

  /** A caret position whose display column is nearest; of two equally near, the left. */
  ghost predicate Nearest(line: Text, visualCol: int, tabWidth: int, r: nat) {
    && Search.Boundary(line, r)
    && (forall b: nat :: Search.Boundary(line, b) && b < r ==>
          Distance(Visual(line, r, tabWidth), visualCol) < Distance(Visual(line, b, tabWidth), visualCol))
    && (forall b: nat :: Search.Boundary(line, b) && b > r ==>
          Distance(Visual(line, r, tabWidth), visualCol) <= Distance(Visual(line, b, tabWidth), visualCol))
  }

  lemma NearestUnique(line: Text, visualCol: int, tabWidth: int, r: nat, s: nat)
    requires Nearest(line, visualCol, tabWidth, r) && Nearest(line, visualCol, tabWidth, s)
    ensures r == s
  {
    hide Search.Boundary, Visual;
  }

  /** Clicking on a caret's own column finds that caret again. */
  lemma ClickRoundTrip(line: Text, n: nat, tabWidth: int, r: nat)
    requires Search.Boundary(line, n) && Nearest(line, Visual(line, n, tabWidth), tabWidth, r)
    ensures r == n
  {
    hide Search.Boundary, Visual;
    assert Distance(Visual(line, n, tabWidth), Visual(line, n, tabWidth)) == 0;
    if r < n {
      VisualOrder(line, r, n, tabWidth);
    }
  }

  /** Between two neighbouring carets around the column, the nearer one. */
  lemma NearestBetween(line: Text, visualCol: int, tabWidth: int, i: nat)
    requires Search.Boundary(line, i) && i < |line|
    requires var col := Visual(line, i, tabWidth);
      col <= visualCol < Next(col, DecodeRune(line[i..]).rune, TabStop(tabWidth))
    ensures var col := Visual(line, i, tabWidth); var next := i + DecodeRune(line[i..]).size;
      var stop := Next(col, DecodeRune(line[i..]).rune, TabStop(tabWidth));
      Nearest(line, visualCol, tabWidth, if visualCol - col <= stop - visualCol then i else next)
  {
    hide Search.Boundary, Visual, DecodeRune, Next;
    var next := i + DecodeRune(line[i..]).size;
    VisualStep(line, i, tabWidth);
    forall b: nat | Search.Boundary(line, b)
      ensures b < i ==> Visual(line, b, tabWidth) < Visual(line, i, tabWidth)
      ensures b > i ==> b >= next && Visual(line, b, tabWidth) >= Visual(line, next, tabWidth)
    {
      if b < i {
        VisualOrder(line, b, i, tabWidth);
      } else if b > i {
        VisualOrder(line, i, b, tabWidth);
        Search.NextBoundary(line, i, b);
      }
    }
  }

  /** At or past the last column, or left of the first. */
  lemma NearestEnds(line: Text, visualCol: int, tabWidth: int)
    ensures visualCol <= 0 ==> Nearest(line, visualCol, tabWidth, 0)
    ensures Search.Boundary(line, |line|) && visualCol >= Visual(line, |line|, tabWidth) ==>
      Nearest(line, visualCol, tabWidth, |line|)
  {
    hide Visual, DecodeRune;
    assert Search.Boundary(line, 0);
    hide Search.Boundary;
    assert Visual(line, 0, tabWidth) == 0 by { NothingShown(line, tabWidth); }
    forall b: nat | Search.Boundary(line, b) && b < |line| && Search.Boundary(line, |line|)
      ensures Visual(line, b, tabWidth) < Visual(line, |line|, tabWidth)
    {
      VisualOrder(line, b, |line|, tabWidth);
    }
    forall b: nat | Search.Boundary(line, b)
      ensures b <= |line|
      ensures b > 0 ==> Visual(line, b, tabWidth) > 0
    {
      Search.BoundaryInside(line, b);
      if b > 0 {
        VisualOrder(line, 0, b, tabWidth);
      }
    }
  }

  lemma NothingShown(line: Text, tabWidth: int)
    ensures Visual(line, 0, tabWidth) == 0
  {
  }

  // ----- the loops -----

  method VisualColumn(line: Text, byteCol0: int, tabWidth0: int) returns (col: nat)
    ensures col == Visual(line, byteCol0, tabWidth0)
  {
    hide DecodeRune, Next;
    var tabWidth := if tabWidth0 <= 0 then DEFAULT_TAB_WIDTH else tabWidth0;
    var byteCol := if byteCol0 > |line| then |line| else byteCol0;
    BeyondEnd(line, byteCol0, tabWidth, 0);
    col := 0;
    var i := 0;
    assert line[0..] == line;
    while i < byteCol
      invariant 0 <= i <= |line|
      invariant ColumnFrom(line[i..], byteCol - i, tabWidth, col) == ColumnFrom(line, byteCol, tabWidth, 0)
      decreases |line| - i
    {
      var d := DecodeRune(line[i..]);
      assert line[i..][d.size..] == line[i + d.size..];
      col := Next(col, d.rune, tabWidth);
      i := i + d.size;
    }
  }

  lemma {:induction false} BeyondEnd(line: Text, n: int, w: int, col: nat)
    requires w > 0
    ensures n > |line| ==> ColumnFrom(line, n, w, col) == ColumnFrom(line, |line|, w, col)
    decreases |line|
  {
    hide DecodeRune, Next;
    if line != [] && n > |line| {
      var d := DecodeRune(line);
      BeyondEnd(line[d.size..], n - d.size, w, Next(col, d.rune, w));
    }
  }

  method ByteColForVisual(line: Text, visualCol: int, tabWidth0: int) returns (r: nat)
    ensures Nearest(line, visualCol, tabWidth0, r)
  {
    hide Nearest, Visual, DecodeRune, Next, Search.Boundary;
    NearestEnds(line, visualCol, tabWidth0);
    var tabWidth := if tabWidth0 <= 0 then DEFAULT_TAB_WIDTH else tabWidth0;
    if visualCol <= 0 {
      return 0;
    }
    var col: nat := 0;
    var i: nat := 0;
    StartBoundary(line, tabWidth0);
    while i < |line|
      invariant i <= |line| && Search.Boundary(line, i)
      invariant col == Visual(line, i, tabWidth0) && col <= visualCol
      decreases |line| - i
    {
      var d := DecodeRune(line[i..]);
      var next := Next(col, d.rune, tabWidth);
      VisualStep(line, i, tabWidth0);
      if visualCol < next {
        NearestBetween(line, visualCol, tabWidth0, i);
      }
      if visualCol <= col {
        return i;
      }
      if visualCol < next {
        if visualCol - col <= next - visualCol {
          return i;
        }
        return i + d.size;
      }
      col := next;
      i := i + d.size;
    }
    return |line|;
  }

  lemma StartBoundary(line: Text, tabWidth: int)
    ensures Search.Boundary(line, 0) && Visual(line, 0, tabWidth) == 0
  {
  }
}
