/** Find in buffer (internal/editor/search.go).

    Case folding is any function `fold` that maps two runes to the same rune exactly
    when they fold to each other, which is how foldEqual uses unicode.SimpleFold. */
module Search {
  import opened Texts
  import opened Utf8
  import Lines

  type Folding = Rune -> Rune

  /** A half-open byte range. */
  datatype Span = Span(start: nat, end: nat)

  // ----- decoding any bytes -----

  /** The runes a decoder steps through, with a replacement for every bad byte. */
  function Decode(s: Text): seq<Rune> {
    if s == [] then [] else [DecodeRune(s).rune] + Decode(s[DecodeRune(s).size..])
  }

  /** The offsets a decoder stops at. */
  ghost predicate Boundary(s: Text, n: nat)
  {
    n <= |s| && (n == 0 || (DecodeRune(s).size <= n && Boundary(s[DecodeRune(s).size..], n - DecodeRune(s).size)))
  }

  lemma DecodeWithin(s: Text, n: nat)
    requires s != [] && DecodeRune(s).size <= n <= |s|
    ensures DecodeRune(s[..n]) == DecodeRune(s)
  {
    if DecodeRune(s).Invalid() {
      DecodeCut(s, n);
    } else {
      DecodePrefix(s, n);
    }
  }

  lemma DecodeCons(s: Text)
    requires s != []
    ensures Decode(s) == [DecodeRune(s).rune] + Decode(s[DecodeRune(s).size..])
  {
  }

  /** Decoding a prefix that reaches past the first rune starts with that rune. */
  lemma DecodeTake(s: Text, n: nat)
    requires s != [] && DecodeRune(s).size <= n <= |s|
    ensures var k := DecodeRune(s).size;
      Decode(s[..n]) == [DecodeRune(s).rune] + Decode(s[k..][..n - k])
  {
    hide DecodeRune, Decode;
    var k := DecodeRune(s).size;
    DecodeWithin(s, n);
    DecodeCons(s[..n]);
    assert s[..n][k..] == s[k..][..n - k];
  }

  lemma NothingDecoded()
    ensures Decode([]) == []
  {
  }

  lemma {:induction false} BoundariesAdd(s: Text, n: nat, m: nat)
    requires Boundary(s, n) && Boundary(s[n..], m)
    ensures Boundary(s, n + m)
  {
    hide DecodeRune;
    if n > 0 {
      var k := DecodeRune(s).size;
      assert s[n..] == s[k..][n - k..];
      BoundariesAdd(s[k..], n - k, m);
    } else {
      assert s[0..] == s;
    }
  }

  /** No boundary lies strictly inside a decoded rune. */
  lemma {:induction false} NextBoundary(s: Text, n: nat, m: nat)
    requires Boundary(s, n) && n < m && Boundary(s, m)
    ensures n + DecodeRune(s[n..]).size <= m
  {
    hide DecodeRune;
    if n > 0 {
      var k := DecodeRune(s).size;
      NextBoundary(s[k..], n - k, m - k);
      assert s[k..][n - k..] == s[n..];
    } else {
      assert s[0..] == s;
    }
  }

  // ----- folded prefixes -----

  function Folded(fold: Folding, rs: seq<Rune>): (r: seq<Rune>)
    ensures |r| == |rs|
  {
    seq(|rs|, i requires 0 <= i < |rs| => fold(rs[i]))
  }

  function FoldPrefix(fold: Folding, text: Text, query: Text): Option<nat>
    decreases |query|
  {
    if query == [] then Some(0)
    else if text == [] then None
    else
      var q, t := DecodeRune(query), DecodeRune(text);
      if fold(q.rune) != fold(t.rune) then None
      else match FoldPrefix(fold, text[t.size..], query[q.size..])
        case None => None
        case Some(n) => Some(t.size + n)
  }

  lemma ConsEqual(a: Rune, s: seq<Rune>, b: Rune, t: seq<Rune>)
    ensures [a] + s == [b] + t <==> a == b && s == t
  {
    assert ([a] + s)[1..] == s && ([b] + t)[1..] == t;
    assert ([a] + s)[0] == a && ([b] + t)[0] == b;
  }

  lemma FoldedCons(fold: Folding, r: Rune, rs: seq<Rune>)
    ensures Folded(fold, [r] + rs) == [fold(r)] + Folded(fold, rs)
  {
  }

  /** The first n bytes of the text are whole runes that fold to the query's. */
  ghost predicate FoldMatch(fold: Folding, text: Text, query: Text, n: nat) {
    Boundary(text, n) && Folded(fold, Decode(text[..n])) == Folded(fold, Decode(query))
  }

  /** The prefix found is that one, and it is found whenever there is one. */
  lemma {:induction false} FoldPrefixExact(fold: Folding, text: Text, query: Text, n: nat)
    ensures FoldPrefix(fold, text, query) == Some(n) <==> FoldMatch(fold, text, query, n)
    decreases |query|
  {
    hide DecodeRune, FoldMatch;
    if query == [] || text == [] {
      FoldNothing(fold, text, query, n);
    } else {
      var q, t := DecodeRune(query), DecodeRune(text);
      FoldStep(fold, text, query, n);
      if n >= t.size {
        FoldPrefixExact(fold, text[t.size..], query[q.size..], n - t.size);
      }
    }
  }

  lemma FoldNothing(fold: Folding, text: Text, query: Text, n: nat)
    requires query == [] || text == []
    ensures FoldMatch(fold, text, query, n) <==> query == [] && n == 0
  {
    hide DecodeRune;
    if n <= |text| {
      DecodeLength(text[..n]);
    }
    DecodeLength(query);
    assert text[..0] == [];
  }

  lemma DecodeLength(s: Text)
    ensures |Decode(s)| == 0 <==> s == []
  {
  }

  lemma FoldStep(fold: Folding, text: Text, query: Text, n: nat)
    requires text != [] && query != []
    ensures var q, t := DecodeRune(query), DecodeRune(text);
      FoldMatch(fold, text, query, n) <==>
      fold(q.rune) == fold(t.rune) && n >= t.size && FoldMatch(fold, text[t.size..], query[q.size..], n - t.size)
  {
    hide DecodeRune, Folded, Decode;
    var q, t := DecodeRune(query), DecodeRune(text);
    DecodeCons(query);
    FoldedCons(fold, q.rune, Decode(query[q.size..]));
    if n == 0 {
      NothingDecoded();
      assert text[..0] == [];
    } else if t.size <= n <= |text| {
      DecodeTake(text, n);
      FoldedCons(fold, t.rune, Decode(text[t.size..][..n - t.size]));
      ConsEqual(fold(t.rune), Folded(fold, Decode(text[t.size..][..n - t.size])),
                fold(q.rune), Folded(fold, Decode(query[q.size..])));
    }
  }

  // ----- the matches to report -----

  predicate OccursAt(text: Text, query: Text, at: nat) {
    at + |query| <= |text| && text[at..at + |query|] == query
  }

  /** Where a match may start: anywhere for exact bytes, at a decode boundary when
      folding. */
  ghost predicate MatchAt(text: Text, query: Text, fold: Option<Folding>, m: Span) {
    && m.start <= m.end <= |text|
    && match fold
       case None => m.end == m.start + |query| && OccursAt(text, query, m.start)
       case Some(f) => Boundary(text, m.start) && FoldMatch(f, text[m.start..], query, m.end - m.start)
  }

  ghost predicate Covers(spans: seq<Span>, at: nat) {
    exists i :: 0 <= i < |spans| && spans[i].start <= at < spans[i].end
  }

  /** Sound, disjoint and in order, and complete: whatever match starts before `upto`
      starts inside a reported one. */
  ghost predicate Reported(text: Text, query: Text, fold: Option<Folding>, spans: seq<Span>, upto: nat) {
    && (forall i :: 0 <= i < |spans| ==> MatchAt(text, query, fold, spans[i]) && spans[i].start < spans[i].end <= upto)
    && (forall i, j :: 0 <= i < j < |spans| ==> spans[i].end <= spans[j].start)
    && (forall m :: MatchAt(text, query, fold, m) && m.start < upto ==> Covers(spans, m.start))
  }

  /** Two matches at one place are the same match. */
  lemma MatchUnique(text: Text, query: Text, fold: Option<Folding>, m: Span, n: Span)
    requires MatchAt(text, query, fold, m) && MatchAt(text, query, fold, n) && m.start == n.start
    ensures m == n
  {
    hide Boundary, FoldMatch;
    match fold {
      case None =>
      case Some(f) =>
        FoldPrefixExact(f, text[m.start..], query, m.end - m.start);
        FoldPrefixExact(f, text[m.start..], query, n.end - n.start);
    }
  }

  /** The list to report is determined by those properties. */
  lemma {:induction false} ReportUnique(text: Text, query: Text, fold: Option<Folding>, a: seq<Span>, b: seq<Span>, k: nat)
    requires Reported(text, query, fold, a, |text|) && Reported(text, query, fold, b, |text|)
    requires k <= |a| && k <= |b| && a[..k] == b[..k]
    ensures a == b
    decreases |a| - k
  {
    hide MatchAt, Reported;
    if k < |a| {
      NextAgrees(text, query, fold, a, b, k);
    }
    if k < |b| {
      NextAgrees(text, query, fold, b, a, k);
    }
    if k < |a| {
      MatchesAre(text, query, fold, a, k);
      MatchesAre(text, query, fold, b, k);
      MatchUnique(text, query, fold, a[k], b[k]);
      assert a[..k + 1] == a[..k] + [a[k]] && b[..k + 1] == b[..k] + [b[k]];
      ReportUnique(text, query, fold, a, b, k + 1);
    } else {
      assert a == a[..k] && b == b[..k];
    }
  }

  lemma MatchesAre(text: Text, query: Text, fold: Option<Folding>, a: seq<Span>, k: nat)
    requires Reported(text, query, fold, a, |text|)
    ensures k < |a| ==> MatchAt(text, query, fold, a[k]) && a[k].start < a[k].end <= |text|
    ensures k < |a| ==> forall i :: 0 <= i < k ==> a[i].end <= a[k].start
    ensures forall i :: k < i < |a| ==> a[k].end <= a[i].start
  {
    hide MatchAt;
  }

  lemma ReportCovers(text: Text, query: Text, fold: Option<Folding>, b: seq<Span>, m: Span)
    requires Reported(text, query, fold, b, |text|) && MatchAt(text, query, fold, m) && m.start < |text|
    ensures Covers(b, m.start)
  {
    hide MatchAt;
  }

  /** Where `a` reports another match, so does `b`, no later. */
  lemma NextAgrees(text: Text, query: Text, fold: Option<Folding>, a: seq<Span>, b: seq<Span>, k: nat)
    requires Reported(text, query, fold, a, |text|) && Reported(text, query, fold, b, |text|)
    requires k < |a| && k <= |b| && a[..k] == b[..k]
    ensures k < |b| && b[k].start <= a[k].start
  {
    hide MatchAt, Reported;
    var m := a[k];
    MatchesAre(text, query, fold, a, k);
    MatchesAre(text, query, fold, b, k);
    forall i | 0 <= i < k ensures b[i].end <= m.start {
      assert b[..k][i] == a[..k][i] == a[i];
    }
    ReportCovers(text, query, fold, b, m);
    var i :| 0 <= i < |b| && b[i].start <= m.start < b[i].end;
  }

  // ----- the searches -----

  /** strings.Index from an offset on. */
  method IndexFrom(text: Text, query: Text, from: nat) returns (start: Option<nat>)
    requires from <= |text|
    ensures start.None? ==> forall i: nat :: from <= i <= |text| ==> !OccursAt(text, query, i)
    ensures start.Some? ==> from <= start.value && OccursAt(text, query, start.value)
    ensures start.Some? ==> forall i: nat :: from <= i < start.value ==> !OccursAt(text, query, i)
  {
    var i := from;
    while i + |query| <= |text|
      invariant from <= i
      invariant forall k: nat :: from <= k < i ==> !OccursAt(text, query, k)
    {
      if OccursAt(text, query, i) {
        return Some(i);
      }
      i := i + 1;
    }
    start := None;
  }

  /** foldPrefixLen. */
  method FoldPrefixLen(fold: Folding, text: Text, query: Text) returns (n: Option<nat>)
    ensures n == FoldPrefix(fold, text, query)
  {
    hide DecodeRune;
    var ti: nat, qi: nat := 0, 0;
    assert text[0..] == text && query[0..] == query;
    while qi < |query|
      invariant ti <= |text| && qi <= |query|
      invariant FoldPrefix(fold, text, query) ==
        match FoldPrefix(fold, text[ti..], query[qi..]) case None => None case Some(k) => Some(ti + k)
    {
      if ti >= |text| {
        return None;
      }
      var q, t := DecodeRune(query[qi..]), DecodeRune(text[ti..]);
      if fold(q.rune) != fold(t.rune) {
        return None;
      }
      assert text[ti..][t.size..] == text[ti + t.size..];
      assert query[qi..][q.size..] == query[qi + q.size..];
      qi := qi + q.size;
      ti := ti + t.size;
    }
    n := Some(ti);
  }

  /** The loop over exact occurrences. */
  method ExactSpans(text: Text, query: Text) returns (spans: seq<Span>)
    requires query != []
    ensures Reported(text, query, None, spans, |text|)
  {
    hide Reported, OccursAt;
    StartExact(text, query);
    spans := [];
    var from := 0;
    while true
      invariant from <= |text| && Reported(text, query, None, spans, from)
      decreases |text| - from
    {
      var i := IndexFrom(text, query, from);
      if i.None? {
        NoMoreExact(text, query, spans, from);
        return;
      }
      ExactFound(text, query, spans, from, i.value);
      spans := spans + [Span(i.value, i.value + |query|)];
      from := i.value + |query|;
    }
  }

  lemma StartExact(text: Text, query: Text)
    ensures Reported(text, query, None, [], 0)
  {
  }

  lemma NoMoreExact(text: Text, query: Text, spans: seq<Span>, from: nat)
    requires from <= |text| && Reported(text, query, None, spans, from)
    requires forall i: nat :: from <= i <= |text| ==> !OccursAt(text, query, i)
    ensures Reported(text, query, None, spans, |text|)
  {
    hide OccursAt;
  }

  lemma CoversMore(spans: seq<Span>, m: Span, at: nat)
    ensures Covers(spans + [m], at) <==> Covers(spans, at) || m.start <= at < m.end
  {
    if Covers(spans, at) {
      var i :| 0 <= i < |spans| && spans[i].start <= at < spans[i].end;
      assert (spans + [m])[i] == spans[i];
    }
    if m.start <= at < m.end {
      assert (spans + [m])[|spans|] == m;
    }
  }

  lemma ExactFound(text: Text, query: Text, spans: seq<Span>, from: nat, s: nat)
    requires query != [] && from <= s && OccursAt(text, query, s) && Reported(text, query, None, spans, from)
    requires forall i: nat :: from <= i < s ==> !OccursAt(text, query, i)
    ensures s + |query| <= |text|
    ensures Reported(text, query, None, spans + [Span(s, s + |query|)], s + |query|)
  {
    assert s + |query| <= |text|;
    hide OccursAt;
    var m := Span(s, s + |query|);
    forall x | MatchAt(text, query, None, x) && x.start < s + |query| ensures Covers(spans + [m], x.start) {
      CoversMore(spans, m, x.start);
    }
  }

  /** The loop over folded occurrences. */
  method FoldedSpans(fold: Folding, text: Text, query: Text) returns (spans: seq<Span>)
    requires query != []
    ensures Reported(text, query, Some(fold), spans, |text|)
  {
    hide Reported, DecodeRune, FoldPrefix, Boundary;
    spans := [];
    var i := 0;
    StartFolded(fold, text, query);
    while i < |text|
      invariant i <= |text| && Boundary(text, i) && Reported(text, query, Some(fold), spans, i)
      decreases |text| - i
    {
      var n := FoldPrefixLen(fold, text[i..], query);
      FoldedStep(fold, text, query, spans, i);
      if n.Some? {
        spans := spans + [Span(i, i + n.value)];
        i := i + n.value;
      } else {
        i := i + DecodeRune(text[i..]).size;
      }
    }
  }

  lemma StartFolded(fold: Folding, text: Text, query: Text)
    ensures Boundary(text, 0) && Reported(text, query, Some(fold), [], 0)
  {
  }

  /** One turn of the folded loop. */
  lemma FoldedStep(fold: Folding, text: Text, query: Text, spans: seq<Span>, i: nat)
    requires query != [] && i < |text| && Boundary(text, i) && Reported(text, query, Some(fold), spans, i)
    ensures match FoldPrefix(fold, text[i..], query)
      case Some(n) => 0 < n <= |text| - i && Boundary(text, i + n)
        && Reported(text, query, Some(fold), spans + [Span(i, i + n)], i + n)
      case None => var size := DecodeRune(text[i..]).size;
        Boundary(text, i + size) && Reported(text, query, Some(fold), spans, i + size)
  {
    hide Boundary, DecodeRune, FoldPrefix, FoldMatch, Reported;
    match FoldPrefix(fold, text[i..], query) {
      case Some(n) => FoldedFound(fold, text, query, spans, i, n);
      case None => FoldedMissed(fold, text, query, spans, i);
    }
  }

  lemma FoldedFound(fold: Folding, text: Text, query: Text, spans: seq<Span>, i: nat, n: nat)
    requires query != [] && i < |text| && Boundary(text, i) && Reported(text, query, Some(fold), spans, i)
    requires FoldPrefix(fold, text[i..], query) == Some(n)
    ensures 0 < n <= |text| - i && Boundary(text, i + n)
    ensures Reported(text, query, Some(fold), spans + [Span(i, i + n)], i + n)
  {
    hide DecodeRune, FoldPrefix, Boundary, Decode;
    FoldPrefixExact(fold, text[i..], query, n);
    BoundaryInside(text[i..], n);
    FoldedNotEmpty(fold, text[i..], query, n);
    BoundariesAdd(text, i, n);
    FoldedReported(fold, text, query, spans, i, n);
  }

  lemma BoundaryInside(s: Text, n: nat)
    requires Boundary(s, n)
    ensures n <= |s|
  {
  }

  lemma FoldedNotEmpty(fold: Folding, text: Text, query: Text, n: nat)
    requires query != [] && FoldMatch(fold, text, query, n)
    ensures n > 0
  {
    hide DecodeRune;
    DecodeLength(query);
    DecodeLength(text[..n]);
  }

  lemma FoldedReported(fold: Folding, text: Text, query: Text, spans: seq<Span>, i: nat, n: nat)
    requires Boundary(text, i) && 0 < n <= |text| - i && Reported(text, query, Some(fold), spans, i)
    requires FoldMatch(fold, text[i..], query, n)
    ensures Reported(text, query, Some(fold), spans + [Span(i, i + n)], i + n)
  {
    hide Boundary, FoldMatch;
    var m := Span(i, i + n);
    forall x | MatchAt(text, query, Some(fold), x) && x.start < i + n ensures Covers(spans + [m], x.start) {
      CoversMore(spans, m, x.start);
    }
  }

  lemma FoldedMissed(fold: Folding, text: Text, query: Text, spans: seq<Span>, i: nat)
    requires i < |text| && Boundary(text, i) && Reported(text, query, Some(fold), spans, i)
    requires FoldPrefix(fold, text[i..], query) == None
    ensures var size := DecodeRune(text[i..]).size;
      Boundary(text, i + size) && Reported(text, query, Some(fold), spans, i + size)
  {
    hide DecodeRune, FoldPrefix, Boundary, FoldMatch;
    var size := DecodeRune(text[i..]).size;
    OneRune(text[i..]);
    BoundariesAdd(text, i, size);
    forall x | MatchAt(text, query, Some(fold), x) && x.start < i + size ensures Covers(spans, x.start) {
      if x.start == i {
        FoldPrefixExact(fold, text[i..], query, x.end - x.start);
      } else if x.start > i {
        NextBoundary(text, i, x.start);
      }
    }
  }

  lemma OneRune(s: Text)
    requires s != []
    ensures Boundary(s, DecodeRune(s).size)
  {
    hide DecodeRune;
    assert Boundary(s[DecodeRune(s).size..], 0);
  }

  ghost function RangesOf(text: Text, spans: seq<Span>): seq<Range>
    requires forall i :: 0 <= i < |spans| ==> spans[i].start <= spans[i].end <= |text|
  {
    seq(|spans|, i requires 0 <= i < |spans| => Range(PosAt(text, spans[i].start), PosAt(text, spans[i].end)))
  }

  /** The ranges are those of exactly the matches to report. */
  ghost predicate Answers(text: Text, query: Text, fold: Option<Folding>, matches: seq<Range>) {
    exists spans: seq<Span> :: AnsweredBy(text, query, fold, matches, spans)
  }

  ghost predicate AnsweredBy(text: Text, query: Text, fold: Option<Folding>, matches: seq<Range>, spans: seq<Span>) {
    && Reported(text, query, fold, spans, |text|)
    && (forall i :: 0 <= i < |spans| ==> spans[i].start < spans[i].end <= |text|)
    && matches == RangesOf(text, spans)
  }

  /** There is only one right answer, and it is in document order. */
  lemma AnswerUnique(text: Text, query: Text, fold: Option<Folding>, a: seq<Range>, b: seq<Range>)
    requires Answers(text, query, fold, a) && Answers(text, query, fold, b)
    ensures a == b && InOrder(a)
  {
    hide Reported;
    var s: seq<Span> :| AnsweredBy(text, query, fold, a, s);
    var t: seq<Span> :| AnsweredBy(text, query, fold, b, t);
    assert s[..0] == [] && t[..0] == [];
    ReportUnique(text, query, fold, s, t, 0);
    FoundInOrder(text, query, fold, s);
  }

  /** FindAll. An empty query has no matches. */
  method FindAll(text: Text, query: Text, fold: Option<Folding>) returns (matches: seq<Range>)
    ensures if query == [] then matches == [] else Answers(text, query, fold, matches)
  {
    hide Reported;
    if query == [] {
      return [];
    }
    var found;
    match fold {
      case None => found := ExactSpans(text, query);
      case Some(f) => found := FoldedSpans(f, text, query);
    }
    ReportedInside(text, query, fold, found);
    if |found| == 0 {
      assert AnsweredBy(text, query, fold, [], found);
      return [];
    }
    var lineStarts := Lines.SnapshotLineStarts(text);
    matches := [];
    while |matches| < |found|
      invariant |matches| <= |found|
      invariant forall i :: 0 <= i < |matches| ==>
        matches[i] == Range(PosAt(text, found[i].start), PosAt(text, found[i].end))
    {
      var s := found[|matches|];
      var start := Lines.SnapshotPosition(lineStarts, s.start, text);
      var end := Lines.SnapshotPosition(lineStarts, s.end, text);
      matches := matches + [Range(start, end)];
    }
    assert AnsweredBy(text, query, fold, matches, found);
  }

  lemma ReportedInside(text: Text, query: Text, fold: Option<Folding>, spans: seq<Span>)
    requires Reported(text, query, fold, spans, |text|)
    ensures forall i :: 0 <= i < |spans| ==> spans[i].start < spans[i].end <= |text|
  {
    hide MatchAt;
  }

  // ----- stepping through the matches -----

  ghost predicate InOrder(matches: seq<Range>) {
    forall i, j :: 0 <= i < j < |matches| ==> matches[i].start.LessThan(matches[j].start)
  }

  /** The ranges of reported matches are in document order. */
  lemma FoundInOrder(text: Text, query: Text, fold: Option<Folding>, spans: seq<Span>)
    requires Reported(text, query, fold, spans, |text|)
    requires forall i :: 0 <= i < |spans| ==> spans[i].start <= spans[i].end <= |text|
    ensures InOrder(RangesOf(text, spans))
  {
    hide MatchAt;
    forall i, j | 0 <= i < j < |spans| ensures PosAt(text, spans[i].start).LessThan(PosAt(text, spans[j].start)) {
      PosAtOrder(text, spans[i].start, spans[j].start);
    }
  }

  /** NextMatch: the nearest match strictly in the direction asked for, or the one at
      the far end when there is none. */
  method NextMatch(matches: seq<Range>, from: Position, backward: bool) returns (r: Option<Range>)
    requires InOrder(matches)
    ensures r.None? <==> matches == []
    ensures r.Some? ==> r.value in matches
    ensures r.Some? && !backward && (exists m :: m in matches && from.LessThan(m.start)) ==>
      from.LessThan(r.value.start) && forall m :: m in matches && from.LessThan(m.start) ==> r.value.start.AtMost(m.start)
    ensures r.Some? && !backward && !(exists m :: m in matches && from.LessThan(m.start)) ==> r.value == matches[0]
    ensures r.Some? && backward && (exists m :: m in matches && m.start.LessThan(from)) ==>
      r.value.start.LessThan(from) && forall m :: m in matches && m.start.LessThan(from) ==> m.start.AtMost(r.value.start)
    ensures r.Some? && backward && !(exists m :: m in matches && m.start.LessThan(from)) ==> r.value == matches[|matches| - 1]
  {
    if |matches| == 0 {
      return None;
    }
    if backward {
      var i := |matches| - 1;
      while i >= 0
        invariant -1 <= i < |matches|
        invariant forall k :: i < k < |matches| ==> !matches[k].start.LessThan(from)
      {
        if matches[i].start.LessThan(from) {
          return Some(matches[i]);
        }
        i := i - 1;
      }
      return Some(matches[|matches| - 1]);
    }
    var i := 0;
    while i < |matches|
      invariant 0 <= i <= |matches|
      invariant forall k :: 0 <= k < i ==> !from.LessThan(matches[k].start)
    {
      if from.LessThan(matches[i].start) {
        return Some(matches[i]);
      }
      i := i + 1;
    }
    return Some(matches[0]);
  }
}
