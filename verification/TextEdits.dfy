/** A batch of server edits (internal/lsp/text_edits.go).

    The source translates every range against the original text, sorts by start,
    compares neighbours and then edits the buffer from back to front. The meaning
    is `Substituted`: all ranges of the original text replaced at once, a
    definition that knows nothing of order or of intermediate texts. */
module TextEdits {
  import opened Texts
  import opened Lines
  import opened LspPositions
  import opened Buffers

  datatype TextEdit = TextEdit(range: LspRange, newText: Text)

  datatype ByteEdit = ByteEdit(index: nat, range: Range, newText: Text)

  /** An edit in byte offsets of the original text. */
  datatype Patch = Patch(s: nat, e: nat, w: Text)

  datatype ApplyResult = Done | BadPosition(index: nat) | Reversed(index: nat) | Overlap(first: nat, second: nat)

  // ----- the meaning of a batch -----

  ghost predicate PatchesOf(t: Text, m: map<nat, Patch>) {
    forall i :: i in m ==> m[i].s == i && i <= m[i].e <= |t|
  }

  /** `t` from byte `i` on, with every patch of `m` starting there or later put in
      the place of its bytes. */
  ghost function Substituted(t: Text, m: map<nat, Patch>, i: nat): Text
    requires PatchesOf(t, m) && i <= |t|
    decreases |t| - i
  {
    if i in m && m[i].e > i then m[i].w + Substituted(t, m, m[i].e)
    else if i < |t| then InsertedAt(m, i) + [t[i]] + Substituted(t, m, i + 1)
    else InsertedAt(m, i)
  }

  ghost function InsertedAt(m: map<nat, Patch>, i: nat): Text {
    if i in m then m[i].w else []
  }

  ghost predicate Located(t: Text, b: ByteEdit) {
    && OffsetOf(t, b.range.start).Offset? && OffsetOf(t, b.range.end).Offset?
    && b.range.start.AtMost(b.range.end)
  }

  ghost function PatchOf(t: Text, b: ByteEdit): Patch
    requires Located(t, b)
  {
    Patch(OffsetOf(t, b.range.start).off, OffsetOf(t, b.range.end).off, b.newText)
  }

  ghost predicate AllLocated(t: Text, bs: seq<ByteEdit>) {
    forall i :: 0 <= i < |bs| ==> Located(t, bs[i])
  }

  /** The patches of the edits by start. */
  ghost function PatchMap(t: Text, bs: seq<ByteEdit>): (m: map<nat, Patch>)
    requires AllLocated(t, bs)
    ensures PatchesOf(t, m)
  {
    if bs == [] then map[]
    else
      PatchBounds(t, bs[0]);
      var p := PatchOf(t, bs[0]);
      PatchMap(t, bs[1..])[p.s := p]
  }

  lemma PatchBounds(t: Text, b: ByteEdit)
    requires Located(t, b)
    ensures var p := PatchOf(t, b);
      p.s <= p.e <= |t| && b.range == Range(PosAt(t, p.s), PosAt(t, p.e))
    ensures PatchOf(t, b).s == PatchOf(t, b).e <==> b.range.Empty()
  {
    hide OffsetOf;
    var p := PatchOf(t, b);
    OffsetExact(t, b.range.start, p.s);
    OffsetExact(t, b.range.end, p.e);
    PosAtOrder(t, p.s, p.e);
    PosAtOrder(t, p.e, p.s);
  }

  /** Two edits do not touch each other: different starts, and one ends before the
      other begins. */
  ghost predicate Apart(p: Patch, q: Patch) {
    p.s != q.s && (p.e <= q.s || q.e <= p.s)
  }

  ghost predicate PairwiseApart(t: Text, bs: seq<ByteEdit>)
    requires AllLocated(t, bs)
  {
    forall i, j :: 0 <= i < j < |bs| ==> Apart(PatchOf(t, bs[i]), PatchOf(t, bs[j]))
  }

  // ----- order does not matter -----

  lemma {:induction false} PatchMapContents(t: Text, bs: seq<ByteEdit>)
    requires AllLocated(t, bs) && PairwiseApart(t, bs)
    ensures forall i :: 0 <= i < |bs| ==>
      PatchOf(t, bs[i]).s in PatchMap(t, bs) && PatchMap(t, bs)[PatchOf(t, bs[i]).s] == PatchOf(t, bs[i])
    ensures forall s :: s in PatchMap(t, bs) ==>
      exists i :: 0 <= i < |bs| && PatchOf(t, bs[i]).s == s
  {
    hide Located;
    if bs != [] {
      var rest := bs[1..];
      assert forall i :: 0 <= i < |rest| ==> rest[i] == bs[i + 1];
      PatchMapContents(t, rest);
      forall s | s in PatchMap(t, bs) ensures exists i :: 0 <= i < |bs| && PatchOf(t, bs[i]).s == s {
        if s == PatchOf(t, bs[0]).s {
        } else {
          var i :| 0 <= i < |rest| && PatchOf(t, rest[i]).s == s;
          assert PatchOf(t, bs[i + 1]).s == s;
        }
      }
      forall i | 0 <= i < |bs|
        ensures PatchOf(t, bs[i]).s in PatchMap(t, bs) && PatchMap(t, bs)[PatchOf(t, bs[i]).s] == PatchOf(t, bs[i])
      {
        if i > 0 { assert bs[i] == rest[i - 1]; }
      }
    }
  }

  ghost predicate HasPatch(t: Text, bs: seq<ByteEdit>, p: Patch)
    requires AllLocated(t, bs)
  {
    exists i :: 0 <= i < |bs| && PatchOf(t, bs[i]) == p
  }

  /** Any two lists of the same patches mean the same batch. */
  lemma SamePatchesSameMap(t: Text, bs: seq<ByteEdit>, cs: seq<ByteEdit>)
    requires AllLocated(t, bs) && AllLocated(t, cs) && PairwiseApart(t, bs) && PairwiseApart(t, cs)
    requires forall i :: 0 <= i < |bs| ==> HasPatch(t, cs, PatchOf(t, bs[i]))
    requires forall i :: 0 <= i < |cs| ==> HasPatch(t, bs, PatchOf(t, cs[i]))
    ensures PatchMap(t, bs) == PatchMap(t, cs)
  {
    hide Located, PatchOf, PatchMap;
    PatchMapContents(t, bs);
    PatchMapContents(t, cs);
    forall s | s in PatchMap(t, bs) ensures s in PatchMap(t, cs) && PatchMap(t, cs)[s] == PatchMap(t, bs)[s] {
      var i :| 0 <= i < |bs| && PatchOf(t, bs[i]).s == s;
      assert HasPatch(t, cs, PatchOf(t, bs[i]));
    }
    forall s | s in PatchMap(t, cs) ensures s in PatchMap(t, bs) {
      var i :| 0 <= i < |cs| && PatchOf(t, cs[i]).s == s;
      assert HasPatch(t, bs, PatchOf(t, cs[i]));
    }
  }

  // ----- back to front -----

  lemma KeepByte(t: Text, m: map<nat, Patch>, i: nat)
    requires PatchesOf(t, m) && i < |t| && i !in m
    ensures Substituted(t, m, i) == [t[i]] + Substituted(t, m, i + 1)
  {
  }

  lemma {:induction false} UntouchedPrefix(t: Text, m: map<nat, Patch>, i: nat, x: nat)
    requires PatchesOf(t, m) && i <= x <= |t|
    requires forall k :: k in m && k >= i ==> k >= x
    ensures Substituted(t, m, i) == t[i..x] + Substituted(t, m, x)
    decreases x - i
  {
    hide Substituted;
    if i < x {
      UntouchedPrefix(t, m, i + 1, x);
      KeepByte(t, m, i);
      assert t[i..x] == [t[i]] + t[i + 1..x];
    }
  }

  /** Only patches at or behind `i` matter from `i` on. */
  lemma {:induction false} OnlyLaterMatter(t: Text, m: map<nat, Patch>, m': map<nat, Patch>, i: nat)
    requires PatchesOf(t, m) && PatchesOf(t, m') && i <= |t|
    requires forall k :: k >= i ==> (k in m <==> k in m') && (k in m ==> m[k] == m'[k])
    ensures Substituted(t, m, i) == Substituted(t, m', i)
    decreases |t| - i
  {
    if i in m && m[i].e > i {
      OnlyLaterMatter(t, m, m', m[i].e);
    } else if i < |t| {
      OnlyLaterMatter(t, m, m', i + 1);
    }
  }

  /** One backward step: applying a patch in front of all others to the text the
      others already changed is the same as adding it to the simultaneous batch. */
  lemma AddFrontPatch(t: Text, m: map<nat, Patch>, p: Patch)
    requires PatchesOf(t, m) && p.s <= p.e <= |t|
    requires forall k :: k in m ==> k > p.s && k >= p.e
    ensures PatchesOf(t, m[p.s := p])
    ensures var later := Substituted(t, m, 0);
      && p.e <= |later| && later[..p.e] == t[..p.e]
      && Substituted(t, m[p.s := p], 0) == Splice(later, p.s, p.e, p.w)
  {
    hide PatchesOf, Substituted;
    var m' := m[p.s := p];
    FrontPatches(t, m, p);
    var later := Substituted(t, m, 0);
    var tail := Substituted(t, m, p.e);
    UntouchedPrefix(t, m, 0, p.e);
    UntouchedPrefix(t, m', 0, p.s);
    PatchAtFront(t, m, p);
    assert later == t[..p.e] + tail;
    assert later[p.e..] == tail && later[..p.s] == t[..p.s];
  }

  lemma PatchAtFront(t: Text, m: map<nat, Patch>, p: Patch)
    requires PatchesOf(t, m) && PatchesOf(t, m[p.s := p]) && p.s <= p.e <= |t|
    requires forall k :: k in m ==> k > p.s && k >= p.e
    ensures Substituted(t, m[p.s := p], p.s) == p.w + Substituted(t, m, p.e)
  {
    hide PatchesOf;
    var m' := m[p.s := p];
    if p.e > p.s {
      OnlyLaterMatter(t, m', m, p.e);
    } else if p.s < |t| {
      OnlyLaterMatter(t, m', m, p.s + 1);
      KeepByte(t, m, p.s);
    }
  }

  lemma FrontPatches(t: Text, m: map<nat, Patch>, p: Patch)
    requires PatchesOf(t, m) && p.s <= p.e <= |t|
    ensures PatchesOf(t, m[p.s := p])
  {
  }

  lemma {:induction false} EmptyBatch(t: Text, i: nat)
    requires i <= |t|
    ensures Substituted(t, map[], i) == t[i..]
    decreases |t| - i
  {
    if i < |t| {
      EmptyBatch(t, i + 1);
    }
  }

  // ----- sort.SliceStable by start -----

  function InsertByStart(b: ByteEdit, sorted: seq<ByteEdit>): seq<ByteEdit> {
    if sorted == [] then [b]
    else if sorted[0].range.start.LessThan(b.range.start) then [sorted[0]] + InsertByStart(b, sorted[1..])
    else [b] + sorted
  }

  function SortByStart(bs: seq<ByteEdit>): seq<ByteEdit> {
    if bs == [] then [] else InsertByStart(bs[0], SortByStart(bs[1..]))
  }

  ghost predicate Sorted(bs: seq<ByteEdit>) {
    forall i, j :: 0 <= i < j < |bs| ==> bs[i].range.start.AtMost(bs[j].range.start)
  }

  lemma {:induction false} InsertByStartSorts(b: ByteEdit, sorted: seq<ByteEdit>)
    requires Sorted(sorted)
    ensures Sorted(InsertByStart(b, sorted))
    ensures multiset(InsertByStart(b, sorted)) == multiset(sorted) + multiset{b}
  {
    var r := InsertByStart(b, sorted);
    if sorted == [] {
    } else if sorted[0].range.start.LessThan(b.range.start) {
      var rest := sorted[1..];
      InsertByStartSorts(b, rest);
      var tail := InsertByStart(b, rest);
      assert sorted == [sorted[0]] + rest;
      forall j | 0 <= j < |tail| ensures sorted[0].range.start.AtMost(tail[j].range.start) {
        assert tail[j] in multiset(tail);
        if tail[j] != b {
          assert tail[j] in rest;
        }
      }
    } else {
      forall j | 0 <= j < |sorted| ensures b.range.start.AtMost(sorted[j].range.start) {
        assert sorted[0].range.start.AtMost(sorted[j].range.start);
      }
    }
  }

  lemma {:induction false} SortByStartSorts(bs: seq<ByteEdit>)
    ensures Sorted(SortByStart(bs)) && multiset(SortByStart(bs)) == multiset(bs)
  {
    if bs != [] {
      SortByStartSorts(bs[1..]);
      InsertByStartSorts(bs[0], SortByStart(bs[1..]));
      assert bs == [bs[0]] + bs[1..];
    }
  }

  /** Edits that start at the same place keep the order of the list. */
  ghost predicate StableOrder(bs: seq<ByteEdit>) {
    forall i, j :: 0 <= i < j < |bs| && bs[i].range.start == bs[j].range.start ==> bs[i].index < bs[j].index
  }

  lemma {:induction false} InsertKeepsStable(b: ByteEdit, sorted: seq<ByteEdit>)
    requires StableOrder(sorted) && forall x :: x in sorted ==> b.index < x.index
    ensures StableOrder(InsertByStart(b, sorted))
    ensures forall x :: x in InsertByStart(b, sorted) ==> x == b || x in sorted
  {
    if sorted != [] && sorted[0].range.start.LessThan(b.range.start) {
      var rest := sorted[1..];
      InsertKeepsStable(b, rest);
      var tail := InsertByStart(b, rest);
      forall j | 0 <= j < |tail| && tail[j].range.start == sorted[0].range.start ensures sorted[0].index < tail[j].index {
        assert tail[j] in tail;
        assert tail[j] in rest;
        var k :| 0 <= k < |rest| && rest[k] == tail[j];
        assert sorted[k + 1] == tail[j];
      }
    }
  }

  /** The sort is stable. */
  lemma {:induction false} SortByStartStable(bs: seq<ByteEdit>)
    requires forall i, j :: 0 <= i < j < |bs| ==> bs[i].index < bs[j].index
    ensures StableOrder(SortByStart(bs))
    ensures forall x :: x in SortByStart(bs) ==> x in bs
  {
    if bs != [] {
      var rest := bs[1..];
      SortByStartStable(rest);
      forall x | x in SortByStart(rest) ensures bs[0].index < x.index {
        var k :| 0 <= k < |rest| && rest[k] == x;
        assert bs[k + 1] == x;
      }
      InsertKeepsStable(bs[0], SortByStart(rest));
    }
  }

  // ----- neighbours suffice -----

  ghost predicate NeighboursApart(bs: seq<ByteEdit>) {
    forall i :: 0 < i < |bs| ==>
      bs[i - 1].range.end.AtMost(bs[i].range.start) && bs[i].range.start != bs[i - 1].range.start
  }

  ghost predicate Ascending(t: Text, bs: seq<ByteEdit>)
    requires AllLocated(t, bs)
  {
    forall i, j :: 0 <= i < j < |bs| ==>
      PatchOf(t, bs[i]).s < PatchOf(t, bs[j]).s && PatchOf(t, bs[i]).e <= PatchOf(t, bs[j]).s
  }

  lemma PatchOrder(t: Text, b: ByteEdit, c: ByteEdit)
    requires Located(t, b) && Located(t, c)
    ensures b.range.end.AtMost(c.range.start) <==> PatchOf(t, b).e <= PatchOf(t, c).s
    ensures b.range.start.AtMost(c.range.start) <==> PatchOf(t, b).s <= PatchOf(t, c).s
    ensures b.range.start == c.range.start <==> PatchOf(t, b).s == PatchOf(t, c).s
  {
    hide Located, PatchOf;
    PatchBounds(t, b);
    PatchBounds(t, c);
    var p, q := PatchOf(t, b), PatchOf(t, c);
    PosAtOrder(t, p.e, q.s);
    PosAtOrder(t, p.s, q.s);
  }

  /** Checking adjacent pairs of the sorted list decides whether all pairs are apart. */
  lemma NeighboursDecide(t: Text, bs: seq<ByteEdit>)
    requires AllLocated(t, bs) && Sorted(bs)
    ensures NeighboursApart(bs) <==> PairwiseApart(t, bs)
    ensures NeighboursApart(bs) ==> Ascending(t, bs)
  {
    hide Located, PatchOf;
    if NeighboursApart(bs) {
      NeighboursAscend(t, bs, |bs|);
    }
    if PairwiseApart(t, bs) {
      forall i | 0 < i < |bs|
        ensures bs[i - 1].range.end.AtMost(bs[i].range.start) && bs[i].range.start != bs[i - 1].range.start
      {
        PatchOrder(t, bs[i - 1], bs[i]);
        PatchBounds(t, bs[i]);
        assert Apart(PatchOf(t, bs[i - 1]), PatchOf(t, bs[i]));
      }
    }
  }

  lemma {:induction false} NeighboursAscend(t: Text, bs: seq<ByteEdit>, n: nat)
    requires AllLocated(t, bs) && Sorted(bs) && NeighboursApart(bs) && n <= |bs|
    ensures forall i, j :: 0 <= i < j < n ==>
      PatchOf(t, bs[i]).s < PatchOf(t, bs[j]).s && PatchOf(t, bs[i]).e <= PatchOf(t, bs[j]).s
  {
    hide Located, PatchOf;
    if n > 1 {
      NeighboursAscend(t, bs, n - 1);
      PatchOrder(t, bs[n - 2], bs[n - 1]);
    }
  }

  lemma {:induction false} PermutedApart(t: Text, bs: seq<ByteEdit>, cs: seq<ByteEdit>)
    requires AllLocated(t, bs) && multiset(bs) == multiset(cs)
    requires PairwiseApart(t, bs)
    ensures AllLocated(t, cs) && PairwiseApart(t, cs)
  {
    hide Located, PatchOf;
    assert forall i :: 0 <= i < |cs| ==> cs[i] in multiset(bs);
    forall i, j | 0 <= i < j < |cs| ensures Apart(PatchOf(t, cs[i]), PatchOf(t, cs[j])) {
      assert cs[i] in bs && cs[j] in bs;
      var a :| 0 <= a < |bs| && bs[a] == cs[i];
      var b :| 0 <= b < |bs| && bs[b] == cs[j];
      if a == b {
        RepeatedElement(cs, i, j);
        assert multiset(bs)[bs[a]] >= 2;
        UniqueInApart(t, bs, a);
      } else if a < b {
        assert Apart(PatchOf(t, bs[a]), PatchOf(t, bs[b]));
      } else {
        assert Apart(PatchOf(t, bs[b]), PatchOf(t, bs[a]));
      }
    }
  }

  lemma RepeatedElement<T>(cs: seq<T>, i: nat, j: nat)
    requires i < j < |cs| && cs[i] == cs[j]
    ensures multiset(cs)[cs[i]] >= 2
  {
    assert cs == cs[..j] + cs[j..];
    assert cs[i] == cs[..j][i] && cs[j] == cs[j..][0];
  }

  lemma UniqueInApart(t: Text, bs: seq<ByteEdit>, a: nat)
    requires AllLocated(t, bs) && PairwiseApart(t, bs) && a < |bs|
    ensures multiset(bs)[bs[a]] == 1
  {
    hide Located, PatchOf;
    var b := bs[a];
    assert bs == bs[..a] + [b] + bs[a + 1..];
    forall k | 0 <= k < a ensures bs[k] != b {
      assert Apart(PatchOf(t, bs[k]), PatchOf(t, bs[a]));
    }
    forall k | a < k < |bs| ensures bs[k] != b {
      assert Apart(PatchOf(t, bs[a]), PatchOf(t, bs[k]));
    }
    assert b !in bs[..a] && b !in bs[a + 1..];
  }

  // ----- the method -----

  ghost predicate Translates(t: Text, edit: TextEdit) {
    RangeFromLsp(t, edit.range).Converted? &&
    RangeFromLsp(t, edit.range).value.start.AtMost(RangeFromLsp(t, edit.range).value.end)
  }

  ghost function Translate(t: Text, edit: TextEdit, index: nat): ByteEdit
    requires Translates(t, edit)
  {
    ByteEdit(index, RangeFromLsp(t, edit.range).value, edit.newText)
  }

  ghost function TranslateAll(t: Text, edits: seq<TextEdit>): (bs: seq<ByteEdit>)
    requires forall i :: 0 <= i < |edits| ==> Translates(t, edits[i])
    ensures |bs| == |edits| && forall i :: 0 <= i < |edits| ==> bs[i] == Translate(t, edits[i], i)
    ensures AllLocated(t, bs)
  {
    var bs := seq(|edits|, i requires 0 <= i < |edits| => Translate(t, edits[i], i));
    TranslatedLocated(t, edits, bs);
    bs
  }

  lemma TranslatedLocated(t: Text, edits: seq<TextEdit>, bs: seq<ByteEdit>)
    requires |bs| == |edits|
    requires forall i :: 0 <= i < |edits| ==> Translates(t, edits[i]) && bs[i] == Translate(t, edits[i], i)
    ensures AllLocated(t, bs)
  {
    hide FromLsp, OffsetOf;
    forall i | 0 <= i < |bs| ensures Located(t, bs[i]) {
      FromLspIsValid(t, edits[i].range.start);
      FromLspIsValid(t, edits[i].range.end);
    }
  }

  /** The batch is acceptable: every range converts and is not reversed, and all
      edits are pairwise apart. */
  ghost predicate Acceptable(t: Text, edits: seq<TextEdit>) {
    (forall i :: 0 <= i < |edits| ==> Translates(t, edits[i])) && PairwiseApart(t, TranslateAll(t, edits))
  }

  ghost function BatchResult(t: Text, edits: seq<TextEdit>): Text
    requires Acceptable(t, edits)
  {
    Substituted(t, PatchMap(t, TranslateAll(t, edits)), 0)
  }

  /** The order of the list does not matter: the same edits in another order are
      accepted alike and leave the same text. */
  lemma OrderDoesNotMatter(t: Text, edits: seq<TextEdit>, other: seq<TextEdit>, perm: seq<nat>, inverse: seq<nat>)
    requires |edits| == |other| == |perm| == |inverse|
    requires forall i :: 0 <= i < |edits| ==> perm[i] < |edits| && other[i] == edits[perm[i]]
    requires forall i :: 0 <= i < |edits| ==> inverse[i] < |edits| && perm[inverse[i]] == i && inverse[perm[i]] == i
    requires Acceptable(t, edits)
    ensures Acceptable(t, other) && BatchResult(t, other) == BatchResult(t, edits)
  {
    hide Translates, Located, PatchOf, PatchMap, Substituted;
    var bs := TranslateAll(t, edits);
    assert forall i :: 0 <= i < |other| ==> Translates(t, other[i]);
    var cs := TranslateAll(t, other);
    assert forall i :: 0 <= i < |other| ==> SamePlace(cs[i], bs[perm[i]]);
    forall i | 0 <= i < |cs| ensures PatchOf(t, cs[i]) == PatchOf(t, bs[perm[i]]) {
      SamePlacePatch(t, cs[i], bs[perm[i]]);
    }
    forall i, j | 0 <= i < j < |cs| ensures Apart(PatchOf(t, cs[i]), PatchOf(t, cs[j])) {
      assert perm[i] != perm[j] by { assert inverse[perm[i]] == i && inverse[perm[j]] == j; }
      if perm[i] < perm[j] {
        assert Apart(PatchOf(t, bs[perm[i]]), PatchOf(t, bs[perm[j]]));
      } else {
        assert Apart(PatchOf(t, bs[perm[j]]), PatchOf(t, bs[perm[i]]));
      }
    }
    forall i | 0 <= i < |bs| ensures HasPatch(t, cs, PatchOf(t, bs[i])) {
      assert PatchOf(t, cs[inverse[i]]) == PatchOf(t, bs[i]);
    }
    SamePatchesSameMap(t, bs, cs);
  }

  ghost predicate SamePlace(b: ByteEdit, c: ByteEdit) {
    b.range == c.range && b.newText == c.newText
  }

  lemma SamePlacePatch(t: Text, b: ByteEdit, c: ByteEdit)
    requires Located(t, b) && Located(t, c) && SamePlace(b, c)
    ensures PatchOf(t, b) == PatchOf(t, c)
  {
  }

  /** Neighbours k-1 and k of a sorted batch overlap or start together. */
  ghost predicate ClashAt(bs: seq<ByteEdit>, k: nat) {
    0 < k < |bs| && !(bs[k - 1].range.end.AtMost(bs[k].range.start) && bs[k].range.start != bs[k - 1].range.start)
  }

  ghost predicate FirstClash(bs: seq<ByteEdit>, k: nat) {
    ClashAt(bs, k) && forall j: nat :: j < k ==> !ClashAt(bs, j)
  }

  ghost predicate AllTranslate(t: Text, edits: seq<TextEdit>) {
    forall i :: 0 <= i < |edits| ==> Translates(t, edits[i])
  }

  ghost predicate Converts(t: Text, edit: TextEdit) {
    RangeFromLsp(t, edit.range).Converted?
  }

  ghost predicate ClashNamed(sorted: seq<ByteEdit>, k: nat, first: nat, second: nat) {
    FirstClash(sorted, k) && first == sorted[k - 1].index && second == sorted[k].index
  }

  /** The result a batch calls for: the first edit whose range does not convert or is
      reversed, else the first two neighbours in the sorted batch that clash, by their
      places in the list. */
  ghost predicate Verdict(t: Text, edits: seq<TextEdit>, r: ApplyResult) {
    match r
    case Done => Acceptable(t, edits)
    case BadPosition(i) => i < |edits| && AllTranslate(t, edits[..i]) && !Converts(t, edits[i])
    case Reversed(i) => i < |edits| && AllTranslate(t, edits[..i]) && Converts(t, edits[i]) && !Translates(t, edits[i])
    case Overlap(first, second) =>
      AllTranslate(t, edits) && exists k: nat :: ClashNamed(SortByStart(TranslateAll(t, edits)), k, first, second)
  }

  lemma TranslatesConverts(t: Text, edit: TextEdit)
    ensures Translates(t, edit) ==> Converts(t, edit)
  {
    hide RangeFromLsp;
  }

  /** A failing edit is the only one the verdict can name. */
  lemma FirstFailure(t: Text, edits: seq<TextEdit>, i: nat, r: ApplyResult)
    requires i < |edits| && AllTranslate(t, edits[..i]) && !Translates(t, edits[i]) && Verdict(t, edits, r)
    ensures r == if Converts(t, edits[i]) then Reversed(i) else BadPosition(i)
  {
    hide Translates, Converts, SortByStart, PairwiseApart, ClashNamed;
    assert r.BadPosition? || r.Reversed?;
    TranslatesConverts(t, edits[r.index]);
    PrefixTranslates(t, edits, i);
    PrefixTranslates(t, edits, r.index);
  }

  lemma PrefixTranslates(t: Text, edits: seq<TextEdit>, i: nat)
    requires i <= |edits| && AllTranslate(t, edits[..i])
    ensures forall j :: 0 <= j < i ==> Translates(t, edits[j])
  {
    hide Translates;
    assert forall j :: 0 <= j < i ==> edits[..i][j] == edits[j];
  }

  /** A batch whose ranges translate is acceptable exactly when no neighbours clash. */
  lemma ClashDecides(t: Text, edits: seq<TextEdit>)
    requires AllTranslate(t, edits)
    ensures Acceptable(t, edits) <==> forall k: nat :: !ClashAt(SortByStart(TranslateAll(t, edits)), k)
  {
    hide Translates, SortByStart, PairwiseApart;
    SortedDecides(t, TranslateAll(t, edits));
    var sorted := SortByStart(TranslateAll(t, edits));
    if NeighboursApart(sorted) {
      assert forall k: nat :: !ClashAt(sorted, k);
    } else {
      var i :| 0 < i < |sorted| && !(sorted[i - 1].range.end.AtMost(sorted[i].range.start) && sorted[i].range.start != sorted[i - 1].range.start);
      assert ClashAt(sorted, i);
    }
  }

  lemma NamesAgree(sorted: seq<ByteEdit>, k: nat, j: nat, a: nat, b: nat, c: nat, d: nat)
    requires ClashNamed(sorted, k, a, b) && ClashNamed(sorted, j, c, d)
    ensures a == c && b == d
  {
    hide ClashAt;
    assert k == j;
  }

  /** There is one verdict. */
  lemma VerdictUnique(t: Text, edits: seq<TextEdit>, r: ApplyResult, q: ApplyResult)
    requires Verdict(t, edits, r) && Verdict(t, edits, q)
    ensures r == q
  {
    hide Translates, Converts, SortByStart, PairwiseApart, ClashNamed;
    if r.BadPosition? || r.Reversed? {
      FailureDecides(t, edits, r, q);
    } else if q.BadPosition? || q.Reversed? {
      FailureDecides(t, edits, q, r);
    } else {
      OverlapRefuses(t, edits, r);
      OverlapRefuses(t, edits, q);
      if r.Overlap? {
        var sorted := SortByStart(TranslateAll(t, edits));
        var k: nat :| ClashNamed(sorted, k, r.first, r.second);
        var j: nat :| ClashNamed(sorted, j, q.first, q.second);
        NamesAgree(sorted, k, j, r.first, r.second, q.first, q.second);
      }
    }
  }

  lemma FailureDecides(t: Text, edits: seq<TextEdit>, r: ApplyResult, q: ApplyResult)
    requires Verdict(t, edits, r) && Verdict(t, edits, q) && (r.BadPosition? || r.Reversed?)
    ensures r == q
  {
    hide Translates, Converts, SortByStart, PairwiseApart, ClashNamed;
    TranslatesConverts(t, edits[r.index]);
    FirstFailure(t, edits, r.index, r);
    FirstFailure(t, edits, r.index, q);
  }

  lemma OverlapRefuses(t: Text, edits: seq<TextEdit>, r: ApplyResult)
    requires Verdict(t, edits, r)
    ensures r.Overlap? ==> !Acceptable(t, edits)
  {
    hide Translates, Converts, SortByStart, PairwiseApart;
    if r.Overlap? {
      ClashDecides(t, edits);
      var k: nat :| ClashNamed(SortByStart(TranslateAll(t, edits)), k, r.first, r.second);
      assert ClashAt(SortByStart(TranslateAll(t, edits)), k);
    }
  }

  /** The two edits an overlap error names are different and do touch each other. */
  lemma OverlapIsReal(t: Text, edits: seq<TextEdit>, first: nat, second: nat)
    requires AllTranslate(t, edits) && Verdict(t, edits, Overlap(first, second))
    ensures first < |edits| && second < |edits| && first != second
    ensures AllLocated(t, TranslateAll(t, edits))
    ensures !Apart(PatchOf(t, TranslateAll(t, edits)[first]), PatchOf(t, TranslateAll(t, edits)[second]))
  {
    hide Translates, SortByStart, Located, PatchOf;
    var bs := TranslateAll(t, edits);
    var sorted := SortByStart(bs);
    var k: nat :| ClashNamed(sorted, k, first, second);
    SortByStartSorts(bs);
    SortedIndices(bs, sorted, k);
    ClashTouches(t, sorted[k - 1], sorted[k]);
  }

  /** Elements of the sorted batch are elements of the batch, at different places. */
  lemma SortedIndices(bs: seq<ByteEdit>, sorted: seq<ByteEdit>, k: nat)
    requires 0 < k < |sorted| && multiset(sorted) == multiset(bs)
    requires forall i :: 0 <= i < |bs| ==> bs[i].index == i
    ensures var p, q := sorted[k - 1].index, sorted[k].index;
      p < |bs| && q < |bs| && p != q && bs[p] == sorted[k - 1] && bs[q] == sorted[k]
  {
    InBatch(bs, sorted, k - 1);
    InBatch(bs, sorted, k);
    if sorted[k - 1] == sorted[k] {
      RepeatedElement(sorted, k - 1, k);
      UniqueIndex(bs, sorted[k].index);
    }
  }

  lemma InBatch(bs: seq<ByteEdit>, sorted: seq<ByteEdit>, k: nat)
    requires k < |sorted| && multiset(sorted) == multiset(bs) && forall i :: 0 <= i < |bs| ==> bs[i].index == i
    ensures sorted[k].index < |bs| && bs[sorted[k].index] == sorted[k]
  {
    assert sorted[k] in multiset(bs);
  }

  lemma UniqueIndex(bs: seq<ByteEdit>, a: nat)
    requires a < |bs| && forall i :: 0 <= i < |bs| ==> bs[i].index == i
    ensures multiset(bs)[bs[a]] == 1
  {
    var b := bs[a];
    assert bs == bs[..a] + [b] + bs[a + 1..];
    assert b !in bs[..a] && b !in bs[a + 1..];
  }

  lemma ClashTouches(t: Text, b: ByteEdit, c: ByteEdit)
    requires Located(t, b) && Located(t, c) && b.range.start.AtMost(c.range.start)
    requires !(b.range.end.AtMost(c.range.start) && c.range.start != b.range.start)
    ensures !Apart(PatchOf(t, b), PatchOf(t, c))
  {
    hide PatchOf, Located;
    PatchOrder(t, b, c);
    PatchOrder(t, c, b);
    PatchBounds(t, c);
    PatchBounds(t, b);
  }

  /** ApplyTextEdits: accepts exactly the acceptable batches, then leaves the
      simultaneous substitution; an error leaves the buffer as it was. */
  method ApplyTextEdits(buf: Buffer, edits: seq<TextEdit>) returns (r: ApplyResult)
    requires buf.Valid()
    modifies buf
    ensures buf.Valid()
    ensures r.Done? <==> Acceptable(old(buf.data), edits)
    ensures r.Done? ==> buf.data == BatchResult(old(buf.data), edits)
    ensures !r.Done? ==> buf.history == old(buf.history)
    ensures Verdict(old(buf.data), edits, r)
    ensures old(buf.history.texts) <= buf.history.texts
  {
    hide Faithful, LineStarts, RangeFromLsp, PatchMap, Located, PairwiseApart, Substituted, PatchesOf, Ascending, SortByStart;
    var text := buf.data;
    if edits == [] {
      EmptyAcceptable(text);
      return Done;
    }
    var byteEdits := [];
    var i := 0;
    while i < |edits|
      modifies {}
      invariant 0 <= i <= |edits| && |byteEdits| == i
      invariant forall k :: 0 <= k < i ==> Translates(text, edits[k]) && byteEdits[k] == Translate(text, edits[k], k)
    {
      var rng := RangeToByteRange(text, edits[i].range);
      if !rng.Converted? {
        assert !Translates(text, edits[i]);
        return BadPosition(i);
      }
      if rng.value.end.LessThan(rng.value.start) {
        assert !Translates(text, edits[i]);
        return Reversed(i);
      }
      byteEdits := byteEdits + [ByteEdit(i, rng.value, edits[i].newText)];
      i := i + 1;
    }
    assert byteEdits == TranslateAll(text, edits);
    ghost var given := byteEdits;
    byteEdits := SortByStart(byteEdits);
    SortedDecides(text, given);
    i := 1;
    while i < |byteEdits|
      modifies {}
      invariant 1 <= i
      invariant forall k :: 0 < k < i && k < |byteEdits| ==>
        byteEdits[k - 1].range.end.AtMost(byteEdits[k].range.start) && byteEdits[k].range.start != byteEdits[k - 1].range.start
    {
      var prev, cur := byteEdits[i - 1], byteEdits[i];
      if cur.range.start.LessThan(prev.range.end) || cur.range.start == prev.range.start {
        assert !NeighboursApart(byteEdits);
        assert ClashNamed(byteEdits, i, prev.index, cur.index);
        return Overlap(prev.index, cur.index);
      }
      i := i + 1;
    }
    assert NeighboursApart(byteEdits);
    ApplyBackwards(buf, byteEdits);
    r := Done;
  }

  lemma EmptyAcceptable(t: Text)
    ensures Acceptable(t, []) && BatchResult(t, []) == t
  {
    EmptyBatch(t, 0);
    assert t[0..] == t;
    assert PatchMap(t, TranslateAll(t, [])) == map[];
  }

  /** Sorting changes neither acceptability nor meaning. */
  lemma SortedDecides(t: Text, given: seq<ByteEdit>)
    requires AllLocated(t, given)
    ensures var sorted := SortByStart(given);
      && AllLocated(t, sorted)
      && (NeighboursApart(sorted) <==> PairwiseApart(t, given))
      && (NeighboursApart(sorted) ==> Ascending(t, sorted) && PatchMap(t, sorted) == PatchMap(t, given))
  {
    hide Located, PatchOf, SortByStart, NeighboursApart, PairwiseApart, Ascending, PatchMap, Sorted;
    var sorted := SortByStart(given);
    SortByStartSorts(given);
    assert forall i :: 0 <= i < |sorted| ==> sorted[i] in multiset(given);
    NeighboursDecide(t, sorted);
    if PairwiseApart(t, given) {
      PermutedApart(t, given, sorted);
    }
    if PairwiseApart(t, sorted) {
      PermutedApart(t, sorted, given);
      forall i | 0 <= i < |sorted| ensures HasPatch(t, given, PatchOf(t, sorted[i])) {
        assert sorted[i] in multiset(given);
      }
      forall i | 0 <= i < |given| ensures HasPatch(t, sorted, PatchOf(t, given[i])) {
        assert given[i] in multiset(given);
        assert given[i] in sorted;
      }
      SamePatchesSameMap(t, sorted, given);
    }
  }

  /** The backward loop. */
  method ApplyBackwards(buf: Buffer, byteEdits: seq<ByteEdit>)
    requires buf.Valid() && AllLocated(buf.data, byteEdits) && Ascending(buf.data, byteEdits)
    modifies buf
    ensures buf.Valid()
    ensures buf.data == Substituted(old(buf.data), PatchMap(old(buf.data), byteEdits), 0)
    ensures old(buf.history.texts) <= buf.history.texts
  {
    hide Faithful, LineStarts, Located, PatchOf, PatchesOf, Substituted, Ascending;
    ghost var t := buf.data;
    EmptyBatch(t, 0);
    assert t[0..] == t && byteEdits[|byteEdits|..] == [];
    var i := |byteEdits|;
    while i > 0
      invariant 0 <= i <= |byteEdits| && buf.Valid()
      invariant AllLocated(t, byteEdits[i..])
      invariant buf.data == Substituted(t, PatchMap(t, byteEdits[i..]), 0)
      invariant old(buf.history.texts) <= buf.history.texts
    {
      i := i - 1;
      FrontEdit(t, byteEdits, i);
      ApplyOne(buf, byteEdits[i], t);
    }
    assert byteEdits[0..] == byteEdits;
  }

  lemma FrontEdit(t: Text, bs: seq<ByteEdit>, i: nat)
    requires AllLocated(t, bs) && Ascending(t, bs) && i < |bs|
    ensures AllLocated(t, bs[i..]) && AllLocated(t, bs[i + 1..])
    ensures var p := PatchOf(t, bs[i]); var later := Substituted(t, PatchMap(t, bs[i + 1..]), 0);
      && p.s <= p.e <= |later| && p.e <= |t| && later[..p.e] == t[..p.e]
      && Substituted(t, PatchMap(t, bs[i..]), 0) == Splice(later, p.s, p.e, p.w)
  {
    hide Located, PatchOf, Substituted, PatchesOf;
    var rest := bs[i + 1..];
    var p := PatchOf(t, bs[i]);
    PatchBounds(t, bs[i]);
    assert forall k :: 0 <= k < |rest| ==> rest[k] == bs[i + 1 + k];
    AscendingKeys(t, rest, p);
    AddFrontPatch(t, PatchMap(t, rest), p);
    assert bs[i..][0] == bs[i] && bs[i..][1..] == rest;
  }

  lemma {:induction false} AscendingKeys(t: Text, rest: seq<ByteEdit>, p: Patch)
    requires AllLocated(t, rest)
    requires forall k :: 0 <= k < |rest| ==> PatchOf(t, rest[k]).s > p.s && PatchOf(t, rest[k]).s >= p.e
    ensures forall s :: s in PatchMap(t, rest) ==> s > p.s && s >= p.e
  {
    hide Located, PatchOf;
    if rest != [] {
      assert forall k :: 0 <= k < |rest[1..]| ==> rest[1..][k] == rest[k + 1];
      AscendingKeys(t, rest[1..], p);
    }
  }

  /** One edit of the loop: delete unless empty, insert unless empty; neither fails,
      because the text up to the edit's end is still the original. */
  method ApplyOne(buf: Buffer, edit: ByteEdit, ghost t: Text)
    requires buf.Valid() && Located(t, edit)
    requires var p := PatchOf(t, edit); p.s <= p.e <= |buf.data| && p.e <= |t| && buf.data[..p.e] == t[..p.e]
    modifies buf
    ensures buf.Valid()
    ensures var p := PatchOf(t, edit); buf.data == Splice(old(buf.data), p.s, p.e, p.w)
    ensures old(buf.history.texts) <= buf.history.texts
  {
    hide Faithful, LineStarts, Located, OffsetOf, PosAt, DeleteFrom, InsertInto, Consistent;
    ghost var p := PatchOf(t, edit);
    PatchBounds(t, edit);
    assert t[..p.s] == t[..p.e][..p.s] == buf.data[..p.s];
    PosAtPrefix(t, buf.data, p.s);
    PosAtPrefix(t, buf.data, p.e);
    if !edit.range.Empty() {
      DeleteBetween(buf.history.doc, p.s, p.e);
      var _, _ := buf.Delete(edit.range);
    }
    assert buf.data == old(buf.data)[..p.s] + old(buf.data)[p.e..];
    assert buf.data[..p.s] == t[..p.s];
    PosAtPrefix(t, buf.data, p.s);
    if edit.newText != [] {
      InsertAtOffset(buf.history.doc, p.s, edit.newText);
      var _, _ := buf.Insert(edit.range.start, edit.newText);
    }
  }
}
