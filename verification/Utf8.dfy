/** UTF-8 as Go's unicode/utf8 decodes it, with its encoder (sections 3 and 4 of
    RFC 3629) and the UTF-16 encoding of section 2.1 of RFC 2781.

    `DecodeRune` is total: invalid input yields the replacement character with
    size 1, empty input size 0. */
module Utf8 {
  import opened Texts

  type Rune = r: int | 0 <= r <= 0x10FFFF

  const RUNE_ERROR: Rune := 0xFFFD

  predicate Scalar(r: Rune) {
    r < 0xD800 || r > 0xDFFF
  }

  predicate Cont(b: int) {
    0x80 <= b <= 0xBF
  }

  datatype Decoded = Decoded(rune: Rune, size: nat) {
    predicate Invalid() {
      rune == RUNE_ERROR && size <= 1
    }
  }

  /** The second byte is restricted further after some lead bytes: no overlong
      forms, no surrogates, nothing above U+10FFFF. */
  predicate SecondOk(lead: byte, b: byte) {
    if lead == 0xE0 then 0xA0 <= b <= 0xBF
    else if lead == 0xED then 0x80 <= b <= 0x9F
    else if lead == 0xF0 then 0x90 <= b <= 0xBF
    else if lead == 0xF4 then 0x80 <= b <= 0x8F
    else Cont(b)
  }

  /** Byte count a lead byte announces; 0 for a byte that starts nothing. */
  function Announced(lead: byte): nat {
    if lead < 0x80 then 1
    else if 0xC2 <= lead <= 0xDF then 2
    else if 0xE0 <= lead <= 0xEF then 3
    else if 0xF0 <= lead <= 0xF4 then 4
    else 0
  }

  /** `high` followed by the six payload bits of a continuation byte. */
  function Join(high: int, cont: int): int {
    high * 64 + (cont - 0x80)
  }

  function DecodeRune(s: Text): (d: Decoded)
    ensures d.size <= |s|
    ensures s != [] ==> 1 <= d.size <= 4
  {
    if s == [] then Decoded(RUNE_ERROR, 0)
    else
      var n := Announced(s[0]);
      var b: seq<int> := s;
      if n == 0 || |s| < n then Decoded(RUNE_ERROR, 1)
      else if n == 1 then Decoded(s[0], 1)
      else if !SecondOk(s[0], s[1]) then Decoded(RUNE_ERROR, 1)
      else if n == 2 then Decoded(Join(b[0] - 0xC0, b[1]), 2)
      else if !Cont(s[2]) then Decoded(RUNE_ERROR, 1)
      else if n == 3 then Decoded(Join(Join(b[0] - 0xE0, b[1]), b[2]), 3)
      else if !Cont(s[3]) then Decoded(RUNE_ERROR, 1)
      else Decoded(Join(Join(Join(b[0] - 0xF0, b[1]), b[2]), b[3]), 4)
  }

  function EncodeRune(r: Rune): (s: Text)
    requires Scalar(r)
    ensures 1 <= |s| <= 4
    ensures Announced(s[0]) == |s|
  {
    if r < 0x80 then [r]
    else if r < 0x800 then [0xC0 + r / 64, 0x80 + r % 64]
    else if r < 0x10000 then [0xE0 + r / 64 / 64, 0x80 + r / 64 % 64, 0x80 + r % 64]
    else [0xF0 + r / 64 / 64 / 64, 0x80 + r / 64 / 64 % 64, 0x80 + r / 64 % 64, 0x80 + r % 64]
  }

  function EncodeRunes(rs: seq<Rune>): Text
    requires forall r :: r in rs ==> Scalar(r)
  {
    if rs == [] then [] else EncodeRune(rs[0]) + EncodeRunes(rs[1..])
  }

  // ----- one rune -----

  lemma JoinSplits(high: int, cont: int)
    requires Cont(cont)
    ensures Join(high, cont) / 64 == high && 0x80 + Join(high, cont) % 64 == cont
  {
  }

  /** Decoding undoes encoding, whatever follows. */
  lemma DecodeEncoded(r: Rune, rest: Text)
    requires Scalar(r)
    ensures DecodeRune(EncodeRune(r) + rest) == Decoded(r, |EncodeRune(r)|)
  {
    var e := EncodeRune(r);
    var s := e + rest;
    assert forall i :: 0 <= i < |e| ==> s[i] == e[i];
  }

  /** What decodes without error is the encoding of a scalar value. */
  lemma EncodeDecoded(s: Text)
    requires s != [] && !DecodeRune(s).Invalid()
    ensures Scalar(DecodeRune(s).rune)
    ensures EncodeRune(DecodeRune(s).rune) == s[..DecodeRune(s).size]
  {
    var d := DecodeRune(s);
    var b: seq<int> := s;
    if d.size == 2 {
      JoinSplits(b[0] - 0xC0, b[1]);
    } else if d.size == 3 {
      JoinSplits(b[0] - 0xE0, b[1]);
      JoinSplits(Join(b[0] - 0xE0, b[1]), b[2]);
    } else if d.size == 4 {
      JoinSplits(b[0] - 0xF0, b[1]);
      JoinSplits(Join(b[0] - 0xF0, b[1]), b[2]);
      JoinSplits(Join(Join(b[0] - 0xF0, b[1]), b[2]), b[3]);
    }
  }

  /** Only the first `size` bytes matter. */
  lemma DecodePrefix(s: Text, n: nat)
    requires n <= |s| && DecodeRune(s).size <= n
    requires !DecodeRune(s).Invalid()
    ensures DecodeRune(s[..n]) == DecodeRune(s)
  {
  }

  /** Cutting a rune short, or cutting anything that does not decode, leaves
      something that does not decode. */
  lemma DecodeCut(s: Text, n: nat)
    requires 0 < n <= |s|
    requires DecodeRune(s).Invalid() || DecodeRune(s).size > n
    ensures DecodeRune(s[..n]).Invalid()
  {
  }

  /** A newline byte always stands alone: no multi-byte rune contains it. */
  lemma NewlineStandsAlone(s: Text)
    requires s != []
    ensures DecodeRune(s).rune == NL <==> s[0] == NL
    ensures s[0] == NL ==> DecodeRune(s).size == 1
    ensures forall i :: 0 < i < DecodeRune(s).size ==> s[i] >= 0x80
  {
  }

  // ----- texts -----

  /** The runes of `s`, or None when it is not valid UTF-8. */
  function Runes(s: Text): Option<seq<Rune>>
  {
    if s == [] then Some([])
    else
      var d := DecodeRune(s);
      if d.Invalid() then None
      else match Runes(s[d.size..])
        case None => None
        case Some(rest) => Some([d.rune] + rest)
  }

  ghost predicate ValidUtf8(s: Text) {
    Runes(s).Some?
  }

  lemma {:induction false} RunesOfEncoded(rs: seq<Rune>)
    requires forall r :: r in rs ==> Scalar(r)
    ensures Runes(EncodeRunes(rs)) == Some(rs)
  {
    if rs != [] {
      var rest := EncodeRunes(rs[1..]);
      DecodeEncoded(rs[0], rest);
      assert (EncodeRune(rs[0]) + rest)[|EncodeRune(rs[0])|..] == rest;
      RunesOfEncoded(rs[1..]);
      assert [rs[0]] + rs[1..] == rs;
      EncodedNotError(rs[0]);
    }
  }

  lemma EncodedNotError(r: Rune)
    requires Scalar(r)
    ensures !Decoded(r, |EncodeRune(r)|).Invalid()
  {
  }

  lemma EncodeRunesCons(r: Rune, rs: seq<Rune>)
    requires Scalar(r) && forall x :: x in rs ==> Scalar(x)
    ensures EncodeRunes([r] + rs) == EncodeRune(r) + EncodeRunes(rs)
  {
    assert ([r] + rs)[1..] == rs;
  }

  lemma {:induction false} EncodedOfRunes(s: Text)
    requires ValidUtf8(s)
    ensures forall r :: r in Runes(s).value ==> Scalar(r)
    ensures EncodeRunes(Runes(s).value) == s
  {
    hide DecodeRune, EncodeRune;
    if s != [] {
      var d := DecodeRune(s);
      var rest := Runes(s[d.size..]).value;
      EncodedOfRunes(s[d.size..]);
      EncodeDecoded(s);
      assert Runes(s).value == [d.rune] + rest;
      EncodeRunesCons(d.rune, rest);
      assert s[..d.size] + s[d.size..] == s;
    }
  }

  lemma {:induction false} RunesConcat(a: Text, b: Text)
    requires ValidUtf8(a)
    ensures Runes(a + b) == match Runes(b)
      case None => None
      case Some(rb) => Some(Runes(a).value + rb)
  {
    hide DecodeRune;
    if a == [] {
      assert a + b == b;
      if Runes(b).Some? { assert [] + Runes(b).value == Runes(b).value; }
    } else {
      var d := DecodeRune(a);
      DecodePrefix2(a, b);
      assert (a + b)[d.size..] == a[d.size..] + b;
      RunesConcat(a[d.size..], b);
      if Runes(b).Some? {
        assert [d.rune] + (Runes(a[d.size..]).value + Runes(b).value) == ([d.rune] + Runes(a[d.size..]).value) + Runes(b).value;
      }
    }
  }

  lemma DecodePrefix2(a: Text, b: Text)
    requires a != [] && !DecodeRune(a).Invalid()
    ensures DecodeRune(a + b) == DecodeRune(a)
  {
  }

  // ----- the last rune -----

  /** Walk left from `start`, not below `lim`, to a byte that can start a rune. */
  function ScanBack(s: Text, start: int, lim: nat): (r: int)
    requires lim - 1 <= start < |s|
    ensures lim - 1 <= r <= start
    decreases start - lim + 1
  {
    if start < lim || !Cont(s[start]) then start else ScanBack(s, start - 1, lim)
  }

  /** The size utf8.DecodeLastRune reports: 1 for anything that is not exactly the
      encoding of one rune. */
  function LastSize(s: Text): (n: nat)
    ensures n <= |s|
    ensures s != [] ==> n > 0
  {
    if s == [] then 0
    else if s[|s| - 1] < 0x80 then 1
    else
      var lim := if |s| < 4 then 0 else |s| - 4;
      var found := ScanBack(s, |s| - 2, lim);
      var start := if found < 0 then 0 else found;
      var size := DecodeRune(s[start..]).size;
      if start + size == |s| then size else 1
  }

  lemma EncodedShape(r: Rune)
    requires Scalar(r)
    ensures var e := EncodeRune(r);
      (|e| == 1 <==> e[0] < 0x80) && !Cont(e[0]) && forall i :: 0 < i < |e| ==> Cont(e[i])
  {
  }

  lemma {:induction false} ScanBackFinds(s: Text, start: int, lim: nat, target: nat)
    requires lim <= target <= start < |s| && !Cont(s[target])
    requires forall i :: target < i <= start ==> Cont(s[i])
    ensures ScanBack(s, start, lim) == target
    decreases start
  {
    if start > target {
      ScanBackFinds(s, start - 1, lim, target);
    }
  }

  /** After any text, the last rune written is the last rune found. */
  lemma LastSizeOfEncoded(p: Text, r: Rune)
    requires Scalar(r)
    ensures LastSize(p + EncodeRune(r)) == |EncodeRune(r)|
  {
    hide DecodeRune, EncodeRune;
    var e := EncodeRune(r);
    var s := p + e;
    EncodedShape(r);
    assert forall i :: 0 <= i < |e| ==> s[|p| + i] == e[i];
    if |e| > 1 {
      var lim := if |s| < 4 then 0 else |s| - 4;
      ScanBackFinds(s, |s| - 2, lim, |p|);
      assert s[|p|..] == e + [];
      DecodeEncoded(r, []);
    } else {
      assert s[|s| - 1] == e[0];
    }
  }

  /** A valid text ends with the encoding of its last rune. */
  lemma {:induction false} ValidLast(s: Text)
    requires ValidUtf8(s) && s != []
    ensures var p := s[..|s| - LastSize(s)]; var rs := Runes(s).value;
      rs != [] && Runes(p) == Some(rs[..|rs| - 1])
  {
    hide DecodeRune, EncodeRune, LastSize, Runes;
    EncodedOfRunes(s);
    RunesNonEmpty(s);
    var rs := Runes(s).value;
    var front, last := rs[..|rs| - 1], rs[|rs| - 1];
    EncodeRunesConcat(front, [last]);
    assert front + [last] == rs;
    assert EncodeRunes([last]) == EncodeRune(last) + [] by { assert [last][1..] == []; }
    assert s == EncodeRunes(front) + EncodeRune(last);
    LastSizeOfEncoded(EncodeRunes(front), last);
    RunesOfEncoded(front);
    assert s[..|s| - LastSize(s)] == EncodeRunes(front);
  }

  lemma RunesNonEmpty(s: Text)
    requires ValidUtf8(s) && s != []
    ensures Runes(s).value != []
  {
  }

  lemma {:induction false} EncodeRunesConcat(a: seq<Rune>, b: seq<Rune>)
    requires forall r :: r in a ==> Scalar(r)
    requires forall r :: r in b ==> Scalar(r)
    ensures EncodeRunes(a + b) == EncodeRunes(a) + EncodeRunes(b)
  {
    hide EncodeRune;
    if a == [] {
      assert a + b == b;
    } else {
      assert (a + b)[1..] == a[1..] + b;
      EncodeRunesConcat(a[1..], b);
    }
  }

  // ----- UTF-16 -----

  function Utf16Units(r: Rune): (u: seq<nat>)
    ensures |u| == if r > 0xFFFF then 2 else 1
  {
    if r > 0xFFFF then [0xD800 + (r - 0x10000) / 1024, 0xDC00 + (r - 0x10000) % 1024] else [r]
  }

  function Utf16(rs: seq<Rune>): seq<nat> {
    if rs == [] then [] else Utf16(rs[..|rs| - 1]) + Utf16Units(rs[|rs| - 1])
  }

  /** Number of UTF-16 code units of a byte text, where it has any. */
  ghost function Units(s: Text): Option<nat> {
    match Runes(s)
    case None => None
    case Some(rs) => Some(|Utf16(rs)|)
  }

  lemma {:induction false} Utf16Concat(a: seq<Rune>, b: seq<Rune>)
    ensures Utf16(a + b) == Utf16(a) + Utf16(b)
  {
    if b == [] {
      assert a + b == a;
    } else {
      assert (a + b)[..|a + b| - 1] == a + b[..|b| - 1];
      Utf16Concat(a, b[..|b| - 1]);
    }
  }

  lemma UnitsConcat(a: Text, b: Text)
    requires ValidUtf8(a)
    ensures Units(a + b) == match Units(b) case None => None case Some(n) => Some(Units(a).value + n)
  {
    RunesConcat(a, b);
    if Runes(b).Some? {
      Utf16Concat(Runes(a).value, Runes(b).value);
    }
  }

  lemma UnitsOfOne(s: Text)
    requires s != [] && !DecodeRune(s).Invalid() && DecodeRune(s).size == |s|
    ensures Units(s) == Some(if DecodeRune(s).rune > 0xFFFF then 2 else 1)
  {
    var d := DecodeRune(s);
    assert s[d.size..] == [];
    assert [d.rune] + [] == [d.rune];
    assert Runes(s) == Some([d.rune]);
    assert [d.rune][..0] == [];
    assert Utf16([d.rune]) == [] + Utf16Units(d.rune);
  }

  lemma {:induction false} UnitsPositive(s: Text)
    requires ValidUtf8(s) && s != []
    ensures Units(s).value > 0
  {
    var d := DecodeRune(s);
    var rs := Runes(s).value;
    assert |rs| > 0;
    assert |Utf16Units(rs[|rs| - 1])| > 0;
  }
}
