/** Framing of the LSP base protocol (internal/lsp/jsonrpc.go; "Base Protocol" and
    "Header Part" of LSP 3.17). Bodies are opaque bytes.

    `ReadFrame` says what reading from a byte stream yields; `Conn` holds the two
    streams and reads and writes them as the source does. */
module Framing {
  import opened Texts
  import opened Utf8
  import opened Decimals

  const MAX_HEADER_LINE_BYTES: nat := 1024
  const MAX_HEADER_LINES: nat := 32
  const MAX_INT: int := 0x7FFF_FFFF_FFFF_FFFF

  const CR: byte := 13
  const COLON: byte := 58

  /** "Content-Length" */
  const CONTENT_LENGTH: Text := [67, 111, 110, 116, 101, 110, 116, 45, 76, 101, 110, 103, 116, 104]

  datatype FrameError =
    | EndOfInput | UnexpectedEnd | HeaderTooLong | BadFraming | MissingContentLength | TooManyHeaders | PayloadTooLarge

  /** What a read yields, and the bytes of the stream left after it. */
  datatype Outcome = Got(body: Text, rest: Text) | Failed(error: FrameError, rest: Text)

  // ----- header values -----

  /** unicode.IsSpace. */
  predicate IsSpace(r: Rune) {
    0x09 <= r <= 0x0D || r == 0x20 || r == 0x85 || r == 0xA0 || r == 0x1680 || 0x2000 <= r <= 0x200A
    || r == 0x2028 || r == 0x2029 || r == 0x202F || r == 0x205F || r == 0x3000
  }

  function TrimLeft(s: Text): (r: Text)
    ensures |r| <= |s|
  {
    if s != [] && IsSpace(DecodeRune(s).rune) then TrimLeft(s[DecodeRune(s).size..]) else s
  }

  function TrimRight(s: Text): (r: Text)
    ensures |r| <= |s|
  {
    var front := |s| - LastSize(s);
    if s != [] && IsSpace(DecodeRune(s[front..]).rune) then TrimRight(s[..front]) else s
  }

  /** strings.TrimSpace. */
  function TrimSpace(s: Text): Text {
    TrimRight(TrimLeft(s))
  }

  function Lower(b: byte): byte {
    if 65 <= b <= 90 then b + 32 else b
  }

  /** strings.EqualFold with "Content-Length": no other rune folds to its letters. */
  predicate NamesLength(name: Text) {
    |name| == |CONTENT_LENGTH| && forall i :: 0 <= i < |name| ==> Lower(name[i]) == Lower(CONTENT_LENGTH[i])
  }

  predicate AllDigit(s: Text) {
    forall i :: 0 <= i < |s| ==> IsDigit(s[i])
  }

  /** strconv.Atoi: an optional sign and decimal digits, within 64 bits. */
  function Atoi(s: Text): Option<int> {
    var signed := s != [] && (s[0] == 43 || s[0] == 45);
    var digits := if signed then s[1..] else s;
    if digits == [] || !AllDigit(digits) then None
    else
      var size: int := Decimal(digits);
      var n := if signed && s[0] == 45 then -size else size;
      if -MAX_INT - 1 <= n <= MAX_INT then Some(n) else None
  }

  // ----- header lines -----

  datatype Line = Blank | Length(n: nat) | Other | Wrong(error: FrameError)

  /** What one header line, newline included, says. */
  function Classify(line: Text): Line {
    if |line| > MAX_HEADER_LINE_BYTES then Wrong(HeaderTooLong)
    else if |line| < 2 || line[|line| - 2..] != [CR, NL] then Wrong(BadFraming)
    else
      var text := line[..|line| - 2];
      var colon := IndexOf(text, COLON);
      if text == [] then Blank
      else if colon == |text| then Wrong(BadFraming)
      else if !NamesLength(TrimSpace(text[..colon])) then Other
      else match Atoi(TrimSpace(text[colon + 1..]))
        case None => Wrong(BadFraming)
        case Some(n) => if n < 0 then Wrong(BadFraming) else Length(n)
  }

  datatype Headers = Declared(length: nat, rest: Text) | Rejected(error: FrameError, rest: Text)

  /** The header block from its i-th line on; `length` is the last one declared so far,
      or -1. */
  function HeadersFrom(s: Text, i: nat, length: int): (h: Headers)
    requires length >= -1
    ensures h.Declared? ==> |h.rest| < |s|
    decreases MAX_HEADER_LINES - i
  {
    if i >= MAX_HEADER_LINES then Rejected(TooManyHeaders, s)
    else
      var nl := IndexOf(s, NL);
      if nl == |s| then Rejected(EndOfInput, [])
      else
        var rest := s[nl + 1..];
        match Classify(s[..nl + 1])
        case Wrong(error) => Rejected(error, rest)
        case Blank => if length < 0 then Rejected(MissingContentLength, rest) else Declared(length, rest)
        case Length(n) => HeadersFrom(rest, i + 1, n)
        case Other => HeadersFrom(rest, i + 1, length)
  }

  function ReadFrame(s: Text, max: nat): (r: Outcome)
    ensures r.Got? ==> |r.rest| < |s|
  {
    match HeadersFrom(s, 0, -1)
    case Rejected(error, rest) => Failed(error, rest)
    case Declared(n, rest) =>
      if n > max then Failed(PayloadTooLarge, rest)
      else if |rest| < n then Failed(UnexpectedEnd, [])
      else Got(rest[..n], rest[n..])
  }

  // ----- frames on the wire -----

  function Header(n: nat): Text {
    CONTENT_LENGTH + [COLON, 32] + Digits(n) + [CR, NL, CR, NL]
  }

  function Frame(body: Text): Text {
    Header(|body|) + body
  }

  function Frames(bodies: seq<Text>): Text {
    if bodies == [] then [] else Frame(bodies[0]) + Frames(bodies[1..])
  }

  datatype Session = Session(bodies: seq<Text>, error: FrameError, rest: Text)

  /** Reading until the first error. */
  function ReadAll(s: Text, max: nat): Session
    decreases |s|
  {
    match ReadFrame(s, max)
    case Failed(error, rest) => Session([], error, rest)
    case Got(body, rest) =>
      var more := ReadAll(rest, max);
      more.(bodies := [body] + more.bodies)
  }

  // ----- a written header is read back -----

  lemma AtoiOfDigits(n: nat)
    requires n <= MAX_INT
    ensures Atoi(Digits(n)) == Some(n)
  {
    hide Decimal, Digits;
    DecimalOfDigits(n);
    assert IsDigit(Digits(n)[0]);
  }

  lemma DigitsStay(n: nat)
    ensures TrimSpace([32] + Digits(n)) == Digits(n)
  {
    hide Digits, LastSize;
    var d := Digits(n);
    var s := [32] + d;
    assert DecodeRune(s) == Decoded(32, 1);
    assert s[1..] == d;
    assert DecodeRune(d) == Decoded(d[0], 1);
    assert TrimLeft(d) == d;
    TrimEnd(d);
  }

  lemma TrimEnd(s: Text)
    requires s != [] && 0x20 < s[|s| - 1] < 0x80
    ensures TrimRight(s) == s
  {
    var front := |s| - 1;
    assert LastSize(s) == 1;
    assert s[front..] == [s[front]];
  }

  lemma NameStays()
    ensures TrimSpace(CONTENT_LENGTH) == CONTENT_LENGTH && NamesLength(CONTENT_LENGTH)
  {
    hide LastSize;
    assert DecodeRune(CONTENT_LENGTH) == Decoded(67, 1);
    assert TrimLeft(CONTENT_LENGTH) == CONTENT_LENGTH;
    TrimEnd(CONTENT_LENGTH);
  }

  lemma LengthLine(n: nat)
    requires n <= MAX_INT
    ensures Classify(CONTENT_LENGTH + [COLON, 32] + Digits(n) + [CR, NL]) == Length(n)
  {
    hide Digits, TrimSpace, Atoi, NamesLength;
    var text := CONTENT_LENGTH + [COLON, 32] + Digits(n);
    var line := text + [CR, NL];
    assert line[..|line| - 2] == text;
    assert line[|line| - 2..] == [CR, NL];
    FirstIndex(text, COLON, 14);
    assert text[..14] == CONTENT_LENGTH;
    assert text[15..] == [32] + Digits(n);
    NameStays();
    DigitsStay(n);
    AtoiOfDigits(n);
    ShortLength(n);
  }

  lemma ShortLength(n: nat)
    requires n <= MAX_INT
    ensures |Digits(n)| <= 19
  {
    assert Pow10(19) == 10000000000000000000 by {
      assert Pow10(5) == 100000;
      assert Pow10(10) == 10000000000;
      assert Pow10(15) == 1000000000000000;
    }
    DigitCount(n, 19);
  }

  lemma NoNewline(n: nat)
    ensures var line := CONTENT_LENGTH + [COLON, 32] + Digits(n) + [CR, NL];
      forall i :: 0 <= i < |line| - 1 ==> line[i] != NL
  {
    hide Digits;
    var line := CONTENT_LENGTH + [COLON, 32] + Digits(n) + [CR, NL];
    forall i | 0 <= i < |line| - 1 ensures line[i] != NL {
      if 16 <= i < 16 + |Digits(n)| {
        assert line[i] == Digits(n)[i - 16];
        assert IsDigit(Digits(n)[i - 16]);
      }
    }
  }

  /** One line taken off the front of the stream. */
  lemma TakeLine(line: Text, rest: Text, i: nat, length: int)
    requires length >= -1 && i < MAX_HEADER_LINES
    requires line != [] && line[|line| - 1] == NL && forall k :: 0 <= k < |line| - 1 ==> line[k] != NL
    ensures HeadersFrom(line + rest, i, length) == match Classify(line)
      case Wrong(error) => Rejected(error, rest)
      case Blank => if length < 0 then Rejected(MissingContentLength, rest) else Declared(length, rest)
      case Length(n) => HeadersFrom(rest, i + 1, n)
      case Other => HeadersFrom(rest, i + 1, length)
  {
    hide Classify;
    var s := line + rest;
    FirstIndex(s, NL, |line| - 1);
    assert s[..|line|] == line;
    assert s[|line|..] == rest;
  }

  lemma HeaderIsRead(n: nat, rest: Text)
    requires n <= MAX_INT
    ensures HeadersFrom(Header(n) + rest, 0, -1) == Declared(n, rest)
  {
    hide Digits, Classify, HeadersFrom;
    var line := CONTENT_LENGTH + [COLON, 32] + Digits(n) + [CR, NL];
    LengthLine(n);
    NoNewline(n);
    assert Header(n) + rest == line + ([CR, NL] + rest);
    TakeLine(line, [CR, NL] + rest, 0, -1);
    assert Classify([CR, NL]) == Blank by { BlankLine(); }
    TakeLine([CR, NL], rest, 1, n);
  }

  lemma BlankLine()
    ensures Classify([CR, NL]) == Blank
  {
  }

  /** What was written is read back, whatever follows it. */
  lemma FrameIsRead(body: Text, rest: Text, max: nat)
    requires |body| <= max <= MAX_INT
    ensures ReadFrame(Frame(body) + rest, max) == Got(body, rest)
  {
    hide Header, HeadersFrom;
    HeaderIsRead(|body|, body + rest);
    assert Frame(body) + rest == Header(|body|) + (body + rest);
    assert (body + rest)[..|body|] == body && (body + rest)[|body|..] == rest;
  }

  /** Reading the frames of any list of bodies returns exactly those bodies, in order,
      and then stops at the end of the stream with nothing left over. */
  lemma {:induction false} FramesAreRead(bodies: seq<Text>, max: nat)
    requires max <= MAX_INT && forall i :: 0 <= i < |bodies| ==> |bodies[i]| <= max
    ensures ReadAll(Frames(bodies), max) == Session(bodies, EndOfInput, [])
    decreases |bodies|
  {
    hide Frame, ReadFrame;
    if bodies == [] {
      NothingToRead(max);
    } else {
      FrameIsRead(bodies[0], Frames(bodies[1..]), max);
      FramesAreRead(bodies[1..], max);
      assert [bodies[0]] + bodies[1..] == bodies;
    }
  }

  lemma NothingToRead(max: nat)
    ensures ReadFrame([], max) == Failed(EndOfInput, [])
  {
  }

  // ----- header lines in general -----

  /** "CONTENT-LENGTH" and "content-length" */
  const UPPER_NAME: Text := [67, 79, 78, 84, 69, 78, 84, 45, 76, 69, 78, 71, 84, 72]
  const LOWER_NAME: Text := [99, 111, 110, 116, 101, 110, 116, 45, 108, 101, 110, 103, 116, 104]

  /** The name of the length header, each letter in either case. */
  predicate Spelling(name: Text) {
    |name| == 14 && forall i :: 0 <= i < 14 ==> name[i] == UPPER_NAME[i] || name[i] == LOWER_NAME[i]
  }

  /** Spaces and tabs. */
  predicate Padding(p: Text) {
    forall i :: 0 <= i < |p| ==> p[i] == 32 || p[i] == 9
  }

  /** Something with visible ASCII at both ends. */
  predicate Solid(s: Text) {
    s != [] && 0x20 < s[0] < 0x7F && 0x20 < s[|s| - 1] < 0x7F
  }

  lemma SpellingExactly(name: Text)
    ensures NamesLength(name) <==> Spelling(name)
  {
  }

  lemma {:induction false} PadLeft(p: Text, s: Text)
    requires Padding(p)
    ensures TrimLeft(p + s) == TrimLeft(s)
  {
    hide Padding;
    if p == [] {
      assert p + s == s;
    } else {
      PadByte(p);
      PadLeft(p[1..], s);
      assert DecodeRune(p + s) == Decoded(p[0], 1);
      assert (p + s)[1..] == p[1..] + s;
    }
  }

  lemma PadByte(p: Text)
    requires Padding(p) && p != []
    ensures (p[0] == 32 || p[0] == 9) && (p[|p| - 1] == 32 || p[|p| - 1] == 9)
    ensures Padding(p[1..]) && Padding(p[..|p| - 1])
  {
  }

  lemma {:induction false} PadRight(s: Text, p: Text)
    requires Padding(p)
    ensures TrimRight(s + p) == TrimRight(s)
  {
    hide Padding;
    if p == [] {
      assert s + p == s;
    } else {
      PadByte(p);
      var all, last := s + p, p[|p| - 1];
      assert LastSize(all) == 1;
      assert all[|all| - 1..] == [last];
      assert all[..|all| - 1] == s + p[..|p| - 1];
      PadRight(s, p[..|p| - 1]);
    }
  }

  lemma SolidStays(s: Text)
    requires Solid(s)
    ensures TrimLeft(s) == s && TrimRight(s) == s
  {
    assert DecodeRune(s) == Decoded(s[0], 1);
    TrimEnd(s);
  }

  /** Padding around something solid is trimmed. */
  lemma TrimPads(p: Text, s: Text, q: Text)
    requires Padding(p) && Padding(q) && Solid(s)
    ensures TrimSpace(p + s + q) == s
    ensures TrimSpace(p + q) == []
  {
    hide TrimLeft, TrimRight;
    PadLeft(p, s + q);
    assert p + s + q == p + (s + q);
    SolidStart(s, q);
    PadRight(s, q);
    SolidStays(s);
    PadLeft(p, q);
    PadLeft(q, []);
    assert q + [] == q;
    NothingTrimmed();
  }

  lemma SolidStart(s: Text, q: Text)
    requires Solid(s)
    ensures TrimLeft(s + q) == s + q
  {
    assert DecodeRune(s + q) == Decoded(s[0], 1);
  }

  lemma NothingTrimmed()
    ensures TrimLeft([]) == [] == TrimRight([])
  {
  }

  /** A line with the first colon behind `name`, both sides padded. */
  function HeaderLine(p1: Text, name: Text, p2: Text, p3: Text, value: Text, p4: Text): Text {
    p1 + name + p2 + [COLON] + (p3 + value + p4) + [CR, NL]
  }

  lemma LineParts(p1: Text, name: Text, p2: Text, after: Text)
    requires Padding(p1) && Padding(p2) && Solid(name) && COLON !in name
    ensures var text := p1 + name + p2 + [COLON] + after; var colon := IndexOf(text, COLON);
      colon == |p1 + name + p2| && TrimSpace(text[..colon]) == name && text[colon + 1..] == after
  {
    hide TrimSpace;
    var front := p1 + name + p2;
    var text := front + [COLON] + after;
    assert forall i :: 0 <= i < |front| ==> front[i] == text[i];
    FirstIndex(text, COLON, |front|);
    assert text[..|front|] == front;
    TrimPads(p1, name, p2);
  }

  lemma ClassifyParts(p1: Text, name: Text, p2: Text, after: Text)
    requires Padding(p1) && Padding(p2) && Solid(name) && COLON !in name
    requires |p1 + name + p2 + [COLON] + after + [CR, NL]| <= 1024
    ensures Classify(p1 + name + p2 + [COLON] + after + [CR, NL]) ==
      if !Spelling(name) then Other
      else match Atoi(TrimSpace(after))
        case None => Wrong(BadFraming)
        case Some(n) => if n < 0 then Wrong(BadFraming) else Length(n)
  {
    hide TrimSpace, Atoi, NamesLength, Spelling;
    var text := p1 + name + p2 + [COLON] + after;
    var line := text + [CR, NL];
    LineParts(p1, name, p2, after);
    SpellingExactly(name);
    assert line[..|line| - 2] == text && line[|line| - 2..] == [CR, NL];
  }

  /** An optional sign and a printed number. */
  function Signed(sign: Option<byte>, n: nat): Text {
    (if sign.Some? then [sign.value] else []) + Digits(n)
  }

  lemma AtoiSigned(sign: Option<byte>, n: nat)
    requires sign.Some? ==> sign.value == 43 || sign.value == 45
    ensures Solid(Signed(sign, n))
    ensures Atoi(Signed(sign, n)) ==
      if sign == Some(45) then if n <= 0x8000_0000_0000_0000 then Some(0 - n) else None
      else if n <= 0x7FFF_FFFF_FFFF_FFFF then Some(n) else None
  {
    hide Decimal, Digits;
    var d := Digits(n);
    DecimalOfDigits(n);
    assert IsDigit(d[0]) && IsDigit(d[|d| - 1]);
    assert [] + d == d;
    assert sign.Some? ==> Signed(sign, n)[1..] == d;
  }

  /** However it is spelled, padded and signed, a length header declares its number,
      unless the line is too long or the number negative or beyond 64 bits. */
  lemma LengthExactly(p1: Text, name: Text, p2: Text, p3: Text, sign: Option<byte>, n: nat, p4: Text)
    requires Padding(p1) && Padding(p2) && Padding(p3) && Padding(p4) && Spelling(name)
    requires sign.Some? ==> sign.value == 43 || sign.value == 45
    ensures var line := HeaderLine(p1, name, p2, p3, Signed(sign, n), p4);
      Classify(line) ==
      if |line| > 1024 then Wrong(HeaderTooLong)
      else if n > 0x7FFF_FFFF_FFFF_FFFF || (sign == Some(45) && n > 0) then Wrong(BadFraming)
      else Length(n)
  {
    SpellingSolid(name);
    LinesTooLong(HeaderLine(p1, name, p2, p3, Signed(sign, n), p4));
    hide TrimSpace, Atoi, Signed, Spelling, Classify, Padding, Solid;
    AtoiSigned(sign, n);
    TrimPads(p3, Signed(sign, n), p4);
    if |HeaderLine(p1, name, p2, p3, Signed(sign, n), p4)| <= 1024 {
      ClassifyParts(p1, name, p2, p3 + Signed(sign, n) + p4);
    }
  }

  lemma SpellingSolid(name: Text)
    requires Spelling(name)
    ensures Solid(name) && COLON !in name
  {
    assert name[0] == UPPER_NAME[0] || name[0] == LOWER_NAME[0];
    assert name[13] == UPPER_NAME[13] || name[13] == LOWER_NAME[13];
    forall i | 0 <= i < 14 ensures name[i] != COLON {
      assert name[i] == UPPER_NAME[i] || name[i] == LOWER_NAME[i];
    }
  }

  lemma LinesTooLong(line: Text)
    ensures |line| > 1024 ==> Classify(line) == Wrong(HeaderTooLong)
  {
  }

  /** A length that is no number is malformed: empty, or with anything in it but digits
      behind at most one sign. */
  lemma NotANumber(p1: Text, name: Text, p2: Text, p3: Text, value: Text, p4: Text)
    requires Padding(p1) && Padding(p2) && Padding(p3) && Padding(p4) && Spelling(name)
    requires value == [] || Solid(value)
    requires value == [] || value == [43] || value == [45]
      || exists i :: 0 <= i < |value| && !IsDigit(value[i]) && (i > 0 || (value[0] != 43 && value[0] != 45))
    requires |HeaderLine(p1, name, p2, p3, value, p4)| <= 1024
    ensures Classify(HeaderLine(p1, name, p2, p3, value, p4)) == Wrong(BadFraming)
  {
    SpellingSolid(name);
    NoAtoi(value);
    TrimValue(p3, value, p4);
    hide TrimSpace, Atoi, Spelling, Classify, Padding, Solid, IsDigit;
    ClassifyParts(p1, name, p2, p3 + value + p4);
  }

  lemma TrimValue(p: Text, value: Text, q: Text)
    requires Padding(p) && Padding(q) && (value == [] || Solid(value))
    ensures TrimSpace(p + value + q) == value
  {
    hide TrimSpace;
    if value == [] {
      assert p + value + q == p + q;
      TrimPads(p, [33], q);
    } else {
      TrimPads(p, value, q);
    }
  }

  lemma NoAtoi(value: Text)
    requires value == [] || value == [43] || value == [45]
      || exists i :: 0 <= i < |value| && !IsDigit(value[i]) && (i > 0 || (value[0] != 43 && value[0] != 45))
    ensures Atoi(value) == None
  {
    hide Decimal;
    if value != [] && value != [43] && value != [45] {
      var i :| 0 <= i < |value| && !IsDigit(value[i]) && (i > 0 || (value[0] != 43 && value[0] != 45));
      if value[0] == 43 || value[0] == 45 {
        assert value[1..][i - 1] == value[i];
      }
    }
  }

  /** Any other header is skipped, whatever its value. */
  lemma OthersSkipped(p1: Text, name: Text, p2: Text, after: Text)
    requires Padding(p1) && Padding(p2) && Solid(name) && COLON !in name && !Spelling(name)
    requires |p1 + name + p2 + [COLON] + after + [CR, NL]| <= 1024
    ensures Classify(p1 + name + p2 + [COLON] + after + [CR, NL]) == Other
  {
    hide Classify, Padding, Solid, Spelling, Atoi, TrimSpace;
    ClassifyParts(p1, name, p2, after);
  }

  /** A line that does not end in CR NL, or has no colon, is malformed. */
  lemma Malformed(line: Text)
    requires |line| <= 1024
    ensures |line| < 2 || line[|line| - 2] != CR || line[|line| - 1] != NL ==> Classify(line) == Wrong(BadFraming)
    ensures |line| > 2 && COLON !in line ==> Classify(line) == Wrong(BadFraming)
  {
    hide TrimSpace, Atoi, NamesLength;
    if |line| > 2 && COLON !in line {
      var text := line[..|line| - 2];
      assert forall i :: 0 <= i < |text| ==> text[i] == line[i];
      assert IndexOf(text, COLON) == |text|;
    }
  }

  /** A frame announcing more than the limit is refused once its header has been read. */
  lemma OversizedRefused(n: nat, rest: Text, max: nat)
    requires max < n <= MAX_INT
    ensures ReadFrame(Header(n) + rest, max) == Failed(PayloadTooLarge, rest)
  {
    hide Header, HeadersFrom;
    HeaderIsRead(n, rest);
  }

  // ----- header blocks in general -----

  /** A header line as a server may write it. */
  predicate WellFormed(line: Text) {
    && line != [] && line[|line| - 1] == NL && (forall k :: 0 <= k < |line| - 1 ==> line[k] != NL)
    && (Classify(line).Length? || Classify(line).Other?)
  }

  function Block(lines: seq<Text>): Text {
    if lines == [] then [CR, NL] else lines[0] + Block(lines[1..])
  }

  /** The last length a block declares, or `length`. */
  function LastLength(lines: seq<Text>, length: int): int {
    if lines == [] then length
    else match Classify(lines[|lines| - 1])
      case Length(n) => n
      case _ => LastLength(lines[..|lines| - 1], length)
  }

  lemma {:induction false} LastLengthFront(lines: seq<Text>, length: int)
    requires lines != []
    ensures LastLength(lines, length) ==
      LastLength(lines[1..], match Classify(lines[0]) case Length(n) => n case _ => length)
  {
    hide Classify;
    if |lines| == 1 {
      assert lines[..0] == [] && lines[1..] == [];
    } else {
      assert lines[1..][..|lines| - 2] == lines[..|lines| - 1][1..];
      LastLengthFront(lines[..|lines| - 1], length);
    }
  }

  lemma LastLengthBound(lines: seq<Text>, length: int)
    requires length >= -1
    ensures LastLength(lines, length) >= -1
  {
    hide Classify;
  }

  /** Any block of well-formed lines, other headers among them and in any order: the
      last declared length counts, a block without one is an error, and so is a block
      of 32 lines or more before its blank line. */
  lemma {:induction false} BlockIsRead(lines: seq<Text>, rest: Text, i: nat, length: int)
    requires length >= -1 && i <= MAX_HEADER_LINES && forall k :: 0 <= k < |lines| ==> WellFormed(lines[k])
    ensures LastLength(lines, length) >= -1
    ensures var h := HeadersFrom(Block(lines) + rest, i, length);
      if i + |lines| >= MAX_HEADER_LINES then h.Rejected? && h.error == TooManyHeaders
      else if LastLength(lines, length) < 0 then h == Rejected(MissingContentLength, rest)
      else h == Declared(LastLength(lines, length), rest)
    decreases |lines|
  {
    hide Classify, HeadersFrom;
    LastLengthBound(lines, length);
    if i == MAX_HEADER_LINES {
      TooMany(Block(lines) + rest, i, length);
    } else if lines == [] {
      BlankLine();
      TakeLine([CR, NL], rest, i, length);
    } else {
      var next := match Classify(lines[0]) case Length(n) => n case _ => length;
      LastLengthFront(lines, length);
      assert Block(lines) + rest == lines[0] + (Block(lines[1..]) + rest);
      TakeLine(lines[0], Block(lines[1..]) + rest, i, length);
      BlockIsRead(lines[1..], rest, i + 1, next);
    }
  }

  // ----- streams that end too early -----

  predicate Ended(e: FrameError) {
    e == EndOfInput || e == UnexpectedEnd
  }

  function WithMore(h: Headers, more: Text): Headers {
    match h
    case Declared(n, rest) => Declared(n, rest + more)
    case Rejected(error, rest) => Rejected(error, rest + more)
  }

  lemma HeadersStep(s: Text, i: nat, length: int)
    requires length >= -1 && i < MAX_HEADER_LINES
    ensures var nl := IndexOf(s, NL);
      HeadersFrom(s, i, length) ==
      if nl == |s| then Rejected(EndOfInput, [])
      else match Classify(s[..nl + 1])
        case Wrong(error) => Rejected(error, s[nl + 1..])
        case Blank => if length < 0 then Rejected(MissingContentLength, s[nl + 1..]) else Declared(length, s[nl + 1..])
        case Length(n) => HeadersFrom(s[nl + 1..], i + 1, n)
        case Other => HeadersFrom(s[nl + 1..], i + 1, length)
  {
    hide Classify, IndexOf;
  }

  lemma SameLine(s: Text, more: Text)
    requires IndexOf(s, NL) < |s|
    ensures var nl := IndexOf(s, NL);
      IndexOf(s + more, NL) == nl && (s + more)[..nl + 1] == s[..nl + 1] && (s + more)[nl + 1..] == s[nl + 1..] + more
  {
    FirstIndex(s + more, NL, IndexOf(s, NL));
  }

  /** Reading never looks past what it consumes: bytes that arrive later do not change
      a read that did not run out of input. */
  lemma {:induction false} HeadersLocal(s: Text, more: Text, i: nat, length: int)
    requires length >= -1
    requires HeadersFrom(s, i, length).Rejected? ==> HeadersFrom(s, i, length).error != EndOfInput
    ensures HeadersFrom(s + more, i, length) == WithMore(HeadersFrom(s, i, length), more)
    decreases MAX_HEADER_LINES - i
  {
    hide Classify, HeadersFrom, IndexOf;
    if i >= MAX_HEADER_LINES {
      TooMany(s, i, length);
      TooMany(s + more, i, length);
    } else {
      HeadersStep(s, i, length);
      HeadersStep(s + more, i, length);
      SameLine(s, more);
      var rest := s[IndexOf(s, NL) + 1..];
      match Classify(s[..IndexOf(s, NL) + 1]) {
        case Length(n) => HeadersLocal(rest, more, i + 1, n);
        case Other => HeadersLocal(rest, more, i + 1, length);
        case _ =>
      }
    }
  }

  lemma TooMany(s: Text, i: nat, length: int)
    requires length >= -1 && i >= MAX_HEADER_LINES
    ensures HeadersFrom(s, i, length) == Rejected(TooManyHeaders, s)
  {
  }

  lemma ReadLocal(s: Text, more: Text, max: nat)
    requires ReadFrame(s, max).Failed? ==> !Ended(ReadFrame(s, max).error)
    ensures var r := ReadFrame(s, max);
      ReadFrame(s + more, max) == if r.Got? then Got(r.body, r.rest + more) else Failed(r.error, r.rest + more)
  {
    hide HeadersFrom;
    HeadersLocal(s, more, 0, -1);
    var h := HeadersFrom(s, 0, -1);
    if h.Declared? && h.length <= max {
      assert (h.rest + more)[..h.length] == h.rest[..h.length];
      assert (h.rest + more)[h.length..] == h.rest[h.length..] + more;
    }
  }

  /** A frame cut short is never taken for a message. */
  lemma CutFrame(body: Text, n: nat, max: nat)
    requires |body| <= max <= MAX_INT && n < |Frame(body)|
    ensures var r := ReadFrame(Frame(body)[..n], max); r.Failed? && Ended(r.error)
  {
    hide Frame, ReadFrame;
    var f := Frame(body);
    FrameIsRead(body, [], max);
    assert f + [] == f;
    assert f[..n] + f[n..] == f && |f[n..]| > 0;
    var r := ReadFrame(f[..n], max);
    if r.Got? || !Ended(r.error) {
      ReadLocal(f[..n], f[n..], max);
      assert false;
    }
  }

  /** How many whole frames fit in the first n bytes. */
  function Whole(bodies: seq<Text>, n: nat): (k: nat)
    ensures k <= |bodies|
  {
    if bodies == [] || n < |Frame(bodies[0])| then 0 else 1 + Whole(bodies[1..], n - |Frame(bodies[0])|)
  }

  /** A stream cut anywhere yields the bodies of its whole frames and then the end of
      the input: no body is lost, invented or mixed with another. */
  lemma {:induction false} CutStream(bodies: seq<Text>, n: nat, max: nat)
    requires max <= MAX_INT && n <= |Frames(bodies)| && forall i :: 0 <= i < |bodies| ==> |bodies[i]| <= max
    ensures var r := ReadAll(Frames(bodies)[..n], max);
      r.bodies == bodies[..Whole(bodies, n)] && Ended(r.error)
    decreases |bodies|
  {
    hide Frame, ReadFrame;
    if bodies == [] {
      NothingToRead(max);
    } else {
      var f, rest := Frame(bodies[0]), Frames(bodies[1..]);
      if n < |f| {
        assert (f + rest)[..n] == f[..n];
        CutFrame(bodies[0], n, max);
      } else {
        assert (f + rest)[..n] == f + rest[..n - |f|];
        FrameIsRead(bodies[0], rest[..n - |f|], max);
        CutStream(bodies[1..], n - |f|, max);
        assert [bodies[0]] + bodies[1..][..Whole(bodies[1..], n - |f|)] == bodies[..Whole(bodies, n)];
      }
    }
  }

  // ----- writing -----

  /** What a write leaves in the stream: one more frame, or nothing for a body over the
      limit. */
  function Written(output: Text, body: Text, max: nat): Text {
    if |body| > max then output else output + Frame(body)
  }

  function WrittenAll(bodies: seq<Text>, max: nat): Text {
    if bodies == [] then [] else Written(WrittenAll(bodies[..|bodies| - 1], max), bodies[|bodies| - 1], max)
  }

  /** The bodies that are not refused. */
  function Accepted(bodies: seq<Text>, max: nat): (r: seq<Text>)
    ensures forall i :: 0 <= i < |r| ==> |r[i]| <= max
  {
    if bodies == [] then []
    else
      var front, body := Accepted(bodies[..|bodies| - 1], max), bodies[|bodies| - 1];
      if |body| > max then front else front + [body]
  }

  lemma {:induction false} FramesSnoc(bodies: seq<Text>, body: Text)
    ensures Frames(bodies + [body]) == Frames(bodies) + Frame(body)
  {
    hide Frame;
    if bodies == [] {
      assert [] + [body] == [body];
      assert Frames([body]) == Frame(body) + Frames([body][1..]);
    } else {
      assert (bodies + [body])[1..] == bodies[1..] + [body];
      FramesSnoc(bodies[1..], body);
    }
  }

  lemma {:induction false} WrittenFrames(bodies: seq<Text>, max: nat)
    ensures WrittenAll(bodies, max) == Frames(Accepted(bodies, max))
  {
    hide Frame;
    if bodies != [] {
      WrittenFrames(bodies[..|bodies| - 1], max);
      FramesSnoc(Accepted(bodies[..|bodies| - 1], max), bodies[|bodies| - 1]);
    }
  }

  /** Writing any bodies one after the other and reading the stream gives back, in order
      and with nothing left over, exactly those that were not refused. */
  lemma WrittenIsRead(bodies: seq<Text>, max: nat)
    requires max <= MAX_INT
    ensures ReadAll(WrittenAll(bodies, max), max) == Session(Accepted(bodies, max), EndOfInput, [])
  {
    hide Frame, ReadFrame, ReadAll, WrittenAll, Accepted;
    WrittenFrames(bodies, max);
    FramesAreRead(Accepted(bodies, max), max);
  }

  // ----- the connection -----

  class Conn {
    const maxPayload: nat
    var input: Text
    var output: Text

    constructor (max: int, input: Text)
      ensures maxPayload == (if max <= 0 then 16 * 1024 * 1024 else max)
      ensures this.input == input && output == []
    {
      maxPayload := if max <= 0 then 16 * 1024 * 1024 else max;
      this.input, output := input, [];
    }

    /** bufio.Reader.ReadString('\\n'): the bytes up to and including the next newline. */
    method ReadString() returns (line: Option<Text>)
      modifies this`input
      ensures var s := old(input); var nl := IndexOf(s, NL);
        if nl == |s| then line == None && input == []
        else line == Some(s[..nl + 1]) && input == s[nl + 1..]
    {
      var i := 0;
      while i < |input| && input[i] != NL
        invariant 0 <= i <= |input| && forall k :: 0 <= k < i ==> input[k] != NL
        modifies {}
      {
        i := i + 1;
      }
      FirstIndex(input, NL, i);
      if i == |input| {
        input := [];
        return None;
      }
      line := Some(input[..i + 1]);
      input := input[i + 1..];
    }

    /** readHeaders. */
    method ReadHeaders() returns (h: Headers)
      modifies this`input
      ensures h == HeadersFrom(old(input), 0, -1) && input == h.rest
    {
      hide Classify, HeadersFrom, IndexOf;
      var contentLength: int := -1;
      var i := 0;
      while i < MAX_HEADER_LINES
        invariant 0 <= i <= MAX_HEADER_LINES && contentLength >= -1
        invariant HeadersFrom(input, i, contentLength) == HeadersFrom(old(input), 0, -1)
      {
        HeadersStep(input, i, contentLength);
        var line := ReadString();
        if line.None? {
          return Rejected(EndOfInput, input);
        }
        match Classify(line.value) {
          case Wrong(error) => return Rejected(error, input);
          case Blank =>
            if contentLength < 0 {
              return Rejected(MissingContentLength, input);
            }
            return Declared(contentLength, input);
          case Length(n) => contentLength := n;
          case Other =>
        }
        i := i + 1;
      }
      TooMany(input, i, contentLength);
      return Rejected(TooManyHeaders, input);
    }

    /** Read; the body is returned undecoded. */
    method Read() returns (r: Outcome)
      modifies this`input
      ensures r == ReadFrame(old(input), maxPayload) && input == r.rest
    {
      hide HeadersFrom;
      var h := ReadHeaders();
      if h.Rejected? {
        return Failed(h.error, input);
      }
      if h.length > maxPayload {
        return Failed(PayloadTooLarge, input);
      }
      if |input| < h.length {
        input := [];
        return Failed(UnexpectedEnd, input);
      }
      r := Got(input[..h.length], input[h.length..]);
      input := input[h.length..];
    }

    /** Write; a body over the limit is refused and nothing is written. */
    method Write(body: Text) returns (ok: bool)
      modifies this`output
      ensures ok == (|body| <= maxPayload)
      ensures output == Written(old(output), body, maxPayload)
    {
      if |body| > maxPayload {
        return false;
      }
      var buf := CONTENT_LENGTH + [COLON, 32];
      buf := buf + Digits(|body|);
      buf := buf + [CR, NL, CR, NL];
      buf := buf + body;
      output := output + buf;
      ok := true;
    }
  }
}
