/** The escape-sequence parser as a value (internal/terminal/parser.go).

    The parser turns a stream of bytes into events for the screen; `FeedAll` is that
    transducer and `Play` what the events do to a screen and to the reply stream.
    Cursor reports follow sections 8.3.14 (CPR), 8.3.21 (CUP) and 8.3.35 (DSR) of
    ECMA-48. `Parsers.Parser` is the object that behaves like this value. */
module ParserModel {
  import opened Texts
  import opened Utf8
  import opened Decimals
  import opened ScreenModel

  const MAX_PARAM_BYTES: nat := 128
  const MAX_PARAMS: nat := 32
  const MAX_PARAM_VALUE: nat := 65535
  const MAX_OSC_BYTES: nat := 4096

  const ESC: byte := 0x1B
  const BEL: byte := 0x07

  datatype Mode = Ground | Escape | EscapeIntermediate | Csi | Osc | OscEscape

  datatype Machine = Machine(
    mode: Mode,
    partial: Text, want: nat,
    params: Text, priv: bool, ignored: bool,
    osc: Text, overflow: bool)

  datatype Event = Do(op: Op) | Report

  datatype Fed = Fed(machine: Machine, events: seq<Event>)

  predicate IsParamByte(b: int) {
    0x30 <= b <= 0x3B
  }

  /** A partial rune exists only in ground state and is shorter than its lead byte
      announces; the buffers respect their limits. */
  predicate MachineOk(m: Machine) {
    && (m.partial != [] ==>
          && m.mode == Ground && |m.partial| < m.want == Announced(m.partial[0])
          && forall i :: 0 < i < |m.partial| ==> Cont(m.partial[i]))
    && |m.params| <= MAX_PARAM_BYTES && (forall i :: 0 <= i < |m.params| ==> IsParamByte(m.params[i]))
    && |m.osc| <= MAX_OSC_BYTES
  }

  // ----- parameter lists -----

  predicate IsSeparator(b: byte) {
    b == 0x3B || b == 0x3A
  }

  /** The stretches between separators. */
  function Fields(buf: Text): (fs: seq<Text>)
    ensures |fs| >= 1
  {
    if buf == [] then [[]]
    else
      var fs := Fields(buf[..|buf| - 1]);
      var c := buf[|buf| - 1];
      if IsSeparator(c) then fs + [[]] else fs[|fs| - 1 := fs[|fs| - 1] + [c]]
  }

  function Capped(n: nat): nat {
    if n > MAX_PARAM_VALUE then MAX_PARAM_VALUE else n
  }

  function Values(fs: seq<Text>): (vs: seq<nat>)
    ensures |vs| == |fs| && forall i :: 0 <= i < |fs| ==> vs[i] == Capped(Decimal(fs[i]))
  {
    seq(|fs|, i requires 0 <= i < |fs| => Capped(Decimal(fs[i])))
  }

  /** One value per field, capped; of more than 33 fields only the first 32 and the
      last count. */
  function Kept<T>(vs: seq<T>): (r: seq<T>)
    requires vs != []
    ensures 1 <= |r| <= MAX_PARAMS + 1
  {
    if |vs| <= MAX_PARAMS + 1 then vs else vs[..MAX_PARAMS] + [vs[|vs| - 1]]
  }

  function ParamsOf(buf: Text): (ps: seq<nat>)
    ensures |ps| <= MAX_PARAMS + 1 && forall i :: 0 <= i < |ps| ==> ps[i] <= MAX_PARAM_VALUE
  {
    if buf == [] then [] else Kept(Values(Fields(buf)))
  }

  function ParamAt(ps: seq<nat>, i: nat): nat {
    if i < |ps| then ps[i] else 0
  }

  /** Missing and zero both mean the default. */
  function ParamDefault(ps: seq<nat>, i: nat, def: nat): nat {
    if i < |ps| && ps[i] > 0 then ps[i] else def
  }

  // ----- events of one byte -----

  function ControlEvents(b: byte): seq<Event> {
    if b == 0x08 then [Do(Op.BackSpace)]
    else if b == 0x09 then [Do(Op.Tab)]
    else if b == 0x0A || b == 0x0B || b == 0x0C then [Do(Op.LineFeed)]
    else if b == 0x0D then [Do(Op.CarriageReturn)]
    else []
  }

  /** A byte in ground state with no rune under way. */
  function FeedFresh(m: Machine, b: byte): Fed {
    if b == ESC then Fed(m.(mode := Escape), [])
    else if b < 0x20 then Fed(m, ControlEvents(b))
    else if b == 0x7F then Fed(m, [])
    else if b < 0x80 then Fed(m, [Do(Op.PutRune(b))])
    else if 0xC2 <= b <= 0xDF then Fed(m.(partial := [b], want := 2), [])
    else if 0xE0 <= b <= 0xEF then Fed(m.(partial := [b], want := 3), [])
    else if 0xF0 <= b <= 0xF4 then Fed(m.(partial := [b], want := 4), [])
    else Fed(m, [Do(Op.PutRune(RUNE_ERROR))])
  }

  function FeedGround(m: Machine, b: byte): Fed {
    if m.partial == [] then FeedFresh(m, b)
    else if 0x80 <= b < 0xC0 then
      var part := m.partial + [b];
      if |part| == m.want then Fed(m.(partial := []), [Do(Op.PutRune(DecodeRune(part).rune))])
      else Fed(m.(partial := part), [])
    else
      var f := FeedFresh(m.(partial := []), b);
      Fed(f.machine, [Do(Op.PutRune(RUNE_ERROR))] + f.events)
  }

  function FeedEscape(m: Machine, b: byte): Fed {
    var ground := m.(mode := Ground);
    if b == 0x5B then Fed(m.(mode := Csi, params := [], priv := false, ignored := false), [])
    else if b == 0x5D then Fed(m.(mode := Osc, osc := [], overflow := false), [])
    else if b == 0x37 then Fed(ground, [Do(Op.SaveCursor)])
    else if b == 0x38 then Fed(ground, [Do(Op.RestoreCursor)])
    else if b == 0x63 then Fed(ground, [Do(Op.Reset)])
    else if b == 0x44 then Fed(ground, [Do(Op.LineFeed)])
    else if b == 0x45 then Fed(ground, [Do(Op.CarriageReturn), Do(Op.LineFeed)])
    else if b == 0x4D then Fed(ground, [Do(Op.ReverseLineFeed)])
    else if b == ESC then Fed(m, [])
    else if 0x20 <= b <= 0x2F then Fed(m.(mode := EscapeIntermediate), [])
    else if b < 0x20 then Fed(m, ControlEvents(b))
    else Fed(ground, [])
  }

  function FeedIntermediate(m: Machine, b: byte): Fed {
    if b == ESC then Fed(m.(mode := Escape), [])
    else if 0x20 <= b <= 0x2F then Fed(m, [])
    else if 0x30 <= b <= 0x7E then Fed(m.(mode := Ground), [])
    else if b < 0x20 then Fed(m, ControlEvents(b))
    else Fed(m, [])
  }

  function FeedCsi(m: Machine, b: byte): Fed {
    if b == ESC then Fed(m.(mode := Escape), [])
    else if 0x40 <= b <= 0x7E then
      Fed(m.(mode := Ground), if m.ignored then [] else CsiEvents(ParamsOf(m.params), m.priv, b))
    else if b >= 0x3C then Fed(if b == 0x3F then m.(priv := true) else m.(ignored := true), [])
    else if b >= 0x30 then
      if |m.params| >= MAX_PARAM_BYTES then Fed(m.(ignored := true), [])
      else Fed(m.(params := m.params + [b]), [])
    else if b >= 0x20 then Fed(m.(ignored := true), [])
    else Fed(m, ControlEvents(b))
  }

  function ModeEvents(mode: nat, on: bool): seq<Event> {
    if mode == 25 then [Do(Op.SetCursorVisible(on))]
    else if mode == 47 || mode == 1047 || mode == 1049 then [Do(Op.SetAltScreen(on))]
    else if mode == 2004 then [Do(Op.SetBracketedPaste(on))]
    else []
  }

  function ModesEvents(modes: seq<nat>, on: bool): seq<Event> {
    if modes == [] then [] else ModesEvents(modes[..|modes| - 1], on) + ModeEvents(modes[|modes| - 1], on)
  }

  function CsiEvents(ps: seq<nat>, priv: bool, final: byte): seq<Event> {
    if priv then
      if final == 0x68 then ModesEvents(ps, true) else if final == 0x6C then ModesEvents(ps, false) else []
    else if 0x41 <= final <= 0x48 || final == 0x66 || final == 0x64 then CursorEvents(ps, final)
    else if 0x40 <= final <= 0x5A then EditEvents(ps, final)
    else OtherEvents(ps, final)
  }

  function CursorEvents(ps: seq<nat>, final: byte): seq<Event> {
    var n: int := ParamDefault(ps, 0, 1);
    if final == 0x41 then [Do(Op.MoveCursor(0, -n))]
    else if final == 0x42 then [Do(Op.MoveCursor(0, n))]
    else if final == 0x43 then [Do(Op.MoveCursor(n, 0))]
    else if final == 0x44 then [Do(Op.MoveCursor(-n, 0))]
    else if final == 0x45 then [Do(Op.MoveCursor(0, n)), Do(Op.CarriageReturn)]
    else if final == 0x46 then [Do(Op.MoveCursor(0, -n)), Do(Op.CarriageReturn)]
    else if final == 0x47 then [Do(Op.SetCursorCol(n - 1))]
    else if final == 0x48 || final == 0x66 then [Do(Op.SetCursor(ParamDefault(ps, 1, 1) - 1, n - 1))]
    else if final == 0x64 then [Do(Op.SetCursorRow(n - 1))]
    else []
  }

  function EditEvents(ps: seq<nat>, final: byte): seq<Event> {
    var n := ParamDefault(ps, 0, 1);
    var mode := ParamAt(ps, 0);
    if final == 0x4A then
      if mode == 3 then [Do(Op.EraseDisplay(2)), Do(Op.ClearScrollback)] else [Do(Op.EraseDisplay(mode))]
    else if final == 0x4B then [Do(Op.EraseLine(mode))]
    else if final == 0x4C then [Do(Op.InsertLines(n))]
    else if final == 0x4D then [Do(Op.DeleteLines(n))]
    else if final == 0x50 then [Do(Op.DeleteChars(n))]
    else if final == 0x40 then [Do(Op.InsertChars(n))]
    else if final == 0x53 then [Do(Op.ScrollUp(n))]
    else if final == 0x54 then if |ps| <= 1 then [Do(Op.ScrollDown(n))] else []
    else if final == 0x58 then [Do(Op.EraseChars(n))]
    else []
  }

  const LAST_ROW: nat := 0x4000_0000

  function OtherEvents(ps: seq<nat>, final: byte): seq<Event> {
    if final == 0x72 then
      var bottom := ParamAt(ps, 1);
      [Do(Op.SetScrollRegion(ParamDefault(ps, 0, 1) - 1, (if bottom == 0 then LAST_ROW else bottom) - 1))]
    else if final == 0x73 then [Do(Op.SaveCursor)]
    else if final == 0x75 then [Do(Op.RestoreCursor)]
    else if final == 0x6D then [Do(Op.ApplySGR(ps))]
    else if final == 0x6E then if ParamAt(ps, 0) == 6 then [Report] else []
    else []
  }

  function TitleEvents(osc: Text, overflow: bool): seq<Event> {
    var i := IndexOf(osc, 0x3B);
    if overflow || i == |osc| then []
    else if osc[..i] == [0x30] || osc[..i] == [0x32] then [Do(Op.SetTitle(osc[i + 1..]))]
    else []
  }

  function FeedOsc(m: Machine, b: byte): Fed {
    if b == BEL then Fed(m.(mode := Ground), TitleEvents(m.osc, m.overflow))
    else if b == ESC then Fed(m.(mode := OscEscape), [])
    else if |m.osc| < MAX_OSC_BYTES then Fed(m.(osc := m.osc + [b]), [])
    else Fed(m.(overflow := true), [])
  }

  function FeedOscEscape(m: Machine, b: byte): Fed {
    if b == 0x5C then Fed(m.(mode := Ground), TitleEvents(m.osc, m.overflow))
    else FeedEscape(m.(mode := Escape), b)
  }

  function Feed(m: Machine, b: byte): Fed {
    match m.mode
    case Escape => FeedEscape(m, b)
    case EscapeIntermediate => FeedIntermediate(m, b)
    case Csi => FeedCsi(m, b)
    case Osc => FeedOsc(m, b)
    case OscEscape => FeedOscEscape(m, b)
    case Ground => FeedGround(m, b)
  }

  function FeedAll(m: Machine, data: Text): Fed {
    if data == [] then Fed(m, [])
    else
      var before := FeedAll(m, data[..|data| - 1]);
      var f := Feed(before.machine, data[|data| - 1]);
      Fed(f.machine, before.events + f.events)
  }

  // ----- what the events do -----

  /** A screen and the reply stream; without a reply writer nothing is reported. */
  datatype Terminal = Terminal(screen: State, connected: bool, out: Text)

  /** ESC [ row ; column and a final byte, one-based. */
  function Position(x: nat, y: nat, final: byte): Text {
    [ESC, 0x5B] + Digits(y + 1) + [0x3B] + Digits(x + 1) + [final]
  }

  const CPR: byte := 0x52
  const CUP: byte := 0x48

  function Perform(t: Terminal, e: Event): (r: Terminal)
    requires Ok(t.screen)
    ensures Ok(r.screen)
  {
    match e
    case Do(op) => ApplyOk(t.screen, op); t.(screen := Apply(t.screen, op))
    case Report =>
      if t.connected then t.(out := t.out + Position(Active(t.screen).x, Active(t.screen).y, CPR)) else t
  }

  function Play(t: Terminal, events: seq<Event>): (r: Terminal)
    requires Ok(t.screen)
    ensures Ok(r.screen)
  {
    if events == [] then t else Perform(Play(t, events[..|events| - 1]), events[|events| - 1])
  }

  // ----- chunks -----

  lemma {:induction false} PlayConcat(t: Terminal, a: seq<Event>, b: seq<Event>)
    requires Ok(t.screen)
    ensures Play(t, a + b) == Play(Play(t, a), b)
  {
    hide Perform, Ok;
    if b == [] {
      assert a + b == a;
    } else {
      assert (a + b)[..|a + b| - 1] == a + b[..|b| - 1];
      PlayConcat(t, a, b[..|b| - 1]);
    }
  }

  /** Feeding a stream whole or in any chunks is the same. */
  lemma {:induction false} FeedConcat(m: Machine, a: Text, b: Text)
    ensures var fa := FeedAll(m, a); var fb := FeedAll(fa.machine, b);
      FeedAll(m, a + b) == Fed(fb.machine, fa.events + fb.events)
  {
    hide Feed;
    var fa := FeedAll(m, a);
    if b == [] {
      assert a + b == a;
      assert fa.events + [] == fa.events;
    } else {
      var front := b[..|b| - 1];
      assert (a + b)[..|a + b| - 1] == a + front;
      FeedConcat(m, a, front);
      var f := Feed(FeedAll(fa.machine, front).machine, b[|b| - 1]);
      assert fa.events + FeedAll(fa.machine, front).events + f.events == fa.events + (FeedAll(fa.machine, front).events + f.events);
    }
  }

  lemma FeedOne(m: Machine, b: byte)
    ensures FeedAll(m, [b]) == Feed(m, b)
  {
    hide Feed;
    assert [b][..0] == [];
    assert [] + Feed(m, b).events == Feed(m, b).events;
  }

  lemma FeedCons(m: Machine, b: byte, rest: Text)
    ensures var f := Feed(m, b); var r := FeedAll(f.machine, rest);
      FeedAll(m, [b] + rest) == Fed(r.machine, f.events + r.events)
  {
    hide Feed, FeedAll;
    FeedConcat(m, [b], rest);
    FeedOne(m, b);
  }

  // ----- the invariant, for arbitrary bytes -----

  lemma GroundOk(m: Machine, b: byte)
    requires MachineOk(m) && m.mode == Ground
    ensures MachineOk(FeedGround(m, b).machine)
  {
  }

  lemma FeedOk(m: Machine, b: byte)
    requires MachineOk(m)
    ensures MachineOk(Feed(m, b).machine)
  {
    hide FeedGround, CsiEvents, TitleEvents, ControlEvents;
    if m.mode == Ground {
      GroundOk(m, b);
    }
  }

  lemma {:induction false} FeedAllOk(m: Machine, data: Text)
    requires MachineOk(m)
    ensures MachineOk(FeedAll(m, data).machine)
  {
    hide Feed, MachineOk;
    if data != [] {
      FeedAllOk(m, data[..|data| - 1]);
      FeedOk(FeedAll(m, data[..|data| - 1]).machine, data[|data| - 1]);
    }
  }

  // ----- streaming UTF-8 -----

  predicate Idle(m: Machine) {
    m.mode == Ground && m.partial == []
  }

  /** Everything but the remembered length of the last rune. */
  ghost predicate SameBut(m: Machine, n: Machine) {
    n == m.(want := n.want)
  }

  function RuneEvents(r: Rune): seq<Event> {
    if r < 0x20 then ControlEvents(r) else if r == 0x7F then [] else [Do(Op.PutRune(r))]
  }

  function RunesEvents(rs: seq<Rune>): seq<Event> {
    if rs == [] then [] else RuneEvents(rs[0]) + RunesEvents(rs[1..])
  }

  /** A prefix of an encoded rune longer than a byte is held back. */
  lemma {:induction false} HoldsPrefix(m: Machine, e: Text, k: nat)
    requires Idle(m) && 0 < k < |e| && |e| == Announced(e[0]) && forall i :: 0 < i < |e| ==> Cont(e[i])
    ensures FeedAll(m, e[..k]) == Fed(m.(partial := e[..k], want := |e|), [])
  {
    hide FeedAll, DecodeRune;
    if k == 1 {
      assert e[..1] == [e[0]];
      FeedOne(m, e[0]);
    } else {
      HoldsPrefix(m, e, k - 1);
      assert e[..k] == e[..k - 1] + [e[k - 1]];
      FeedConcat(m, e[..k - 1], [e[k - 1]]);
      FeedOne(m.(partial := e[..k - 1], want := |e|), e[k - 1]);
    }
  }

  lemma FeedWhole(m: Machine, e: Text)
    requires Idle(m) && |e| > 1 && |e| == Announced(e[0]) && forall i :: 0 < i < |e| ==> Cont(e[i])
    ensures FeedAll(m, e) == Fed(m.(want := |e|), [Do(Op.PutRune(DecodeRune(e).rune))])
  {
    hide FeedAll, DecodeRune;
    var n := |e| - 1;
    HoldsPrefix(m, e, n);
    assert e == e[..n] + [e[n]];
    FeedConcat(m, e[..n], [e[n]]);
    FeedOne(m.(partial := e[..n], want := |e|), e[n]);
  }

  lemma FeedRune(m: Machine, r: Rune)
    requires Idle(m) && Scalar(r) && r != ESC
    ensures var f := FeedAll(m, EncodeRune(r));
      Idle(f.machine) && SameBut(m, f.machine) && f.events == RuneEvents(r)
  {
    hide FeedAll, DecodeRune;
    var e := EncodeRune(r);
    EncodedShape(r);
    if |e| == 1 {
      assert e == [e[0]];
      FeedOne(m, e[0]);
    } else {
      FeedWhole(m, e);
      DecodeEncoded(r, []);
      assert e + [] == e;
    }
  }

  /** Feeding the encoding of any runes but ESC does for each rune, in order, what it
      stands for: printable runes are put, C0 controls act, DEL is ignored. With
      FeedConcat this holds however the bytes are cut into chunks. */
  lemma {:induction false} FeedRunes(m: Machine, rs: seq<Rune>)
    requires Idle(m) && forall r :: r in rs ==> Scalar(r) && r != ESC
    ensures var f := FeedAll(m, EncodeRunes(rs));
      Idle(f.machine) && SameBut(m, f.machine) && f.events == RunesEvents(rs)
    decreases |rs|
  {
    hide FeedAll, EncodeRune, RuneEvents;
    if rs == [] {
      FeedNothing(m);
    } else {
      FeedRune(m, rs[0]);
      var f := FeedAll(m, EncodeRune(rs[0]));
      FeedRunes(f.machine, rs[1..]);
      FeedConcat(m, EncodeRune(rs[0]), EncodeRunes(rs[1..]));
    }
  }

  lemma FeedNothing(m: Machine)
    ensures FeedAll(m, []) == Fed(m, [])
  {
  }

  // ----- any bytes -----

  /** How many continuation bytes a text starts with, counted up to k. */
  function Conts(s: Text, k: nat): (n: nat)
    ensures n <= k && n <= |s| && (forall i :: 0 <= i < n ==> Cont(s[i])) && (n < k && n < |s| ==> !Cont(s[n]))
  {
    if k == 0 || s == [] || !Cont(s[0]) then 0 else 1 + Conts(s[1..], k - 1)
  }

  /** A lead byte and the continuation bytes it announces, as far as they are there. */
  function Stretch(s: Text): (k: nat)
    requires s != []
    ensures 1 <= k <= |s|
  {
    if Announced(s[0]) <= 1 then 1 else 1 + Conts(s[1..], Announced(s[0]) - 1)
  }

  /** What any bytes read as: each stretch is its rune if it is whole and encodes one,
      else one replacement; a stretch the text ends in is still waiting. */
  function Readings(s: Text): seq<Rune> {
    if s == [] then []
    else
      var n, k := Announced(s[0]), Stretch(s);
      if k < n && k == |s| then []
      else [if n == k then DecodeRune(s[..k]).rune else RUNE_ERROR] + Readings(s[k..])
  }

  lemma HoldsStretch(m: Machine, s: Text)
    requires Idle(m) && s != [] && Stretch(s) < Announced(s[0])
    ensures FeedAll(m, s[..Stretch(s)]) == Fed(m.(partial := s[..Stretch(s)], want := Announced(s[0])), [])
  {
    hide FeedAll;
    var n, k := Announced(s[0]), Stretch(s);
    var whole := s[..k] + seq(n - k, _ => 0x80 as byte);
    forall i | 0 < i < |whole| ensures Cont(whole[i]) {
      if i < k {
        assert whole[i] == s[1..][i - 1];
      }
    }
    HoldsPrefix(m, whole, k);
    assert whole[..k] == s[..k];
  }

  /** A stretch that is whole, or a byte that starts none. */
  lemma FeedStretch(m: Machine, s: Text)
    requires Idle(m) && s != [] && s[0] != ESC && Stretch(s) >= Announced(s[0])
    ensures var f := FeedAll(m, s[..Stretch(s)]);
      && Idle(f.machine) && SameBut(m, f.machine)
      && f.events == RuneEvents(if Announced(s[0]) == Stretch(s) then DecodeRune(s[..Stretch(s)]).rune else RUNE_ERROR)
  {
    var n, k := Announced(s[0]), Stretch(s);
    if n <= 1 {
      assert s[..1] == [s[0]];
      FeedOne(m, s[0]);
    } else {
      hide FeedAll, DecodeRune;
      forall i | 0 < i < k ensures Cont(s[..k][i]) {
        assert s[..k][i] == s[1..][i - 1];
      }
      FeedWhole(m, s[..k]);
      WideRune(s[..k]);
    }
  }

  /** A stretch of several bytes never reads as a control. */
  lemma WideRune(s: Text)
    requires |s| > 1 && Announced(s[0]) == |s|
    ensures DecodeRune(s).rune > 0x7F
  {
  }

  /** A byte that cuts a stretch short acts as if it came afresh, after a replacement. */
  lemma CutStretch(m: Machine, part: Text, n: nat, rest: Text)
    requires Idle(m) && part != [] && rest != [] && !Cont(rest[0])
    ensures var f := FeedAll(m.(want := n), rest);
      FeedAll(m.(partial := part, want := n), rest) == Fed(f.machine, [Do(Op.PutRune(RUNE_ERROR))] + f.events)
  {
    hide FeedAll, FeedFresh;
    var held, anew := m.(partial := part, want := n), m.(want := n);
    assert held.(partial := []) == anew;
    FeedCons(held, rest[0], rest[1..]);
    FeedCons(anew, rest[0], rest[1..]);
    assert [rest[0]] + rest[1..] == rest;
    var first, later := Feed(anew, rest[0]), FeedAll(Feed(anew, rest[0]).machine, rest[1..]);
    assert [Do(Op.PutRune(RUNE_ERROR))] + first.events + later.events ==
      [Do(Op.PutRune(RUNE_ERROR))] + (first.events + later.events);
  }

  /** Feeding any bytes but ESC, valid UTF-8 or not, does in order what they read as. */
  lemma {:induction false} FeedBytes(m: Machine, s: Text)
    requires Idle(m) && ESC !in s
    ensures FeedAll(m, s).events == RunesEvents(Readings(s))
    decreases |s|
  {
    hide FeedAll, RuneEvents, DecodeRune, Announced, Stretch;
    if s == [] {
      FeedNothing(m);
    } else {
      var n, k := Announced(s[0]), Stretch(s);
      assert s[..k] + s[k..] == s;
      if k < n {
        HoldsStretch(m, s);
        if k == |s| {
          assert s[..k] == s;
        } else {
          StretchEnds(s);
          FeedConcat(m, s[..k], s[k..]);
          CutStretch(m, s[..k], n, s[k..]);
          FeedBytes(m.(want := n), s[k..]);
          ReplacementEvents();
        }
      } else {
        FeedStretch(m, s);
        FeedConcat(m, s[..k], s[k..]);
        FeedBytes(FeedAll(m, s[..k]).machine, s[k..]);
      }
    }
  }

  lemma StretchEnds(s: Text)
    requires s != [] && Stretch(s) < Announced(s[0]) && Stretch(s) < |s|
    ensures !Cont(s[Stretch(s)..][0])
  {
    assert s[Stretch(s)] == s[1..][Stretch(s) - 1];
  }

  lemma ReplacementEvents()
    ensures RuneEvents(RUNE_ERROR) == [Do(Op.PutRune(RUNE_ERROR))]
  {
  }

  predicate Printable(r: Rune) {
    r >= 0x20 && r != 0x7F
  }

  function Puts(rs: seq<Rune>): seq<Op> {
    seq(|rs|, i requires 0 <= i < |rs| => Op.PutRune(rs[i]))
  }

  lemma {:induction false} PrintableEvents(rs: seq<Rune>)
    requires forall i :: 0 <= i < |rs| ==> Printable(rs[i])
    ensures RunesEvents(rs) == Events(Puts(rs))
  {
    if rs != [] {
      PrintableEvents(rs[1..]);
      assert RuneEvents(rs[0]) == [Do(Op.PutRune(rs[0]))];
      assert Puts(rs) == [Op.PutRune(rs[0])] + Puts(rs[1..]);
      assert Events(Puts(rs)) == [Do(Op.PutRune(rs[0]))] + Events(Puts(rs[1..]));
    }
  }

  function Events(ops: seq<Op>): seq<Event> {
    seq(|ops|, i requires 0 <= i < |ops| => Do(ops[i]))
  }

  lemma {:induction false} PlayRuns(t: Terminal, ops: seq<Op>)
    requires Ok(t.screen)
    ensures Play(t, Events(ops)) == t.(screen := Run(t.screen, ops))
  {
    hide Apply, Ok;
    if ops != [] {
      PlayRuns(t, ops[..|ops| - 1]);
      assert Events(ops)[..|ops| - 1] == Events(ops[..|ops| - 1]);
    }
  }

  /** Control-free text in UTF-8, cut anywhere into two writes, puts exactly its runes
      on the screen, in order. */
  lemma TextIsPut(m: Machine, t: Terminal, rs: seq<Rune>, cut: nat)
    requires Idle(m) && Ok(t.screen)
    requires forall r :: r in rs ==> Scalar(r)
    requires forall i :: 0 <= i < |rs| ==> Printable(rs[i])
    requires cut <= |EncodeRunes(rs)|
    ensures var data := EncodeRunes(rs);
      var first := FeedAll(m, data[..cut]); var second := FeedAll(first.machine, data[cut..]);
      && Idle(second.machine)
      && Play(Play(t, first.events), second.events) == t.(screen := Run(t.screen, Puts(rs)))
  {
    hide FeedAll, Play, Run, Ok, RunesEvents, EncodeRune, EncodeRunes, Puts;
    var data := EncodeRunes(rs);
    var first := FeedAll(m, data[..cut]);
    FeedRunes(m, rs);
    PrintableEvents(rs);
    PlayRuns(t, Puts(rs));
    assert data[..cut] + data[cut..] == data;
    FeedConcat(m, data[..cut], data[cut..]);
    PlayConcat(t, first.events, FeedAll(first.machine, data[cut..]).events);
  }

  // ----- control sequences -----

  /** The parameter bytes among the bytes of a control sequence. */
  function ParamBytes(body: Text): Text {
    if body == [] then []
    else
      var c := body[|body| - 1];
      if IsParamByte(c) then ParamBytes(body[..|body| - 1]) + [c] else ParamBytes(body[..|body| - 1])
  }

  function ControlsOf(body: Text): seq<Event> {
    if body == [] then []
    else
      var c := body[|body| - 1];
      if c < 0x20 then ControlsOf(body[..|body| - 1]) + ControlEvents(c) else ControlsOf(body[..|body| - 1])
  }

  /** Bytes that neither end a control sequence nor start another. */
  predicate BodyByte(b: byte) {
    b != ESC && !(0x40 <= b <= 0x7E)
  }

  /** Bytes that make the sequence one the parser drops. DEL is among them, although
      the source means to ignore it. */
  predicate Spoils(b: byte) {
    0x20 <= b <= 0x2F || 0x3C <= b <= 0x3E || b >= 0x7F
  }

  ghost predicate Spoiled(body: Text) {
    exists i :: 0 <= i < |body| && Spoils(body[i])
  }

  ghost predicate Private(body: Text) {
    exists i :: 0 <= i < |body| && body[i] == 0x3F
  }

  function FirstParams(ps: Text): Text {
    if |ps| <= MAX_PARAM_BYTES then ps else ps[..MAX_PARAM_BYTES]
  }

  ghost predicate Collected(m: Machine, body: Text, f: Fed) {
    && f.events == ControlsOf(body)
    && f.machine == m.(params := FirstParams(ParamBytes(body)), priv := Private(body),
                       ignored := Spoiled(body) || |ParamBytes(body)| > MAX_PARAM_BYTES)
  }

  lemma SnocBody(body: Text)
    requires body != []
    ensures var front, c := body[..|body| - 1], body[|body| - 1];
      (Spoiled(body) <==> Spoiled(front) || Spoils(c)) && (Private(body) <==> Private(front) || c == 0x3F)
  {
    var front, c := body[..|body| - 1], body[|body| - 1];
    assert forall i :: 0 <= i < |front| ==> front[i] == body[i];
    if Spoils(c) {
      assert Spoils(body[|body| - 1]);
    }
  }

  lemma FirstParamsSnoc(ps: Text, c: byte)
    ensures FirstParams(ps + [c]) == if |ps| >= MAX_PARAM_BYTES then FirstParams(ps) else ps + [c]
  {
  }

  /** While a control sequence is read its parameter bytes are collected and the C0
      controls between them act at once. */
  lemma {:induction false} FeedBody(m: Machine, body: Text)
    requires m.mode == Csi && !m.ignored && !m.priv && m.params == []
    requires forall i :: 0 <= i < |body| ==> BodyByte(body[i])
    ensures Collected(m, body, FeedAll(m, body))
  {
    hide ControlEvents, CsiEvents, Spoiled, Private, FirstParams;
    if body == [] {
      NoBody();
    } else {
      var front, c := body[..|body| - 1], body[|body| - 1];
      FeedBody(m, front);
      SnocBody(body);
      FirstParamsSnoc(ParamBytes(front), c);
      FirstParamsLength(ParamBytes(front));
    }
  }

  lemma NoBody()
    ensures !Spoiled([]) && !Private([]) && FirstParams([]) == []
  {
  }

  lemma FirstParamsLength(ps: Text)
    ensures |FirstParams(ps)| == if |ps| >= MAX_PARAM_BYTES then MAX_PARAM_BYTES else |ps|
    ensures |ps| <= MAX_PARAM_BYTES ==> FirstParams(ps) == ps
  {
  }

  lemma OpensCsi(m: Machine)
    requires Idle(m)
    ensures FeedAll(m, [ESC, 0x5B]) == Fed(m.(mode := Csi, params := [], priv := false, ignored := false), [])
  {
    hide FeedAll;
    FeedOne(m, ESC);
    FeedCons(m, ESC, [0x5B]);
    FeedOne(m.(mode := Escape), 0x5B);
    assert [ESC] + [0x5B] == [ESC, 0x5B];
  }

  /** A whole control sequence, for any bytes between its introducer and its final
      byte: the C0 controls act, then it is dispatched on exactly its parameter bytes
      if and only if no byte spoils it and there are at most 128 of them. */
  lemma FeedSequence(m: Machine, body: Text, final: byte)
    requires Idle(m) && 0x40 <= final <= 0x7E && forall i :: 0 <= i < |body| ==> BodyByte(body[i])
    ensures var f := FeedAll(m, [ESC, 0x5B] + body + [final]); var ps := ParamBytes(body);
      && Idle(f.machine)
      && f.events == ControlsOf(body) +
           if !Spoiled(body) && |ps| <= MAX_PARAM_BYTES then CsiEvents(ParamsOf(ps), Private(body), final) else []
  {
    hide FeedAll, CsiEvents, ParamsOf, ParamBytes, ControlsOf, Spoiled, Private, FirstParams;
    OpensCsi(m);
    FeedBody(m.(mode := Csi, params := [], priv := false, ignored := false), body);
    FirstParamsLength(ParamBytes(body));
    FeedConcat(m, [ESC, 0x5B], body);
    FeedConcat(m, [ESC, 0x5B] + body, [final]);
    FeedOne(FeedAll(m, [ESC, 0x5B] + body).machine, final);
  }

  /** A DEL inside a cursor-up sequence: nothing happens, where without it the cursor
      moves. */
  lemma DelDropsSequence(m: Machine)
    requires Idle(m)
    ensures FeedAll(m, [ESC, 0x5B, 0x7F, 0x41]).events == []
    ensures FeedAll(m, [ESC, 0x5B, 0x41]).events == [Do(Op.MoveCursor(0, -1))]
    ensures Idle(FeedAll(m, [ESC, 0x5B, 0x7F, 0x41]).machine)
  {
    hide FeedAll;
    assert [ESC, 0x5B, 0x7F, 0x41] == [ESC, 0x5B] + [0x7F] + [0x41];
    assert Spoils([0x7F][0]);
    assert Spoiled([0x7F]);
    FeedSequence(m, [0x7F], 0x41);
    assert [0x7F][..0] == [];
    assert ControlsOf([0x7F]) == [];
    AllParamBytes([]);
    assert [ESC, 0x5B, 0x41] == [ESC, 0x5B] + [] + [0x41];
    FeedSequence(m, [], 0x41);
  }

  // ----- decimal numbers -----

  /** Numbers in decimal with semicolons between them. */
  function Joined(ns: seq<nat>): Text
    requires ns != []
  {
    if |ns| == 1 then Digits(ns[0]) else Joined(ns[..|ns| - 1]) + [0x3B] + Digits(ns[|ns| - 1])
  }

  function AllDigits(ns: seq<nat>): seq<Text> {
    seq(|ns|, i requires 0 <= i < |ns| => Digits(ns[i]))
  }

  lemma FieldsSnoc(buf: Text, c: byte)
    ensures var fs := Fields(buf);
      Fields(buf + [c]) == if IsSeparator(c) then fs + [[]] else fs[|fs| - 1 := fs[|fs| - 1] + [c]]
  {
    assert (buf + [c])[..|buf + [c]| - 1] == buf;
  }

  lemma {:induction false} FieldsAppend(buf: Text, d: Text)
    requires forall i :: 0 <= i < |d| ==> IsDigit(d[i])
    ensures var fs := Fields(buf); Fields(buf + d) == fs[|fs| - 1 := fs[|fs| - 1] + d]
  {
    var fs := Fields(buf);
    var last := fs[|fs| - 1];
    if d == [] {
      assert buf + d == buf;
      assert last + d == last;
    } else {
      var front, c := d[..|d| - 1], d[|d| - 1];
      assert (buf + d)[..|buf + d| - 1] == buf + front;
      FieldsAppend(buf, front);
      assert last + front + [c] == last + d by { assert front + [c] == d; }
    }
  }

  lemma {:induction false} FieldsOfJoined(ns: seq<nat>)
    requires ns != []
    ensures Fields(Joined(ns)) == AllDigits(ns)
  {
    hide Digits, Fields;
    var last := ns[|ns| - 1];
    assert [] + Digits(last) == Digits(last);
    if |ns| == 1 {
      NoFields();
      FieldsAppend([], Digits(last));
      assert AllDigits(ns) == [Digits(last)];
    } else {
      var front := ns[..|ns| - 1];
      FieldsOfJoined(front);
      FieldsSnoc(Joined(front), 0x3B);
      FieldsAppend(Joined(front) + [0x3B], Digits(last));
      assert AllDigits(ns) == AllDigits(front) + [Digits(last)];
    }
  }

  lemma NoFields()
    ensures Fields([]) == [[]]
  {
  }

  function CappedAll(ns: seq<nat>): (r: seq<nat>)
    ensures |r| == |ns| && forall i :: 0 <= i < |ns| ==> r[i] == Capped(ns[i])
  {
    seq(|ns|, i requires 0 <= i < |ns| => Capped(ns[i]))
  }

  lemma JoinedNonEmpty(ns: seq<nat>)
    requires ns != []
    ensures Joined(ns) != []
  {
    hide Digits;
  }

  /** Parsing undoes printing: each number comes back capped at 65535, all of them up
      to 33, beyond that the first 32 and the last. */
  lemma ParseJoined(ns: seq<nat>)
    requires ns != []
    ensures ParamsOf(Joined(ns)) == Kept(CappedAll(ns))
  {
    hide Digits, Fields, Kept, Decimal, Joined, Capped;
    JoinedNonEmpty(ns);
    FieldsOfJoined(ns);
    forall i | 0 <= i < |ns| ensures Values(AllDigits(ns))[i] == Capped(ns[i]) {
      DecimalOfDigits(ns[i]);
    }
    assert Values(AllDigits(ns)) == CappedAll(ns);
  }

  // ----- the cursor report -----

  lemma {:induction false} AllParamBytes(body: Text)
    requires forall i :: 0 <= i < |body| ==> IsParamByte(body[i])
    ensures ParamBytes(body) == body && ControlsOf(body) == [] && !Spoiled(body) && !Private(body)
  {
    if body != [] {
      AllParamBytes(body[..|body| - 1]);
      assert body[..|body| - 1] + [body[|body| - 1]] == body;
    }
  }

  lemma FeedPosition(m: Machine, x: nat, y: nat)
    requires Idle(m) && x < MAX_PARAM_VALUE && y < MAX_PARAM_VALUE
    ensures var f := FeedAll(m, Position(x, y, CUP));
      Idle(f.machine) && f.events == [Do(Op.SetCursor(x, y))]
  {
    hide FeedAll, ParamsOf, Digits, CsiEvents, ParamBytes, ControlsOf, Joined, Spoiled, Private;
    var body := Digits(y + 1) + [0x3B] + Digits(x + 1);
    DigitCount(y + 1, 5);
    DigitCount(x + 1, 5);
    assert Pow10(5) == 100000;
    JoinedTwo(y + 1, x + 1);
    ParseTwo(y + 1, x + 1);
    AllParamBytes(body);
    FeedSequence(m, body, CUP);
    CupEvents(x, y);
    assert Position(x, y, CUP) == [ESC, 0x5B] + body + [CUP];
  }

  lemma CupEvents(x: nat, y: nat)
    ensures CsiEvents([y + 1, x + 1], false, CUP) == [Do(Op.SetCursor(x, y))]
    ensures forall s: seq<Event> :: [] + s == s
  {
  }

  lemma JoinedTwo(a: nat, b: nat)
    ensures Joined([a, b]) == Digits(a) + [0x3B] + Digits(b)
  {
    hide Digits;
    assert [a, b][..1] == [a];
  }

  lemma ParseTwo(a: nat, b: nat)
    requires a <= MAX_PARAM_VALUE && b <= MAX_PARAM_VALUE
    ensures ParamsOf(Joined([a, b])) == [a, b]
  {
    hide ParamsOf, Joined;
    ParseJoined([a, b]);
    assert CappedAll([a, b]) == [a, b];
  }

  const DSR: Text := [ESC, 0x5B, 0x36, 0x6E]

  lemma FeedDsr(m: Machine)
    requires Idle(m)
    ensures Idle(FeedAll(m, DSR).machine) && FeedAll(m, DSR).events == [Report]
  {
    hide FeedAll, Digits;
    AllParamBytes([0x36]);
    FeedSequence(m, [0x36], 0x6E);
    assert DSR == [ESC, 0x5B] + [0x36] + [0x6E];
    assert ParamsOf([0x36]) == [6] by {
      assert [0x36][..0] == [];
      assert Fields([]) == [[]];
      assert Fields([0x36]) == [[0x36]];
      assert Decimal([]) == 0;
    }
  }

  /** Cursor report round trip: on a screen of at most 65535 by 65535 cells, the reply
      to a DSR (the bytes it appends to the reply stream), sent back as a CUP at any
      later time, puts the cursor where it was. */
  lemma CursorReportRoundTrip(m: Machine, t: Terminal, m2: Machine, later: Terminal)
    requires Idle(m) && Idle(m2) && Ok(t.screen) && Ok(later.screen) && t.connected
    requires t.screen.cols == later.screen.cols <= MAX_PARAM_VALUE
    requires t.screen.rows == later.screen.rows <= MAX_PARAM_VALUE
    ensures var out := Play(t, FeedAll(m, DSR).events).out;
      && t.out < out
      && var reply := out[|t.out|..];
         var r := Play(later, FeedAll(m2, reply[..|reply| - 1] + [CUP]).events);
         && r.screen == Place(later.screen, Active(t.screen).x, Active(t.screen).y)
         && Active(r.screen).x == Active(t.screen).x && Active(r.screen).y == Active(t.screen).y
  {
    hide FeedAll, Digits, Position;
    var x, y := Active(t.screen).x, Active(t.screen).y;
    FeedDsr(m);
    PlayReport(t);
    FeedPosition(m2, x, y);
    PositionFinal(x, y);
    PlaySet(later, x, y);
  }

  lemma PositionFinal(x: nat, y: nat)
    ensures Position(x, y, CPR) != []
    ensures Position(x, y, CPR)[..|Position(x, y, CPR)| - 1] + [CUP] == Position(x, y, CUP)
  {
    hide Digits;
  }

  lemma PlayReport(t: Terminal)
    requires Ok(t.screen) && t.connected
    ensures Play(t, [Report]).out == t.out + Position(Active(t.screen).x, Active(t.screen).y, CPR)
  {
    hide Position, Apply;
    PlayOne(t, Report);
  }

  lemma PlayOne(t: Terminal, e: Event)
    requires Ok(t.screen)
    ensures Play(t, [e]) == Perform(t, e)
  {
    hide Perform, Ok;
    assert [e][..0] == [];
    assert Play(t, []) == t;
  }

  lemma PlaySet(t: Terminal, x: nat, y: nat)
    requires Ok(t.screen)
    ensures var r := Play(t, [Do(Op.SetCursor(x, y))]); r.screen == Place(t.screen, x, y)
    ensures x < t.screen.cols && y < t.screen.rows ==>
      Active(Place(t.screen, x, y)).x == x && Active(Place(t.screen, x, y)).y == y
  {
    hide EditedRow, EditedLines, ApplyOther, Play;
    PlayOne(t, Do(Op.SetCursor(x, y)));
  }

  // ----- titles -----

  lemma {:induction false} FeedPayload(m: Machine, s: Text)
    requires m.mode == Osc && m.osc == [] && !m.overflow && forall i :: 0 <= i < |s| ==> s[i] != BEL && s[i] != ESC
    ensures var f := FeedAll(m, s);
      && f.events == []
      && f.machine == m.(osc := if |s| <= MAX_OSC_BYTES then s else s[..MAX_OSC_BYTES], overflow := |s| > MAX_OSC_BYTES)
  {
    hide Feed, TitleEvents;
    if s != [] {
      var front, c := s[..|s| - 1], s[|s| - 1];
      FeedPayload(m, front);
      PayloadByte(FeedAll(m, front).machine, c);
      if |front| >= MAX_OSC_BYTES {
        assert s[..MAX_OSC_BYTES] == front[..MAX_OSC_BYTES];
      } else {
        assert front + [c] == s;
      }
    }
  }

  lemma PayloadByte(m: Machine, c: byte)
    requires m.mode == Osc && c != BEL && c != ESC
    ensures Feed(m, c) ==
      Fed(if |m.osc| < MAX_OSC_BYTES then m.(osc := m.osc + [c]) else m.(overflow := true), [])
  {
  }

  /** An OSC 0 or 2 sets the title to exactly its text, which may hold semicolons and
      any bytes but BEL and ESC, unless the payload is longer than 4096 bytes. */
  lemma TitleIsSet(m: Machine, code: byte, title: Text, st: bool)
    requires Idle(m) && (code == 0x30 || code == 0x32)
    requires forall i :: 0 <= i < |title| ==> title[i] != BEL && title[i] != ESC
    ensures var f := FeedAll(m, [ESC, 0x5D] + ([code, 0x3B] + title) + if st then [ESC, 0x5C] else [BEL]);
      && Idle(f.machine)
      && f.events == if |title| + 2 <= MAX_OSC_BYTES then [Do(Op.SetTitle(title))] else []
  {
    hide FeedAll, TitleEvents;
    var osc := m.(mode := Osc, osc := [], overflow := false);
    var payload := [code, 0x3B] + title;
    FeedCons(m, ESC, [0x5D]);
    FeedOne(m.(mode := Escape), 0x5D);
    assert [ESC] + [0x5D] == [ESC, 0x5D];
    FeedPayload(osc, payload);
    FeedConcat(m, [ESC, 0x5D], payload);
    var held := FeedAll(m, [ESC, 0x5D] + payload).machine;
    Terminated(held, st);
    FeedConcat(m, [ESC, 0x5D] + payload, if st then [ESC, 0x5C] else [BEL]);
    TitleCut(code, title);
  }

  lemma Terminated(m: Machine, st: bool)
    requires m.mode == Osc
    ensures FeedAll(m, if st then [ESC, 0x5C] else [BEL]) == Fed(m.(mode := Ground), TitleEvents(m.osc, m.overflow))
  {
    hide FeedAll, TitleEvents;
    FeedOne(m, BEL);
    FeedCons(m, ESC, [0x5C]);
    FeedOne(m.(mode := OscEscape), 0x5C);
    assert [ESC] + [0x5C] == [ESC, 0x5C];
  }

  lemma TitleCut(code: byte, title: Text)
    requires code == 0x30 || code == 0x32
    ensures TitleEvents([code, 0x3B] + title, false) == [Do(Op.SetTitle(title))]
    ensures forall s :: TitleEvents(s, true) == []
  {
    var s := [code, 0x3B] + title;
    assert s[1] == 0x3B && s[0] != 0x3B;
    FirstIndex(s, 0x3B, 1);
    assert s[..1] == [code] && s[2..] == title;
  }

  // ----- recovery -----

  /** A rune cut short is replaced before anything else happens. */
  function Dropped(m: Machine): seq<Event> {
    if m.mode == Ground && m.partial != [] then [Do(Op.PutRune(RUNE_ERROR))] else []
  }

  lemma EscapeFrom(m: Machine)
    ensures var f := Feed(m, ESC); (f.machine.mode == Escape || f.machine.mode == OscEscape) && f.events == Dropped(m)
  {
  }

  lemma ResetFrom(m: Machine)
    requires m.mode == Escape || m.mode == OscEscape
    ensures Feed(m, 0x63).machine.mode == Ground && Feed(m, 0x63).events == [Do(Op.Reset)]
  {
  }

  lemma ResetPerforms(t: Terminal)
    requires Ok(t.screen)
    ensures Perform(t, Do(Op.Reset)).screen == ResetAll(t.screen)
  {
    hide ResetAll, Ok;
  }

  /** From any state whatever, ESC c leads back to ground, and its reset is the last
      thing that happens. */
  lemma ResetAlwaysLands(m: Machine, t: Terminal)
    requires Ok(t.screen)
    ensures var f := FeedAll(m, [ESC, 0x63]);
      && f.machine.mode == Ground && f.events == Dropped(m) + [Do(Op.Reset)]
      && Play(t, f.events).screen == ResetAll(Play(t, Dropped(m)).screen)
  {
    hide FeedAll, Feed, Dropped, Play, Ok, ResetAll, Perform;
    EscapeFrom(m);
    ResetFrom(Feed(m, ESC).machine);
    FeedCons(m, ESC, [0x63]);
    assert [ESC] + [0x63] == [ESC, 0x63];
    FeedOne(Feed(m, ESC).machine, 0x63);
    PlayConcat(t, Dropped(m), [Do(Op.Reset)]);
    PlayOne(Play(t, Dropped(m)), Do(Op.Reset));
    ResetPerforms(Play(t, Dropped(m)));
  }
}
