/** The streaming parser as the source runs it (internal/terminal/parser.go): byte by
    byte, with its buffers updated in place, calling the screen's methods.

    It behaves like the transducer `ParserModel.Feed` followed by `Play`. */
module Parsers {
  import opened Texts
  import opened Utf8
  import opened Decimals
  import opened ScreenModel
  import opened ParserModel
  import Screens

  class Parser {
    const screen: Screens.Screen
    const connected: bool
    var reply: Text
    var state: Mode
    const partial: array<byte>
    var partialLen: nat
    var partialWant: nat
    var csiParams: Text
    var csiPrivate: bool
    var csiIgnore: bool
    var osc: Text
    var oscOverflow: bool

    ghost predicate Valid()
      reads this, partial, screen, screen.store.Keys
    {
      && partial.Length == 4 && partialLen <= 4
      && MachineOk(Machine())
      && screen.Valid()
    }

    /** The parser's own fields as a value. */
    ghost function Machine(): Machine
      reads this, partial
      requires partialLen <= partial.Length
    {
      ParserModel.Machine(state, partial[..partialLen], partialWant, csiParams, csiPrivate, csiIgnore, osc, oscOverflow)
    }

    ghost function Term(): Terminal
      reads this, screen
    {
      Terminal(screen.model, connected, reply)
    }

    constructor (s: Screens.Screen, connected: bool)
      requires s.Valid()
      ensures Valid() && screen == s && this.connected == connected && reply == []
      ensures Machine() == ParserModel.Machine(Ground, [], 0, [], false, false, [], false)
      ensures fresh(partial)
    {
      screen, this.connected := s, connected;
      reply, state, partialLen, partialWant := [], Ground, 0, 0;
      partial := new byte[4](_ => 0);
      csiParams, csiPrivate, csiIgnore, osc, oscOverflow := [], false, false, [], false;
    }

    /** putRune, called from the parser. */
    method Put(r: Rune)
      requires Valid()
      modifies screen, screen.store.Keys
      ensures Valid() && fresh(screen.store.Keys - old(screen.store.Keys))
      ensures Term() == Perform(old(Term()), Do(Op.PutRune(r)))
    {
      hide Ok, Apply, MachineOk, ScreenModel.Apply;
      screen.PutRune(r);
    }

    method StartPartial(b: byte, want: nat)
      requires Valid() && state == Ground && want == Announced(b) > 1
      modifies this`partialLen, this`partialWant, partial
      ensures Valid() && Machine() == old(Machine()).(partial := [b], want := want)
    {
      partial[0] := b;
      partialLen := 1;
      partialWant := want;
      assert partial[..partialLen] == [b];
    }

    /** execC0. */
    method ExecC0(b: byte)
      requires Valid()
      modifies screen, screen.store.Keys
      ensures Valid() && fresh(screen.store.Keys - old(screen.store.Keys))
      ensures Term() == Play(old(Term()), ControlEvents(b))
    {
      hide Ok, Apply, MachineOk;
      if b == 0x08 {
        screen.Backspace();
      } else if b == 0x09 {
        screen.Tab();
      } else if b == 0x0A || b == 0x0B || b == 0x0C {
        screen.LineFeed();
      } else if b == 0x0D {
        screen.CarriageReturn();
      }
    }

    method FeedGround(b: byte)
      requires Valid() && state == Ground
      modifies this`state, this`partialLen, this`partialWant, partial, screen, screen.store.Keys
      ensures Valid() && fresh(screen.store.Keys - old(screen.store.Keys))
      ensures var f := ParserModel.FeedGround(old(Machine()), b);
        Machine() == f.machine && Term() == Play(old(Term()), f.events)
    {
      hide Ok, Apply, FeedFresh, Perform;
      if partialLen > 0 {
        if b >= 0x80 && b < 0xC0 {
          HoldByte(b);
        } else {
          CutShort(b);
        }
      } else {
        FreshByte(b);
      }
    }

    /** The rune under way was cut short: a replacement, then `b` afresh. */
    method CutShort(b: byte)
      requires Valid() && state == Ground && partialLen > 0
      modifies this`state, this`partialLen, this`partialWant, partial, screen, screen.store.Keys
      ensures Valid() && fresh(screen.store.Keys - old(screen.store.Keys))
      ensures var f := FeedFresh(old(Machine()).(partial := []), b);
        Machine() == f.machine && Term() == Play(old(Term()), [Do(Op.PutRune(RUNE_ERROR))] + f.events)
    {
      hide Ok, MachineOk, FeedFresh, Perform, Play;
      ghost var m, t := Machine(), Term();
      DropPartial();
      Put(RUNE_ERROR);
      PlayThen(t, Do(Op.PutRune(RUNE_ERROR)), FeedFresh(m.(partial := []), b).events);
      FreshByte(b);
    }

    /** One more byte of the rune under way. */
    method HoldByte(b: byte)
      requires Valid() && state == Ground && partialLen > 0 && 0x80 <= b < 0xC0
      modifies this`partialLen, partial, screen, screen.store.Keys
      ensures Valid() && fresh(screen.store.Keys - old(screen.store.Keys))
      ensures var f := ParserModel.FeedGround(old(Machine()), b);
        Machine() == f.machine && Term() == Play(old(Term()), f.events)
    {
      hide Ok, MachineOk, Perform, DecodeRune;
      GroundOk(Machine(), b);
      ShortPartial(Machine());
      partial[partialLen] := b;
      partialLen := partialLen + 1;
      assert partial[..partialLen] == old(partial[..partialLen]) + [b];
      if partialLen == partialWant {
        var r := DecodeRune(partial[..partialLen]).rune;
        partialLen := 0;
        PlayOne(old(Term()), Do(Op.PutRune(r)));
        Put(r);
      }
    }

    method DropPartial()
      requires Valid()
      modifies this`partialLen
      ensures Valid() && partialLen == 0 && Machine() == old(Machine()).(partial := [])
    {
      partialLen := 0;
    }

    /** A byte with no rune under way. */
    method FreshByte(b: byte)
      requires Valid() && state == Ground && partialLen == 0
      modifies this`state, this`partialLen, this`partialWant, partial, screen, screen.store.Keys
      ensures Valid() && fresh(screen.store.Keys - old(screen.store.Keys))
      ensures var f := FeedFresh(old(Machine()), b);
        Machine() == f.machine && Term() == Play(old(Term()), f.events)
    {
      hide Ok, Apply, Perform;
      if b == ESC {
        state := Escape;
      } else if b < 0x20 {
        ExecC0(b);
      } else if b == 0x7F {
      } else if b < 0x80 {
        PlayOne(Term(), Do(Op.PutRune(b)));
        Put(b);
      } else {
        LeadByte(b);
      }
    }

    /** A byte above ASCII starts a rune or stands for a replacement. */
    method LeadByte(b: byte)
      requires Valid() && state == Ground && partialLen == 0 && b >= 0x80
      modifies this`partialLen, this`partialWant, partial, screen, screen.store.Keys
      ensures Valid() && fresh(screen.store.Keys - old(screen.store.Keys))
      ensures var f := FeedFresh(old(Machine()), b);
        Machine() == f.machine && Term() == Play(old(Term()), f.events)
    {
      hide Ok, Apply, Perform;
      if b >= 0xC2 && b <= 0xDF {
        StartPartial(b, 2);
      } else if b >= 0xE0 && b <= 0xEF {
        StartPartial(b, 3);
      } else if b >= 0xF0 && b <= 0xF4 {
        StartPartial(b, 4);
      } else {
        PlayOne(Term(), Do(Op.PutRune(RUNE_ERROR)));
        Put(RUNE_ERROR);
      }
    }

    method FeedEscape(b: byte)
      requires Valid() && state == Escape
      modifies this`state, this`csiParams, this`csiPrivate, this`csiIgnore, this`osc, this`oscOverflow, screen, screen.store.Keys
      ensures Valid() && fresh(screen.store.Keys - old(screen.store.Keys))
      ensures var f := ParserModel.FeedEscape(old(Machine()), b);
        Machine() == f.machine && Term() == Play(old(Term()), f.events)
    {
      hide Ok, MachineOk, Perform, ControlEvents;
      SequenceOk(Machine(), b);
      if b == 0x5B || b == 0x5D {
        OpenSequence(b);
      } else if b == 0x37 || b == 0x38 || b == 0x63 || b == 0x44 || b == 0x45 || b == 0x4D {
        EscapeFinal(b);
        state := Ground;
      } else if b == ESC {
      } else if b >= 0x20 && b <= 0x2F {
        state := EscapeIntermediate;
      } else if b < 0x20 {
        ExecC0(b);
      } else {
        state := Ground;
      }
    }

    /** The start of a control sequence or of an operating system command. */
    method OpenSequence(b: byte)
      requires Valid() && state == Escape && (b == 0x5B || b == 0x5D)
      modifies this`state, this`csiParams, this`csiPrivate, this`csiIgnore, this`osc, this`oscOverflow
      ensures Valid() && Machine() == ParserModel.FeedEscape(old(Machine()), b).machine
    {
      if b == 0x5B {
        state := Csi;
        ResetCSI();
      } else {
        state := Osc;
        osc := [];
        oscOverflow := false;
      }
    }

    /** DECSC, DECRC, RIS, IND, NEL and RI. */
    method EscapeFinal(b: byte)
      requires Valid() && (b == 0x37 || b == 0x38 || b == 0x63 || b == 0x44 || b == 0x45 || b == 0x4D)
      modifies screen, screen.store.Keys
      ensures Valid() && fresh(screen.store.Keys - old(screen.store.Keys))
      ensures Term() == Play(old(Term()), ParserModel.FeedEscape(old(Machine()), b).events)
    {
      hide Ok, Apply, MachineOk;
      if b == 0x37 {
        screen.SaveCursor();
      } else if b == 0x38 {
        screen.RestoreCursor();
      } else if b == 0x63 {
        screen.Reset();
      } else if b == 0x44 {
        screen.LineFeed();
      } else if b == 0x45 {
        PlayThen(Term(), Do(Op.CarriageReturn), [Do(Op.LineFeed)]);
        screen.CarriageReturn();
        screen.LineFeed();
      } else {
        screen.ReverseLineFeed();
      }
    }

    method ResetCSI()
      modifies this`csiParams, this`csiPrivate, this`csiIgnore
      ensures csiParams == [] && !csiPrivate && !csiIgnore
    {
      csiParams := [];
      csiPrivate := false;
      csiIgnore := false;
    }

    method FeedEscapeIntermediate(b: byte)
      requires Valid() && state == EscapeIntermediate
      modifies this`state, screen, screen.store.Keys
      ensures Valid() && fresh(screen.store.Keys - old(screen.store.Keys))
      ensures var f := FeedIntermediate(old(Machine()), b);
        Machine() == f.machine && Term() == Play(old(Term()), f.events)
    {
      hide Ok, Apply, Perform;
      if b == ESC {
        state := Escape;
      } else if b >= 0x20 && b <= 0x2F {
      } else if b >= 0x30 && b <= 0x7E {
        state := Ground;
      } else if b < 0x20 {
        ExecC0(b);
      }
    }

    method FeedCSI(b: byte)
      requires Valid() && state == Csi
      modifies this`state, this`csiParams, this`csiPrivate, this`csiIgnore, this`reply, screen, screen.store.Keys
      ensures Valid() && fresh(screen.store.Keys - old(screen.store.Keys))
      ensures var f := FeedCsi(old(Machine()), b);
        Machine() == f.machine && Term() == Play(old(Term()), f.events)
    {
      hide Ok, MachineOk, Perform, CsiEvents, ParamsOf, ControlEvents;
      SequenceOk(Machine(), b);
      if b == ESC {
        state := Escape;
      } else if b >= 0x40 && b <= 0x7E {
        DispatchCSI(b);
        state := Ground;
      } else if b >= 0x20 {
        CollectCSI(b);
      } else {
        ExecC0(b);
      }
    }

    /** A byte inside a control sequence that is not executed at once. */
    method CollectCSI(b: byte)
      requires Valid() && state == Csi && b >= 0x20 && !(0x40 <= b <= 0x7E)
      modifies this`csiParams, this`csiPrivate, this`csiIgnore
      ensures Valid() && Machine() == FeedCsi(old(Machine()), b).machine
    {
      hide Ok, CsiEvents;
      if b >= 0x3C {
        if b == 0x3F {
          csiPrivate := true;
        } else {
          csiIgnore := true;
        }
      } else if b >= 0x30 {
        if |csiParams| >= MAX_PARAM_BYTES {
          csiIgnore := true;
          return;
        }
        csiParams := csiParams + [b];
      } else {
        csiIgnore := true;
      }
    }

    method DispatchCSI(final: byte)
      requires Valid()
      modifies this`reply, screen, screen.store.Keys
      ensures Valid() && fresh(screen.store.Keys - old(screen.store.Keys)) && Machine() == old(Machine())
      ensures Term() == Play(old(Term()), if csiIgnore then [] else CsiEvents(ParamsOf(csiParams), csiPrivate, final))
    {
      hide Ok, Perform, CursorEvents, EditEvents, OtherEvents, ModesEvents, ParamsOf, MachineOk;
      if csiIgnore {
        return;
      }
      var params := ParseCSIParams(csiParams);
      if csiPrivate {
        if final == 0x68 {
          SetPrivateModes(params, true);
        } else if final == 0x6C {
          SetPrivateModes(params, false);
        }
        return;
      }
      if 0x41 <= final <= 0x48 || final == 0x66 || final == 0x64 {
        DispatchCursor(params, final);
      } else if 0x40 <= final <= 0x5A {
        DispatchEdit(params, final);
      } else {
        DispatchOther(params, final);
      }
    }

    /** The finals that move the cursor: A to H, f and d. */
    method DispatchCursor(params: seq<nat>, final: byte)
      requires Valid()
      modifies screen, screen.store.Keys
      ensures Valid() && fresh(screen.store.Keys - old(screen.store.Keys))
      ensures Term() == Play(old(Term()), CursorEvents(params, final))
    {
      hide Ok, Apply, MachineOk;
      var n: int := ParamDefault(params, 0, 1);
      if final == 0x41 {
        screen.MoveCursor(0, -n);
      } else if final == 0x42 {
        screen.MoveCursor(0, n);
      } else if final == 0x43 {
        screen.MoveCursor(n, 0);
      } else if final == 0x44 {
        screen.MoveCursor(-n, 0);
      } else if final == 0x45 {
        MoveThenReturn(n);
      } else if final == 0x46 {
        MoveThenReturn(-n);
      } else if final == 0x47 {
        screen.SetCursorCol(n - 1);
      } else if final == 0x48 || final == 0x66 {
        screen.SetCursor(ParamDefault(params, 1, 1) - 1, n - 1);
      } else if final == 0x64 {
        screen.SetCursorRow(n - 1);
      }
    }

    /** CNL and CPL. */
    method MoveThenReturn(dy: int)
      requires Valid()
      modifies screen, screen.store.Keys
      ensures Valid() && fresh(screen.store.Keys - old(screen.store.Keys))
      ensures Term() == Play(old(Term()), [Do(Op.MoveCursor(0, dy)), Do(Op.CarriageReturn)])
    {
      hide Ok, Apply, MachineOk;
      PlayThen(Term(), Do(Op.MoveCursor(0, dy)), [Do(Op.CarriageReturn)]);
      screen.MoveCursor(0, dy);
      screen.CarriageReturn();
    }

    /** The finals that erase, insert, delete and scroll: @ and J to X. */
    method DispatchEdit(params: seq<nat>, final: byte)
      requires Valid()
      modifies screen, screen.store.Keys
      ensures Valid() && fresh(screen.store.Keys - old(screen.store.Keys))
      ensures Term() == Play(old(Term()), EditEvents(params, final))
    {
      hide Ok, Apply, MachineOk;
      var n := ParamDefault(params, 0, 1);
      if final == 0x4A {
        EraseInDisplay(ParamAt(params, 0));
      } else if final == 0x4B {
        screen.EraseLine(ParamAt(params, 0));
      } else if final == 0x4C {
        screen.InsertLines(n);
      } else if final == 0x4D {
        screen.DeleteLines(n);
      } else if final == 0x50 {
        screen.DeleteChars(n);
      } else if final == 0x40 {
        screen.InsertChars(n);
      } else if final == 0x53 {
        screen.ScrollUp(n);
      } else if final == 0x54 {
        if |params| <= 1 {
          screen.ScrollDown(n);
        }
      } else if final == 0x58 {
        screen.EraseChars(n);
      }
    }

    /** ED; mode 3 clears the scrollback too. */
    method EraseInDisplay(mode: nat)
      requires Valid()
      modifies screen, screen.store.Keys
      ensures Valid() && fresh(screen.store.Keys - old(screen.store.Keys))
      ensures Term() == Play(old(Term()),
        if mode == 3 then [Do(Op.EraseDisplay(2)), Do(Op.ClearScrollback)] else [Do(Op.EraseDisplay(mode))])
    {
      hide Ok, Apply, MachineOk;
      if mode == 3 {
        PlayThen(Term(), Do(Op.EraseDisplay(2)), [Do(Op.ClearScrollback)]);
        screen.EraseDisplay(2);
        screen.ClearScrollback();
      } else {
        screen.EraseDisplay(mode);
      }
    }

    /** The finals r, s, u, m and n. */
    method DispatchOther(params: seq<nat>, final: byte)
      requires Valid()
      modifies this`reply, screen, screen.store.Keys
      ensures Valid() && fresh(screen.store.Keys - old(screen.store.Keys)) && Machine() == old(Machine())
      ensures Term() == Play(old(Term()), OtherEvents(params, final))
    {
      hide Ok, Apply, MachineOk;
      if final == 0x72 {
        var top := ParamDefault(params, 0, 1);
        var bottom := ParamAt(params, 1);
        if bottom <= 0 {
          bottom := LAST_ROW;
        }
        screen.SetScrollRegion(top - 1, bottom - 1);
      } else if final == 0x73 {
        screen.SaveCursor();
      } else if final == 0x75 {
        screen.RestoreCursor();
      } else if final == 0x6D {
        screen.ApplySGR(params);
      } else if final == 0x6E {
        if ParamAt(params, 0) == 6 {
          ReplyCursorPosition();
        }
      }
    }

    method SetPrivateModes(params: seq<nat>, on: bool)
      requires Valid()
      modifies screen, screen.store.Keys
      ensures Valid() && fresh(screen.store.Keys - old(screen.store.Keys))
      ensures Term() == Play(old(Term()), ModesEvents(params, on))
    {
      hide Ok, Apply, MachineOk, Perform, ModeEvents;
      ghost var t := Term();
      var i := 0;
      while i < |params|
        invariant 0 <= i <= |params| && Valid() && fresh(screen.store.Keys - old(screen.store.Keys))
        invariant Term() == Play(t, ModesEvents(params[..i], on))
      {
        assert params[..i + 1][..i] == params[..i];
        PlayConcat(t, ModesEvents(params[..i], on), ModeEvents(params[i], on));
        SetPrivateMode(params[i], on);
        i := i + 1;
      }
      assert params[..|params|] == params;
    }

    method SetPrivateMode(mode: nat, on: bool)
      requires Valid()
      modifies screen, screen.store.Keys
      ensures Valid() && fresh(screen.store.Keys - old(screen.store.Keys))
      ensures Term() == Play(old(Term()), ModeEvents(mode, on))
    {
      hide Ok, Apply, MachineOk;
      if mode == 25 {
        screen.SetCursorVisible(on);
      } else if mode == 47 || mode == 1047 || mode == 1049 {
        screen.SetAltScreen(on);
      } else if mode == 2004 {
        screen.SetBracketedPaste(on);
      }
    }

    method ReplyCursorPosition()
      requires Valid()
      modifies this`reply
      ensures Valid() && Machine() == old(Machine()) && Term() == Perform(old(Term()), Report)
    {
      hide MachineOk, Digits;
      if !connected {
        return;
      }
      var x, y := screen.CursorPosition();
      reply := reply + ([ESC, 0x5B] + Digits(y + 1) + [0x3B] + Digits(x + 1) + [CPR]);
    }

    method FeedOSC(b: byte)
      requires Valid() && state == Osc
      modifies this`state, this`osc, this`oscOverflow, screen, screen.store.Keys
      ensures Valid() && fresh(screen.store.Keys - old(screen.store.Keys))
      ensures var f := FeedOsc(old(Machine()), b);
        Machine() == f.machine && Term() == Play(old(Term()), f.events)
    {
      hide Ok, Perform, TitleEvents;
      if b == BEL {
        DispatchOSC();
        state := Ground;
      } else if b == ESC {
        state := OscEscape;
      } else if |osc| < MAX_OSC_BYTES {
        osc := osc + [b];
      } else {
        oscOverflow := true;
      }
    }

    method FeedOSCEscape(b: byte)
      requires Valid() && state == OscEscape
      modifies this`state, this`csiParams, this`csiPrivate, this`csiIgnore, this`osc, this`oscOverflow, screen, screen.store.Keys
      ensures Valid() && fresh(screen.store.Keys - old(screen.store.Keys))
      ensures var f := FeedOscEscape(old(Machine()), b);
        Machine() == f.machine && Term() == Play(old(Term()), f.events)
    {
      hide Ok, Perform, TitleEvents, ParserModel.FeedEscape;
      if b == 0x5C {
        DispatchOSC();
        state := Ground;
        return;
      }
      state := Escape;
      FeedEscape(b);
    }

    method DispatchOSC()
      requires Valid()
      modifies screen, screen.store.Keys
      ensures Valid() && fresh(screen.store.Keys - old(screen.store.Keys))
      ensures Term() == Play(old(Term()), TitleEvents(osc, oscOverflow))
    {
      hide Ok, Apply, MachineOk;
      if oscOverflow {
        return;
      }
      var i := IndexOf(osc, 0x3B);
      if i == |osc| {
        return;
      }
      var code := osc[..i];
      if code == [0x30] || code == [0x32] {
        screen.SetTitle(osc[i + 1..]);
      }
    }

    method Feed(b: byte)
      requires Valid()
      modifies this, partial, screen, screen.store.Keys
      ensures Valid() && fresh(screen.store.Keys - old(screen.store.Keys))
      ensures var f := ParserModel.Feed(old(Machine()), b);
        Machine() == f.machine && Term() == Play(old(Term()), f.events)
    {
      hide Ok, MachineOk, Play, ParserModel.FeedGround, ParserModel.FeedEscape, FeedIntermediate, FeedCsi, FeedOsc, FeedOscEscape;
      match state {
        case Escape => FeedEscape(b);
        case EscapeIntermediate => FeedEscapeIntermediate(b);
        case Csi => FeedCSI(b);
        case Osc => FeedOSC(b);
        case OscEscape => FeedOSCEscape(b);
        case Ground => FeedGround(b);
      }
    }

    /** Write: a chunk of output, byte by byte. */
    method Write(data: Text)
      requires Valid()
      modifies this, partial, screen, screen.store.Keys
      ensures Valid() && fresh(screen.store.Keys - old(screen.store.Keys))
      ensures var f := FeedAll(old(Machine()), data);
        Machine() == f.machine && Term() == Play(old(Term()), f.events)
    {
      hide Ok, MachineOk, Play, ParserModel.Feed;
      ghost var m, t := Machine(), Term();
      FeedNothing(m);
      PlayNothing(t);
      var i := 0;
      while i < |data|
        invariant 0 <= i <= |data| && Valid() && fresh(screen.store.Keys - old(screen.store.Keys))
        invariant Machine() == FeedAll(m, data[..i]).machine && Term() == Play(t, FeedAll(m, data[..i]).events)
      {
        ghost var before := FeedAll(m, data[..i]);
        assert data[..i + 1][..i] == data[..i];
        PlayConcat(t, before.events, ParserModel.Feed(before.machine, data[i]).events);
        Feed(data[i]);
        i := i + 1;
      }
      assert data[..|data|] == data;
    }
  }

  lemma ShortPartial(m: Machine)
    requires MachineOk(m) && m.partial != []
    ensures |m.partial| < m.want <= 4
  {
  }

  lemma SequenceOk(m: Machine, b: byte)
    requires MachineOk(m)
    ensures m.mode == Escape ==> MachineOk(ParserModel.FeedEscape(m, b).machine)
    ensures m.mode == Csi ==> MachineOk(FeedCsi(m, b).machine)
  {
    hide CsiEvents, ControlEvents;
  }

  lemma PlayNothing(t: Terminal)
    requires Ok(t.screen)
    ensures Play(t, []) == t
  {
  }

  lemma PlayThen(t: Terminal, e: Event, rest: seq<Event>)
    requires Ok(t.screen)
    ensures Play(t, [e] + rest) == Play(Perform(t, e), rest)
  {
    hide Perform, Ok;
    PlayOne(t, e);
    PlayConcat(t, [e], rest);
  }

  // ----- parameter lists -----

  /** The value of the field being read. */
  function Pending(buf: Text): nat {
    Capped(Decimal(Fields(buf)[|Fields(buf)| - 1]))
  }

  /** The values of the fields before it, at most 32. */
  function Finished(buf: Text): seq<nat> {
    First(Values(Fields(buf)[..|Fields(buf)| - 1]))
  }

  /** parseCSIParams. */
  method ParseCSIParams(buf: Text) returns (params: seq<nat>)
    ensures params == ParamsOf(buf)
  {
    hide Pending, Finished, ParamsOf;
    if |buf| == 0 {
      NoParams();
      return [];
    }
    NoParams();
    params := [];
    var cur := 0;
    var i := 0;
    while i < |buf|
      invariant 0 <= i <= |buf|
      invariant cur == Pending(buf[..i]) && params == Finished(buf[..i])
    {
      assert buf[..i + 1] == buf[..i] + [buf[i]];
      var c: int := buf[i];
      if IsDigit(buf[i]) {
        OtherByte(buf[..i], buf[i]);
        cur := cur * 10 + (c - 0x30);
        if cur > MAX_PARAM_VALUE {
          cur := MAX_PARAM_VALUE;
        }
      } else if IsSeparator(buf[i]) {
        SeparatorByte(buf[..i], buf[i]);
        if |params| < MAX_PARAMS {
          params := params + [cur];
        }
        cur := 0;
      } else {
        OtherByte(buf[..i], buf[i]);
      }
      i := i + 1;
    }
    assert buf[..i] == buf;
    ParamsAreFinished(buf);
    params := params + [cur];
  }

  lemma NoParams()
    ensures Pending([]) == 0 && Finished([]) == [] && ParamsOf([]) == []
  {
    assert Fields([]) == [[]];
    assert Fields([])[..0] == [];
  }

  /** At most the first 32. */
  function First(vs: seq<nat>): seq<nat> {
    if |vs| <= MAX_PARAMS then vs else vs[..MAX_PARAMS]
  }

  lemma ParamsAreFinished(buf: Text)
    requires buf != []
    ensures ParamsOf(buf) == Finished(buf) + [Pending(buf)]
  {
    hide Decimal, Capped, Fields;
    var fs := Fields(buf);
    assert Values(fs[..|fs| - 1]) == Values(fs)[..|fs| - 1];
  }

  lemma DecimalSnoc(f: Text, c: byte)
    ensures var d: int := c; Decimal(f + [c]) == if IsDigit(c) then Decimal(f) * 10 + (d - 0x30) else Decimal(f)
  {
    assert (f + [c])[..|f + [c]| - 1] == f;
  }

  lemma OtherByte(buf: Text, c: byte)
    requires !IsSeparator(c)
    ensures Finished(buf + [c]) == Finished(buf)
    ensures var d: int := c;
      Pending(buf + [c]) == if IsDigit(c) then Capped(Pending(buf) * 10 + (d - 0x30)) else Pending(buf)
  {
    hide Fields, Decimal, Values, First;
    var fs, gs := Fields(buf), Fields(buf + [c]);
    FieldsSnoc(buf, c);
    assert gs[..|gs| - 1] == fs[..|fs| - 1];
    DecimalSnoc(fs[|fs| - 1], c);
  }

  lemma SeparatorByte(buf: Text, c: byte)
    requires IsSeparator(c)
    ensures Pending(buf + [c]) == 0
    ensures Finished(buf + [c]) == if |Finished(buf)| < MAX_PARAMS then Finished(buf) + [Pending(buf)] else Finished(buf)
  {
    hide Fields, Decimal, Values, First;
    var fs, gs := Fields(buf), Fields(buf + [c]);
    FieldsSnoc(buf, c);
    assert gs[..|gs| - 1] == fs;
    NoDigits();
    FirstSnoc(fs);
  }

  lemma NoDigits()
    ensures Decimal([]) == 0
  {
  }

  lemma FirstSnoc(fs: seq<Text>)
    requires fs != []
    ensures First(Values(fs)) == (var ps := First(Values(fs[..|fs| - 1]));
      if |ps| < MAX_PARAMS then ps + [Capped(Decimal(fs[|fs| - 1]))] else ps)
  {
    hide Decimal, Capped;
    assert Values(fs[..|fs| - 1]) == Values(fs)[..|fs| - 1];
  }
}
