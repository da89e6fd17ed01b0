/** What escape sequences do to a terminal, from the bytes to the cells
    (internal/terminal/parser.go with screen.go). Parameters are printed numbers, any of
    which may be left out; effects are those of `ScreenEffects`. */
module ParserEffects {
  import opened Texts
  import opened Decimals
  import opened ScreenModel
  import opened ScreenEffects
  import opened ParserModel

  // ----- parameters as printed -----

  type Params = seq<Option<nat>>

  function Printed1(n: Option<nat>): Text {
    match n
    case None => []
    case Some(v) => Digits(v)
  }

  /** Numbers with semicolons between them. */
  function Printed(ns: Params): Text {
    if ns == [] then []
    else if |ns| == 1 then Printed1(ns[0])
    else Printed(ns[..|ns| - 1]) + [0x3B] + Printed1(ns[|ns| - 1])
  }

  /** What a parameter counts as: 0 if left out, and at most 65535. */
  function Number(ns: Params, i: nat): nat {
    if i < |ns| && ns[i].Some? then if ns[i].value > 65535 then 65535 else ns[i].value else 0
  }

  /** The number, or 1 if it is 0 or left out. */
  function Amount(ns: Params, i: nat): int {
    if Number(ns, i) == 0 then 1 else Number(ns, i)
  }

  function Numbers(ns: Params): (vs: seq<nat>)
    ensures |vs| == |ns|
  {
    seq(|ns|, i requires 0 <= i < |ns| => Number(ns, i))
  }

  /** Of more than 33 parameters only the first 32 and the last count. */
  function Counting(ns: Params): Params {
    if |ns| <= 33 then ns else ns[..32] + [ns[|ns| - 1]]
  }

  // ----- terminals after sequences -----

  function After(m: Machine, t: Terminal, data: Text): Terminal
    requires Ok(t.screen)
  {
    Play(t, FeedAll(m, data).events)
  }

  function Sequence(ns: Params, final: byte): Text {
    [ESC, 0x5B] + Printed(ns) + [final]
  }

  function PrivateSequence(ns: Params, final: byte): Text {
    [ESC, 0x5B, 0x3F] + Printed(ns) + [final]
  }

  /** The screen after ESC [ numbers final. */
  function ScreenAfter(m: Machine, t: Terminal, ns: Params, final: byte): State
    requires Ok(t.screen)
  {
    After(m, t, Sequence(ns, final)).screen
  }

  // ----- reading the parameters back -----

  lemma PrintedBytes(ns: Params)
    ensures forall i :: 0 <= i < |Printed(ns)| ==> IsParamByte(Printed(ns)[i])
  {
    hide Digits;
  }

  function PrintedAll(ns: Params): seq<Text> {
    seq(|ns|, i requires 0 <= i < |ns| => Printed1(ns[i]))
  }

  lemma {:induction false} FieldsOfPrinted(ns: Params)
    requires ns != []
    ensures Fields(Printed(ns)) == PrintedAll(ns)
  {
    hide Digits, Fields;
    var last := Printed1(ns[|ns| - 1]);
    assert [] + last == last;
    if |ns| == 1 {
      NoFields();
      FieldsAppend([], last);
      assert PrintedAll(ns) == [last];
    } else {
      var front := ns[..|ns| - 1];
      FieldsOfPrinted(front);
      FieldsSnoc(Printed(front), 0x3B);
      FieldsAppend(Printed(front) + [0x3B], last);
      assert PrintedAll(ns) == PrintedAll(front) + [last];
    }
  }

  lemma ValueOfPrinted(ns: Params, i: nat)
    requires i < |ns|
    ensures Capped(Decimal(Printed1(ns[i]))) == Number(ns, i)
  {
    hide Digits;
    match ns[i] {
      case None => assert Decimal([]) == 0;
      case Some(v) => DecimalOfDigits(v);
    }
  }

  lemma ValuesPrinted(ns: Params)
    requires ns != []
    ensures Values(Fields(Printed(ns))) == Numbers(ns)
  {
    hide Digits, Fields, Decimal, Number, Printed, Printed1;
    FieldsOfPrinted(ns);
    forall i | 0 <= i < |ns| ensures Values(PrintedAll(ns))[i] == Numbers(ns)[i] {
      ValueOfPrinted(ns, i);
    }
  }

  /** The parser reads the numbers that count; nothing printed is no parameter at all. */
  lemma ParamsPrinted(ns: Params)
    ensures ParamsOf(Printed(ns)) == if Printed(ns) == [] then [] else Numbers(Counting(ns))
    ensures Printed(ns) == [] ==> |ns| <= 1 && (ns != [] ==> Number(ns, 0) == 0)
  {
    EmptyPrint(ns);
    hide Digits, Fields, Kept, Values, Printed, Numbers, Counting;
    if Printed(ns) != [] {
      ValuesPrinted(ns);
      KeptNumbers(ns);
    }
  }

  lemma EmptyPrint(ns: Params)
    ensures ns == [] ==> Printed(ns) == []
    ensures Printed(ns) == [] ==> ns == [] || ns == [None]
  {
    hide Digits;
  }

  lemma KeptNumbers(ns: Params)
    requires ns != []
    ensures Kept(Numbers(ns)) == Numbers(Counting(ns))
  {
  }

  lemma FirstTwo(ns: Params)
    ensures var ps := ParamsOf(Printed(ns));
      && ParamAt(ps, 0) == Number(ns, 0) && ParamAt(ps, 1) == Number(ns, 1)
      && ParamDefault(ps, 0, 1) == Amount(ns, 0) && ParamDefault(ps, 1, 1) == Amount(ns, 1)
      && (|ps| <= 1 <==> |ns| <= 1)
  {
    hide ParamsOf, Printed;
    ParamsPrinted(ns);
  }

  // ----- from bytes to events -----

  lemma Dispatched(m: Machine, ns: Params, final: byte)
    requires Idle(m) && 0x40 <= final <= 0x7E
    ensures var f := FeedAll(m, Sequence(ns, final));
      && Idle(f.machine)
      && f.events == if |Printed(ns)| <= 128 then CsiEvents(ParamsOf(Printed(ns)), false, final) else []
  {
    hide FeedAll, CsiEvents, ParamsOf, ParamBytes, ControlsOf, Spoiled, Private, Printed, Idle;
    PrintedBytes(ns);
    AllParamBytes(Printed(ns));
    FeedSequence(m, Printed(ns), final);
  }

  /** A sequence with more than 128 bytes of parameters does nothing. */
  lemma TooLong(m: Machine, t: Terminal, ns: Params, final: byte)
    requires Idle(m) && Ok(t.screen) && 0x40 <= final <= 0x7E && |Printed(ns)| > 128
    ensures After(m, t, Sequence(ns, final)) == t
  {
    hide FeedAll, Sequence, Printed;
    Dispatched(m, ns, final);
  }

  /** Every sequence leads back to ground state, so the next one is read afresh. */
  lemma EndsIdle(m: Machine, ns: Params, final: byte)
    requires Idle(m) && 0x40 <= final <= 0x7E
    ensures Idle(FeedAll(m, Sequence(ns, final)).machine)
  {
    hide FeedAll, Sequence, Printed;
    Dispatched(m, ns, final);
  }

  lemma Plays(t: Terminal, op: Op)
    requires Ok(t.screen)
    ensures Play(t, [Do(op)]) == t.(screen := Apply(t.screen, op))
  {
    hide Apply, Ok;
    PlayOne(t, Do(op));
  }

  lemma PlaysTwo(t: Terminal, a: Op, b: Op)
    requires Ok(t.screen)
    ensures Ok(Apply(t.screen, a))
    ensures Play(t, [Do(a), Do(b)]) == t.(screen := Apply(Apply(t.screen, a), b))
  {
    hide Apply, Ok, Play;
    ApplyOk(t.screen, a);
    Plays(t, a);
    PlayConcat(t, [Do(a)], [Do(b)]);
    assert [Do(a)] + [Do(b)] == [Do(a), Do(b)];
    Plays(t.(screen := Apply(t.screen, a)), b);
  }

  // ----- cursor sequences -----

  lemma CursorMoves(m: Machine, t: Terminal, ns: Params)
    requires Idle(m) && Ok(t.screen) && |Printed(ns)| <= 128
    ensures MovedBy(t.screen, ScreenAfter(m, t, ns, 0x41), 0, -Amount(ns, 0))
    ensures MovedBy(t.screen, ScreenAfter(m, t, ns, 0x42), 0, Amount(ns, 0))
    ensures MovedBy(t.screen, ScreenAfter(m, t, ns, 0x43), Amount(ns, 0), 0)
    ensures MovedBy(t.screen, ScreenAfter(m, t, ns, 0x44), -Amount(ns, 0), 0)
  {
    hide FeedAll, Sequence, Printed, ParamsOf, ParamDefault, Amount, Play, Apply, MovedBy, Ok, Idle;
    FirstTwo(ns);
    var n: int := Amount(ns, 0);
    Dispatched(m, ns, 0x41);
    Dispatched(m, ns, 0x42);
    Dispatched(m, ns, 0x43);
    Dispatched(m, ns, 0x44);
    Plays(t, Op.MoveCursor(0, -n));
    Plays(t, Op.MoveCursor(0, n));
    Plays(t, Op.MoveCursor(n, 0));
    Plays(t, Op.MoveCursor(-n, 0));
    MovesExactly(t.screen, 0, 0, 0, -n);
    MovesExactly(t.screen, 0, 0, 0, n);
    MovesExactly(t.screen, 0, 0, n, 0);
    MovesExactly(t.screen, 0, 0, -n, 0);
  }

  lemma MovedThenReturned(s: State, a: State, b: State, dy: int)
    requires MovedBy(s, a, 0, dy) && OnlyCursor(a, b, 0, Y(a))
    ensures OnlyCursor(s, b, 0, Within(Y(s) + dy, s.rows))
  {
  }

  /** Next and previous line: to the first column, n lines down or up. */
  lemma LineMoves(m: Machine, t: Terminal, ns: Params)
    requires Idle(m) && Ok(t.screen) && |Printed(ns)| <= 128
    ensures OnlyCursor(t.screen, ScreenAfter(m, t, ns, 0x45), 0, Within(Y(t.screen) + Amount(ns, 0), t.screen.rows))
    ensures OnlyCursor(t.screen, ScreenAfter(m, t, ns, 0x46), 0, Within(Y(t.screen) - Amount(ns, 0), t.screen.rows))
  {
    hide FeedAll, Sequence, Printed, ParamsOf, ParamDefault, Amount, Play, Apply, MovedBy, OnlyCursor, Ok, Idle;
    FirstTwo(ns);
    var n: int := Amount(ns, 0);
    Dispatched(m, ns, 0x45);
    Dispatched(m, ns, 0x46);
    PlaysTwo(t, Op.MoveCursor(0, n), Op.CarriageReturn);
    PlaysTwo(t, Op.MoveCursor(0, -n), Op.CarriageReturn);
    MovesExactly(t.screen, 0, 0, 0, n);
    MovesExactly(t.screen, 0, 0, 0, -n);
    var down, up := Apply(t.screen, Op.MoveCursor(0, n)), Apply(t.screen, Op.MoveCursor(0, -n));
    MovesExactly(down, 0, 0, 0, 0);
    MovesExactly(up, 0, 0, 0, 0);
    MovedThenReturned(t.screen, down, Apply(down, Op.CarriageReturn), n);
    MovedThenReturned(t.screen, up, Apply(up, Op.CarriageReturn), -n);
  }

  /** Positions are one-based and start at the first column or line if left out. */
  lemma CursorPlaces(m: Machine, t: Terminal, ns: Params, final: byte)
    requires Idle(m) && Ok(t.screen) && |Printed(ns)| <= 128
    ensures PlacedAt(t.screen, ScreenAfter(m, t, ns, 0x47), Amount(ns, 0) - 1, Y(t.screen))
    ensures PlacedAt(t.screen, ScreenAfter(m, t, ns, 0x64), X(t.screen), Amount(ns, 0) - 1)
    ensures final == 0x48 || final == 0x66 ==>
      PlacedAt(t.screen, ScreenAfter(m, t, ns, final), Amount(ns, 1) - 1, Amount(ns, 0) - 1)
  {
    hide FeedAll, Sequence, Printed, ParamsOf, ParamDefault, Amount, Play, Apply, PlacedAt, Ok, Idle;
    FirstTwo(ns);
    var n: int, k: int := Amount(ns, 0), Amount(ns, 1);
    Dispatched(m, ns, 0x47);
    Dispatched(m, ns, 0x64);
    Plays(t, Op.SetCursorCol(n - 1));
    Plays(t, Op.SetCursorRow(n - 1));
    Plays(t, Op.SetCursor(k - 1, n - 1));
    MovesExactly(t.screen, n - 1, n - 1, 0, 0);
    MovesExactly(t.screen, k - 1, n - 1, 0, 0);
    if final == 0x48 || final == 0x66 {
      Dispatched(m, ns, final);
    }
  }

  // ----- editing sequences -----

  lemma Erases(m: Machine, t: Terminal, ns: Params)
    requires Idle(m) && Ok(t.screen) && |Printed(ns)| <= 128
    ensures LineErased(t.screen, ScreenAfter(m, t, ns, 0x4B), Number(ns, 0))
    ensures CharsErased(t.screen, ScreenAfter(m, t, ns, 0x58), Amount(ns, 0))
    ensures Number(ns, 0) != 3 ==> DisplayErased(t.screen, ScreenAfter(m, t, ns, 0x4A), Number(ns, 0))
  {
    hide FeedAll, Sequence, Printed, ParamsOf, ParamAt, ParamDefault, Amount, Number, Play, Apply,
      LineErased, CharsErased, DisplayErased, Ok, Idle;
    FirstTwo(ns);
    AmountPositive(ns);
    var mode: int, n: int := Number(ns, 0), Amount(ns, 0);
    Dispatched(m, ns, 0x4B);
    Dispatched(m, ns, 0x58);
    Dispatched(m, ns, 0x4A);
    Plays(t, Op.EraseLine(mode));
    Plays(t, Op.EraseChars(n));
    Plays(t, Op.EraseDisplay(mode));
    EraseLineExactly(t.screen, mode);
    EraseCharsExactly(t.screen, n);
    EraseDisplayExactly(t.screen, mode);
  }

  lemma AmountPositive(ns: Params)
    ensures Amount(ns, 0) >= 1 && Amount(ns, 1) >= 1
  {
  }

  /** Erasing with 3 erases the whole screen and the scrollback. */
  lemma ErasesAll(m: Machine, t: Terminal, ns: Params)
    requires Idle(m) && Ok(t.screen) && |Printed(ns)| <= 128 && Number(ns, 0) == 3
    ensures var r := ScreenAfter(m, t, ns, 0x4A); DisplayErased(t.screen, r.(evicted := t.screen.evicted), 2) && r.evicted == []
  {
    hide FeedAll, Sequence, Printed, ParamsOf, ParamAt, ParamDefault, Amount, Number, Play, Apply, DisplayErased, Ok, Idle;
    FirstTwo(ns);
    Dispatched(m, ns, 0x4A);
    PlaysTwo(t, Op.EraseDisplay(2), Op.ClearScrollback);
    EraseDisplayExactly(t.screen, 2);
    var erased := Apply(t.screen, Op.EraseDisplay(2));
    ModesExactly(erased, true, []);
    EvictedOnlyGrows(t.screen, Op.EraseDisplay(2));
    EraseKeepsEvicted(t.screen, erased);
  }

  lemma EraseKeepsEvicted(s: State, r: State)
    requires Ok(s) && DisplayErased(s, r, 2)
    ensures r.(evicted := []).(evicted := s.evicted) == r
  {
  }

  lemma EditsCells(m: Machine, t: Terminal, ns: Params)
    requires Idle(m) && Ok(t.screen) && |Printed(ns)| <= 128
    ensures CharsInserted(t.screen, ScreenAfter(m, t, ns, 0x40), Amount(ns, 0))
    ensures CharsDeleted(t.screen, ScreenAfter(m, t, ns, 0x50), Amount(ns, 0))
  {
    hide FeedAll, Sequence, Printed, ParamsOf, ParamAt, ParamDefault, Amount, Number, Play, Apply,
      CharsInserted, CharsDeleted, Ok, Idle;
    FirstTwo(ns);
    AmountPositive(ns);
    var n := Amount(ns, 0);
    Dispatched(m, ns, 0x40);
    Dispatched(m, ns, 0x50);
    Plays(t, Op.InsertChars(n));
    Plays(t, Op.DeleteChars(n));
    InsertCharsExactly(t.screen, n);
    DeleteCharsExactly(t.screen, n);
  }

  lemma EditsLines(m: Machine, t: Terminal, ns: Params)
    requires Idle(m) && Ok(t.screen) && |Printed(ns)| <= 128
    ensures LinesInserted(t.screen, ScreenAfter(m, t, ns, 0x4C), Amount(ns, 0))
    ensures LinesDeleted(t.screen, ScreenAfter(m, t, ns, 0x4D), Amount(ns, 0))
  {
    hide FeedAll, Sequence, Printed, ParamsOf, ParamAt, ParamDefault, Amount, Number, Play, Apply,
      LinesInserted, LinesDeleted, Ok, Idle;
    FirstTwo(ns);
    AmountPositive(ns);
    var n := Amount(ns, 0);
    Dispatched(m, ns, 0x4C);
    Dispatched(m, ns, 0x4D);
    Plays(t, Op.InsertLines(n));
    Plays(t, Op.DeleteLines(n));
    InsertLinesExactly(t.screen, n);
    DeleteLinesExactly(t.screen, n);
  }

  lemma ScrollEvents(ps: seq<nat>)
    ensures CsiEvents(ps, false, 0x53) == [Do(Op.ScrollUp(ParamDefault(ps, 0, 1)))]
    ensures CsiEvents(ps, false, 0x54) == if |ps| <= 1 then [Do(Op.ScrollDown(ParamDefault(ps, 0, 1)))] else []
  {
    hide ParamDefault;
  }

  /** Scrolling; a scroll down with several parameters is something else and dropped. */
  lemma Scrolls(m: Machine, t: Terminal, ns: Params)
    requires Idle(m) && Ok(t.screen) && |Printed(ns)| <= 128
    ensures MovedUp(t.screen, ScreenAfter(m, t, ns, 0x53), t.screen.top, Amount(ns, 0))
    ensures |ns| <= 1 ==> MovedDown(t.screen, ScreenAfter(m, t, ns, 0x54), t.screen.top, Amount(ns, 0))
    ensures |ns| > 1 ==> ScreenAfter(m, t, ns, 0x54) == t.screen
  {
    assert 0 <= t.screen.top;
    NothingPlayed(t);
    hide FeedAll, Sequence, Printed, ParamsOf, ParamAt, ParamDefault, Amount, Number, Play, Apply, MovedUp, MovedDown, Ok, Idle, CsiEvents;
    FirstTwo(ns);
    ScrollEvents(ParamsOf(Printed(ns)));
    AmountPositive(ns);
    var n := Amount(ns, 0);
    Dispatched(m, ns, 0x53);
    Plays(t, Op.ScrollUp(n));
    ScrollUpExactly(t.screen, n);
    Dispatched(m, ns, 0x54);
    if |ns| <= 1 {
      Plays(t, Op.ScrollDown(n));
      ScrollDownExactly(t.screen, n);
    }
  }

  // ----- margins, saving, pen, report -----

  /** Margins: a bottom of 0 or left out is the last line. */
  lemma SetsMargins(m: Machine, t: Terminal, ns: Params)
    requires Idle(m) && Ok(t.screen) && |Printed(ns)| <= 128
    ensures MarginsSet(t.screen, ScreenAfter(m, t, ns, 0x72), Amount(ns, 0) - 1,
              if Number(ns, 1) == 0 then Lesser(t.screen.rows, 0x4000_0000) - 1 else Number(ns, 1) - 1)
  {
    hide FeedAll, Sequence, Printed, ParamsOf, ParamAt, ParamDefault, Amount, Number, Play, Apply, Ok, Idle;
    FirstTwo(ns);
    var top: int, bottom: int := Amount(ns, 0), Number(ns, 1);
    Dispatched(m, ns, 0x72);
    Plays(t, Op.SetScrollRegion(top - 1, (if bottom == 0 then LAST_ROW else bottom) - 1));
    MarginsExactly(t.screen, top - 1, (if bottom == 0 then LAST_ROW else bottom) - 1);
  }

  lemma SavesAndRestores(m: Machine, t: Terminal, ns: Params)
    requires Idle(m) && Ok(t.screen) && |Printed(ns)| <= 128
    ensures ScreenAfter(m, t, ns, 0x73) == t.screen.(saved := Saved(X(t.screen), Y(t.screen), t.screen.pen))
    ensures CursorRestored(t.screen, ScreenAfter(m, t, ns, 0x75))
  {
    hide FeedAll, Sequence, Printed, ParamsOf, Play, Apply, CursorRestored, Ok, Idle;
    Dispatched(m, ns, 0x73);
    Dispatched(m, ns, 0x75);
    Plays(t, Op.SaveCursor);
    Plays(t, Op.RestoreCursor);
    SavedExactly(t.screen);
  }

  /** The pen takes the numbers that count, one after the other; no number is a reset. */
  lemma SetsPen(m: Machine, t: Terminal, ns: Params)
    requires Idle(m) && Ok(t.screen) && |Printed(ns)| <= 128
    ensures ScreenAfter(m, t, ns, 0x6D) ==
      t.screen.(pen := if Printed(ns) == [] then EMPTY else Sgr(t.screen.pen, Numbers(Counting(ns))))
  {
    hide FeedAll, Sequence, Printed, ParamsOf, Number, Play, Apply, Sgr, Ok, Idle;
    ParamsPrinted(ns);
    var ps: seq<int> := ParamsOf(Printed(ns));
    Dispatched(m, ns, 0x6D);
    Plays(t, Op.ApplySGR(ps));
    SgrExactly(t.screen, ps);
    CountingNonEmpty(ns);
  }

  lemma CountingNonEmpty(ns: Params)
    ensures Printed(ns) != [] ==> Numbers(Counting(ns)) != []
  {
    EmptyPrint(ns);
  }

  lemma ReportEvents(ps: seq<nat>)
    ensures CsiEvents(ps, false, 0x6E) == if ParamAt(ps, 0) == 6 then [Report] else []
  {
    hide ParamAt;
  }

  /** A report is asked for with 6 and leaves the screen alone. */
  lemma Reports(m: Machine, t: Terminal, ns: Params)
    requires Idle(m) && Ok(t.screen) && |Printed(ns)| <= 128
    ensures After(m, t, Sequence(ns, 0x6E)) ==
      if Number(ns, 0) == 6 && t.connected
      then t.(out := t.out + ([0x1B, 0x5B] + Digits(Y(t.screen) + 1) + [0x3B] + Digits(X(t.screen) + 1) + [0x52]))
      else t
  {
    ReportPlayed(t);
    NothingPlayed(t);
    hide FeedAll, Sequence, Printed, ParamsOf, ParamAt, ParamDefault, Number, Digits, Ok, Idle, Play, CsiEvents;
    FirstTwo(ns);
    ReportEvents(ParamsOf(Printed(ns)));
    Dispatched(m, ns, 0x6E);
  }

  lemma ReportPlayed(t: Terminal)
    requires Ok(t.screen)
    ensures X(t.screen) >= 0 && Y(t.screen) >= 0
    ensures Play(t, [Report]) ==
      if t.connected
      then t.(out := t.out + ([0x1B, 0x5B] + Digits(Y(t.screen) + 1) + [0x3B] + Digits(X(t.screen) + 1) + [0x52]))
      else t
  {
    var x: nat, y: nat := X(t.screen), Y(t.screen);
    hide Digits, Play;
    PlayOne(t, Report);
    assert ParserModel.Position(x, y, CPR) == [0x1B, 0x5B] + Digits(y + 1) + [0x3B] + Digits(x + 1) + [0x52];
  }

  /** A final byte with a meaning. */
  predicate Known(final: byte) {
    0x40 <= final <= 0x48 || 0x4A <= final <= 0x4D || final == 0x50 || final == 0x53 || final == 0x54 || final == 0x58
    || final == 0x64 || final == 0x66 || final == 0x6D || final == 0x6E || final == 0x72 || final == 0x73 || final == 0x75
  }

  /** All others do nothing, and only a report adds to the reply stream. */
  lemma OthersIgnored(m: Machine, t: Terminal, ns: Params, final: byte)
    requires Idle(m) && Ok(t.screen) && 0x40 <= final <= 0x7E
    ensures !Known(final) ==> After(m, t, Sequence(ns, final)) == t
    ensures final != 0x6E ==> var r := After(m, t, Sequence(ns, final)); r.out == t.out && r.connected == t.connected
  {
    hide FeedAll, Sequence, Printed, ParamsOf, ParamAt, ParamDefault, Perform, Ok, Idle, Play;
    Dispatched(m, ns, final);
    OnlyOps(ParamsOf(Printed(ns)), final);
    NothingPlayed(t);
    OpsKeepReplies(t, FeedAll(m, Sequence(ns, final)).events);
  }

  lemma NothingPlayed(t: Terminal)
    requires Ok(t.screen)
    ensures Play(t, []) == t
  {
  }

  lemma OnlyOps(ps: seq<nat>, final: byte)
    ensures final != 0x6E ==> forall i :: 0 <= i < |CsiEvents(ps, false, final)| ==> CsiEvents(ps, false, final)[i].Do?
    ensures 0x40 <= final <= 0x7E && !Known(final) ==> CsiEvents(ps, false, final) == []
  {
    hide ParamAt, ParamDefault;
  }

  lemma {:induction false} OpsKeepReplies(t: Terminal, es: seq<Event>)
    requires Ok(t.screen)
    ensures (forall i :: 0 <= i < |es| ==> es[i].Do?) ==> Play(t, es).out == t.out && Play(t, es).connected == t.connected
  {
    hide Apply, Ok;
    if es != [] {
      OpsKeepReplies(t, es[..|es| - 1]);
    }
  }

  // ----- separators -----

  function Semicolons(body: Text): Text {
    seq(|body|, i requires 0 <= i < |body| => if body[i] == 0x3A then 0x3B else body[i])
  }

  /** A colon separates parameters just as a semicolon does. */
  lemma {:induction false} ColonsSeparate(body: Text)
    ensures Fields(Semicolons(body)) == Fields(body)
    ensures ParamsOf(Semicolons(body)) == ParamsOf(body)
  {
    hide Kept, Values;
    if body != [] {
      ColonsSeparate(body[..|body| - 1]);
      assert Semicolons(body)[..|body| - 1] == Semicolons(body[..|body| - 1]);
    }
  }

  // ----- private modes -----

  lemma {:induction false} PrivateParams(ps: Text)
    requires forall i :: 0 <= i < |ps| ==> IsParamByte(ps[i])
    ensures var body := [0x3F] + ps; ParamBytes(body) == ps && ControlsOf(body) == [] && !Spoiled(body) && Private(body)
  {
    var body: Text := [0x3F] + ps;
    assert body[0] == 0x3F;
    if ps == [] {
      assert body[..0] == [];
    } else {
      var front := ps[..|ps| - 1];
      PrivateParams(front);
      assert body[..|body| - 1] == [0x3F] + front;
      assert front + [ps[|ps| - 1]] == ps;
    }
  }

  lemma ModesDispatched(m: Machine, ns: Params, final: byte)
    requires Idle(m) && 0x40 <= final <= 0x7E
    ensures var f := FeedAll(m, PrivateSequence(ns, final));
      && Idle(f.machine)
      && f.events == if |Printed(ns)| <= 128 then CsiEvents(ParamsOf(Printed(ns)), true, final) else []
  {
    hide FeedAll, CsiEvents, ParamsOf, ParamBytes, ControlsOf, Spoiled, Private, Printed, Idle;
    PrintedBytes(ns);
    PrivateParams(Printed(ns));
    FeedSequence(m, [0x3F] + Printed(ns), final);
    assert PrivateSequence(ns, final) == [ESC, 0x5B] + ([0x3F] + Printed(ns)) + [final];
  }

  /** What setting or resetting one mode does. */
  ghost predicate ModeDone(s: State, r: State, mode: nat, on: bool) {
    if mode == 25 then r == s.(cursorVisible := on)
    else if mode == 47 || mode == 1047 || mode == 1049 then if on then AltShown(s, r) else MainShown(s, r)
    else if mode == 2004 then r == s.(bracketedPaste := on)
    else r == s
  }

  lemma OneModeEvents(mode: nat, on: bool)
    ensures ModesEvents([mode], on) == ModeEvents(mode, on)
  {
    assert [mode][..0] == [];
    assert ModesEvents([], on) == [];
    assert [] + ModeEvents(mode, on) == ModeEvents(mode, on);
  }

  lemma ModePlayed(t: Terminal, mode: nat, on: bool)
    requires Ok(t.screen)
    ensures var r := Play(t, ModeEvents(mode, on)); r == t.(screen := r.screen) && ModeDone(t.screen, r.screen, mode, on)
  {
    NothingPlayed(t);
    hide Play, Apply, Ok, AltShown, MainShown;
    if mode == 25 {
      Plays(t, Op.SetCursorVisible(on));
      ModesExactly(t.screen, on, []);
    } else if mode == 2004 {
      Plays(t, Op.SetBracketedPaste(on));
      ModesExactly(t.screen, on, []);
    } else if mode == 47 || mode == 1047 || mode == 1049 {
      Plays(t, Op.SetAltScreen(on));
      AltExactly(t.screen);
    }
  }

  /** ESC [ ? with one number and h or l. */
  lemma ModeSet(m: Machine, t: Terminal, n: nat, on: bool)
    requires Idle(m) && Ok(t.screen) && |Digits(n)| <= 128
    ensures var r := After(m, t, PrivateSequence([Some(n)], if on then 0x68 else 0x6C));
      r == t.(screen := r.screen) && ModeDone(t.screen, r.screen, n, on)
  {
    hide FeedAll, PrivateSequence, ParamsOf, Number, Digits, Play, Ok, Idle, ModesEvents, ModeEvents;
    var ns := [Some(n)];
    ModesDispatched(m, ns, if on then 0x68 else 0x6C);
    ParamsPrinted(ns);
    assert Numbers(Counting(ns)) == [Number(ns, 0)];
    OneModeEvents(Number(ns, 0), on);
    ModePlayed(t, Number(ns, 0), on);
    SmallModes(n);
  }

  lemma SmallModes(n: nat)
    ensures Number([Some(n)], 0) == n || (n > 65535 && Number([Some(n)], 0) == 65535)
  {
  }

  lemma NumbersSnoc(ns: Params, n: Option<nat>)
    ensures Numbers(ns + [n]) == Numbers(ns) + Numbers([n])
  {
  }

  lemma ModesSnoc(vs: seq<nat>, v: nat, on: bool)
    ensures ModesEvents(vs + [v], on) == ModesEvents(vs, on) + ModesEvents([v], on)
  {
    OneModeEvents(v, on);
    assert (vs + [v])[..|vs + [v]| - 1] == vs;
  }

  /** Modes in a list are set one after the other, as if each had a sequence of its own. */
  lemma ModesInOrder(m: Machine, t: Terminal, ns: Params, n: nat, on: bool)
    requires Idle(m) && Ok(t.screen) && ns != [] && |ns| <= 32 && |Printed(ns + [Some(n)])| <= 128
    ensures var final := if on then 0x68 else 0x6C;
      After(m, t, PrivateSequence(ns + [Some(n)], final)) ==
      After(m, After(m, t, PrivateSequence(ns, final)), PrivateSequence([Some(n)], final))
  {
    PrintedSnoc(ns, Some(n));
    var final: byte := if on then 0x68 else 0x6C;
    ModeListEvents(m, ns + [Some(n)], on);
    ModeListEvents(m, ns, on);
    ModeListEvents(m, [Some(n)], on);
    hide FeedAll, PrivateSequence, Printed, Number, Numbers, Play, Ok, Idle, ModesEvents;
    NumbersSnoc(ns, Some(n));
    ModesSnoc(Numbers(ns), Numbers([Some(n)])[0], on);
    assert Numbers([Some(n)]) == [Numbers([Some(n)])[0]];
    PlayConcat(t, ModesEvents(Numbers(ns), on), ModesEvents(Numbers([Some(n)]), on));
  }

  lemma PrintedSnoc(ns: Params, n: Option<nat>)
    requires ns != []
    ensures Printed(ns + [n]) == Printed(ns) + [0x3B] + Printed1(n) && Printed([n]) == Printed1(n)
    ensures |Printed(ns)| <= |Printed(ns + [n])| && |Printed1(n)| <= |Printed(ns + [n])|
  {
    hide Printed1;
    assert (ns + [n])[..|ns + [n]| - 1] == ns;
  }

  lemma ModeListEvents(m: Machine, ns: Params, on: bool)
    requires Idle(m) && ns != [] && |ns| <= 33 && |Printed(ns)| <= 128
    ensures FeedAll(m, PrivateSequence(ns, if on then 0x68 else 0x6C)).events == ModesEvents(Numbers(ns), on)
  {
    hide FeedAll, PrivateSequence, ParamsOf, Printed, Number, Idle, ModesEvents;
    ModesDispatched(m, ns, if on then 0x68 else 0x6C);
    ParamsPrinted(ns);
    if Printed(ns) == [] {
      NoModes(ns, on);
    }
  }

  lemma NoModes(ns: Params, on: bool)
    requires |ns| == 1 && Number(ns, 0) == 0
    ensures ModesEvents(Numbers(ns), on) == [] == ModesEvents([], on)
  {
    assert Numbers(ns) == [0];
    OneModeEvents(0, on);
  }

  /** Other private sequences, and too long ones, do nothing. */
  lemma PrivateIgnored(m: Machine, t: Terminal, ns: Params, final: byte)
    requires Idle(m) && Ok(t.screen) && 0x40 <= final <= 0x7E
    requires (final != 0x68 && final != 0x6C) || |Printed(ns)| > 128
    ensures After(m, t, PrivateSequence(ns, final)) == t
  {
    hide FeedAll, PrivateSequence, ParamsOf, Printed, Ok, Idle;
    ModesDispatched(m, ns, final);
    NothingPlayed(t);
  }

  // ----- short escape sequences and controls -----

  lemma EscapeByte(m: Machine, b: byte)
    requires Idle(m)
    ensures FeedAll(m, [ESC, b]) == ParserModel.FeedEscape(m.(mode := Escape), b)
  {
    hide FeedAll, ParserModel.FeedEscape, ControlEvents;
    FeedCons(m, ESC, [b]);
    FeedOne(m.(mode := Escape), b);
    assert [ESC] + [b] == [ESC, b];
  }

  /** ESC 7, ESC 8, ESC D, ESC M and ESC E. */
  lemma ShortEscapes(m: Machine, t: Terminal)
    requires Idle(m) && Ok(t.screen)
    ensures After(m, t, [ESC, 0x37]).screen == t.screen.(saved := Saved(X(t.screen), Y(t.screen), t.screen.pen))
    ensures CursorRestored(t.screen, After(m, t, [ESC, 0x38]).screen)
    ensures LineFed(t.screen, After(m, t, [ESC, 0x44]).screen)
    ensures ReverseFed(t.screen, After(m, t, [ESC, 0x4D]).screen)
  {
    hide FeedAll, Play, Apply, Ok, CursorRestored, LineFed, ReverseFed;
    EscapeByte(m, 0x37);
    EscapeByte(m, 0x38);
    EscapeByte(m, 0x44);
    EscapeByte(m, 0x4D);
    Plays(t, Op.SaveCursor);
    Plays(t, Op.RestoreCursor);
    Plays(t, Op.LineFeed);
    Plays(t, Op.ReverseLineFeed);
    SavedExactly(t.screen);
    LineFeedExactly(t.screen);
    ReverseLineFeedExactly(t.screen);
  }

  /** ESC E is a carriage return and a line feed. */
  lemma NextLine(m: Machine, t: Terminal)
    requires Idle(m) && Ok(t.screen)
    ensures var home := After(m, t, [0x0D]); After(m, t, [ESC, 0x45]) == After(m, home, [0x0A])
  {
    hide FeedAll, Play, Apply, Ok;
    EscapeByte(m, 0x45);
    FeedOne(m, 0x0D);
    FeedOne(m, 0x0A);
    PlaysTwo(t, Op.CarriageReturn, Op.LineFeed);
    Plays(t, Op.CarriageReturn);
    Plays(t.(screen := Apply(t.screen, Op.CarriageReturn)), Op.LineFeed);
  }

  /** Any other byte after ESC but [ and ] is swallowed. */
  lemma EscapeIgnored(m: Machine, t: Terminal, b: byte)
    requires Idle(m) && Ok(t.screen) && b >= 0x30 && b !in {0x37, 0x38, 0x44, 0x45, 0x4D, 0x5B, 0x5D, 0x63}
    ensures After(m, t, [ESC, b]) == t && Idle(FeedAll(m, [ESC, b]).machine)
  {
    hide FeedAll, Ok;
    EscapeByte(m, b);
    NothingPlayed(t);
  }

  lemma {:induction false} Intermediates(m: Machine, mids: Text)
    requires m.mode == EscapeIntermediate && forall i :: 0 <= i < |mids| ==> 0x20 <= mids[i] <= 0x2F
    ensures FeedAll(m, mids) == Fed(m, [])
  {
    if mids != [] {
      Intermediates(m, mids[..|mids| - 1]);
    }
  }

  /** ESC, intermediate bytes and a final byte: swallowed as a whole. */
  lemma DesignationIgnored(m: Machine, t: Terminal, mids: Text, final: byte)
    requires Idle(m) && Ok(t.screen) && mids != [] && 0x30 <= final <= 0x7E
    requires forall i :: 0 <= i < |mids| ==> 0x20 <= mids[i] <= 0x2F
    ensures After(m, t, [ESC] + mids + [final]) == t && FeedAll(m, [ESC] + mids + [final]).machine == m
  {
    hide FeedAll, Ok;
    EscapeByte(m, mids[0]);
    var inside := m.(mode := EscapeIntermediate);
    Intermediates(inside, mids[1..]);
    FeedConcat(m, [ESC, mids[0]], mids[1..]);
    FeedConcat(m, [ESC] + mids, [final]);
    assert [ESC] + mids == [ESC, mids[0]] + mids[1..];
    FeedOne(inside, final);
    NothingPlayed(t);
  }

  lemma ControlEffect(m: Machine, t: Terminal, b: byte)
    requires Idle(m) && Ok(t.screen) && b < 0x20 && b != ESC
    ensures After(m, t, [b]) == Play(t, ControlEvents(b))
  {
    hide FeedAll, Play, ControlEvents, Ok;
    FeedOne(m, b);
  }

  /** Backspace, line feeds and carriage return; the other C0 controls and DEL do nothing. */
  lemma Controls(m: Machine, t: Terminal, b: byte)
    requires Idle(m) && Ok(t.screen) && (b < 0x20 || b == 0x7F) && b != ESC && b != 0x09
    ensures var r := After(m, t, [b]);
      && r == t.(screen := r.screen)
      && if b == 0x08 then OnlyCursor(t.screen, r.screen, Greater(X(t.screen) - 1, 0), Y(t.screen))
         else if 0x0A <= b <= 0x0C then LineFed(t.screen, r.screen)
         else if b == 0x0D then OnlyCursor(t.screen, r.screen, 0, Y(t.screen))
         else r == t
  {
    NothingPlayed(t);
    if b == 0x7F {
      FeedOne(m, b);
    } else {
      ControlEffect(m, t, b);
      hide After, Play, Apply, Ok, OnlyCursor, LineFed;
      if b == 0x08 {
        Plays(t, Op.BackSpace);
        MovesExactly(t.screen, 0, 0, 0, 0);
      } else if 0x0A <= b <= 0x0C {
        Plays(t, Op.LineFeed);
        LineFeedExactly(t.screen);
      } else if b == 0x0D {
        Plays(t, Op.CarriageReturn);
        MovesExactly(t.screen, 0, 0, 0, 0);
      }
    }
  }

  /** A tab goes to the next tab stop, or to the last column. */
  lemma Tabulates(m: Machine, t: Terminal) returns (stop: int)
    requires Idle(m) && Ok(t.screen)
    ensures var r := After(m, t, [0x09]);
      && r == t.(screen := r.screen)
      && NextStop(X(t.screen), stop) && OnlyCursor(t.screen, r.screen, Lesser(stop, t.screen.cols - 1), Y(t.screen))
  {
    ControlEffect(m, t, 0x09);
    hide After, Play, Apply, Ok, OnlyCursor, NextStop;
    Plays(t, Op.Tab);
    stop := TabExactly(t.screen);
  }

  // ----- operating system commands -----

  lemma CommandHeld(m: Machine, payload: Text) returns (held: Machine)
    requires Idle(m) && forall i :: 0 <= i < |payload| ==> payload[i] != BEL && payload[i] != ESC
    ensures FeedAll(m, [ESC, 0x5D] + payload) == Fed(held, [])
    ensures held == m.(mode := Osc, osc := held.osc, overflow := |payload| > 4096)
    ensures |payload| <= 4096 ==> held.osc == payload
  {
    hide FeedAll;
    EscapeByte(m, 0x5D);
    FeedPayload(m.(mode := Osc, osc := [], overflow := false), payload);
    FeedConcat(m, [ESC, 0x5D], payload);
    held := FeedAll(m, [ESC, 0x5D] + payload).machine;
  }

  /** Any payload: the title is set if and only if the command is 0 or 2 and the payload
      has at most 4096 bytes. */
  lemma CommandExactly(m: Machine, payload: Text, st: bool)
    requires Idle(m) && forall i :: 0 <= i < |payload| ==> payload[i] != BEL && payload[i] != ESC
    ensures var f := FeedAll(m, [ESC, 0x5D] + payload + if st then [ESC, 0x5C] else [BEL]);
      && Idle(f.machine)
      && f.events ==
           if |payload| <= 4096 && |payload| >= 2 && payload[0] in {0x30, 0x32} && payload[1] == 0x3B
           then [Do(Op.SetTitle(payload[2..]))] else []
  {
    hide FeedAll, TitleEvents;
    var held := CommandHeld(m, payload);
    Terminated(held, st);
    FeedConcat(m, [ESC, 0x5D] + payload, if st then [ESC, 0x5C] else [BEL]);
    CommandEvents(payload);
  }

  lemma CommandEvents(osc: Text)
    ensures forall s :: TitleEvents(s, true) == []
    ensures TitleEvents(osc, false) ==
      if |osc| >= 2 && osc[0] in {0x30, 0x32} && osc[1] == 0x3B then [Do(Op.SetTitle(osc[2..]))] else []
  {
    if |osc| >= 2 && osc[0] in {0x30, 0x32} && osc[1] == 0x3B {
      FirstIndex(osc, 0x3B, 1);
      assert osc[..1] == [osc[0]];
    } else {
      var i := IndexOf(osc, 0x3B);
      if i < |osc| && |osc[..i]| == 1 {
        assert osc[..i][0] == osc[0];
      }
    }
  }

  /** An ESC inside the payload that does not end it abandons the command: what follows
      is the sequence that ESC starts. */
  lemma CommandAbandoned(m: Machine, payload: Text, b: byte)
    requires Idle(m) && b != 0x5C && forall i :: 0 <= i < |payload| ==> payload[i] != BEL && payload[i] != ESC
    ensures var f, g := FeedAll(m, [ESC, 0x5D] + payload + [ESC, b]), FeedAll(m, [ESC, b]);
      f.events == g.events && f.machine.mode == g.machine.mode && f.machine.partial == []
  {
    hide FeedAll, ParserModel.FeedEscape;
    EscapeByte(m, b);
    var held := CommandHeld(m, payload);
    FeedConcat(m, [ESC, 0x5D] + payload, [ESC, b]);
    FeedCons(held, ESC, [b]);
    FeedOne(held.(mode := OscEscape), b);
    assert [ESC] + [b] == [ESC, b];
    EscapedAlike(held.(mode := Escape), m.(mode := Escape), b);
  }

  lemma EscapedAlike(m: Machine, n: Machine, b: byte)
    requires m.mode == n.mode == Escape && m.partial == n.partial == []
    ensures var f, g := ParserModel.FeedEscape(m, b), ParserModel.FeedEscape(n, b);
      f.events == g.events && f.machine.mode == g.machine.mode && f.machine.partial == []
  {
    hide ControlEvents;
  }
}
