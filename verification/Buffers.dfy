/** The text buffer with undo and redo (internal/editor/buffer.go).

    `Document` is the buffer's state as a value and `Execute` what one public
    mutation does to it. `History` adds what the outside can have seen: every text
    by sequence number and every change that was announced. The class `Buffer` is
    the source's object, with its line-start cache, proved against `Execute`. */
module Buffers {
  import opened Texts
  import opened Lines

  datatype Edit = Edit(range: Range, removed: Text, inserted: Text)

  datatype ChangeKind = InsertKind | DeleteKind | UndoKind | RedoKind

  datatype Change = Change(kind: ChangeKind, edit: Edit, seqNo: nat)

  datatype Outcome = Applied(edit: Edit) | BadLine | BadColumn | NothingToDo

  datatype Command = Insert(pos: Position, text: Text) | Delete(range: Range) | Undo | Redo

  datatype Document = Document(text: Text, undo: seq<Edit>, redo: seq<Edit>, seqNo: nat)

  datatype Executed = Executed(doc: Document, outcome: Outcome, change: Option<Change>)

  function Fail(d: Document, r: OffsetResult): Executed
    requires !r.Offset?
  {
    Executed(d, if r.LineOutOfBounds? then BadLine else BadColumn, None)
  }

  /** Replace `before` by `after` at the edit's start; None where the source would
      report an inconsistent state or index past the text. */
  function SpliceAt(t: Text, start: Position, before: Text, after: Text): Option<Text> {
    match OffsetOf(t, start)
    case Offset(a) => if a + |before| <= |t| then Some(Splice(t, a, a + |before|, after)) else None
    case _ => None
  }

  function InsertInto(d: Document, pos: Position, text: Text): Executed {
    var at := OffsetOf(d.text, pos);
    if !at.Offset? then Fail(d, at)
    else if text == [] then Executed(d, Applied(Edit(Range(pos, pos), [], [])), None)
    else
      OffsetExact(d.text, pos, at.off);
      Commit(d, InsertKind, Edit(Range(pos, pos), [], text), Splice(d.text, at.off, at.off, text))
  }

  function DeleteFrom(d: Document, range: Range): Executed {
    var r := range.Normalized();
    if r.Empty() then Executed(d, Applied(Edit(r, [], [])), None)
    else
      var s := OffsetOf(d.text, r.start);
      var e := OffsetOf(d.text, r.end);
      if !s.Offset? then Fail(d, s)
      else if !e.Offset? then Fail(d, e)
      else
        DeleteBounds(d.text, r, s.off, e.off);
        Commit(d, DeleteKind, Edit(r, d.text[s.off..e.off], []), Splice(d.text, s.off, e.off, []))
  }

  function UndoLast(d: Document): Executed {
    if d.undo == [] then Executed(d, NothingToDo, None)
    else
      var e := d.undo[|d.undo| - 1];
      match SpliceAt(d.text, e.range.start, e.inserted, e.removed)
      case None => Executed(d, NothingToDo, None)
      case Some(t) =>
        Executed(Document(t, d.undo[..|d.undo| - 1], d.redo + [e], d.seqNo + 1), Applied(e),
                 Some(Change(UndoKind, e, d.seqNo + 1)))
  }

  function RedoLast(d: Document): Executed {
    if d.redo == [] then Executed(d, NothingToDo, None)
    else
      var e := d.redo[|d.redo| - 1];
      match SpliceAt(d.text, e.range.start, e.removed, e.inserted)
      case None => Executed(d, NothingToDo, None)
      case Some(t) =>
        Executed(Document(t, d.undo + [e], d.redo[..|d.redo| - 1], d.seqNo + 1), Applied(e),
                 Some(Change(RedoKind, e, d.seqNo + 1)))
  }

  function Execute(d: Document, c: Command): Executed {
    match c
    case Insert(pos, text) => InsertInto(d, pos, text)
    case Delete(range) => DeleteFrom(d, range)
    case Undo => UndoLast(d)
    case Redo => RedoLast(d)
  }

  function Commit(d: Document, kind: ChangeKind, e: Edit, text: Text): Executed {
    Executed(Document(text, d.undo + [e], [], d.seqNo + 1), Applied(e), Some(Change(kind, e, d.seqNo + 1)))
  }

  lemma DeleteBounds(t: Text, r: Range, s: nat, e: nat)
    requires r.start.AtMost(r.end)
    requires OffsetOf(t, r.start) == Offset(s) && OffsetOf(t, r.end) == Offset(e)
    ensures s <= e <= |t| && PosAt(t, s) == r.start && PosAt(t, e) == r.end
    ensures r.start != r.end ==> s < e
  {
    OffsetExact(t, r.start, s);
    OffsetExact(t, r.end, e);
    PosAtOrder(t, s, e);
    PosAtOrder(t, e, s);
  }

  /** Deleting between two offsets. */
  lemma DeleteBetween(d: Document, s: nat, e: nat)
    requires s < e <= |d.text|
    ensures var x := DeleteFrom(d, Range(PosAt(d.text, s), PosAt(d.text, e)));
      && x.change.Some?
      && x.doc.text == d.text[..s] + d.text[e..]
      && PosAt(x.doc.text, s) == PosAt(d.text, s)
  {
    hide OffsetOf, PosAt;
    PosAtOrder(d.text, s, e);
    OffsetOfPosAt(d.text, s);
    OffsetOfPosAt(d.text, e);
    var x := DeleteFrom(d, Range(PosAt(d.text, s), PosAt(d.text, e)));
    assert x.doc.text[..s] == d.text[..s];
    PosAtPrefix(d.text, x.doc.text, s);
  }

  lemma InsertAtOffset(d: Document, s: nat, text: Text)
    requires s <= |d.text| && text != []
    ensures var x := InsertInto(d, PosAt(d.text, s), text);
      && x.change.Some?
      && x.doc.text == d.text[..s] + text + d.text[s..]
      && EndOfInsert(PosAt(d.text, s), text) == PosAt(x.doc.text, s + |text|)
  {
    hide OffsetOf, PosAt, EndOfInsert;
    OffsetOfPosAt(d.text, s);
    var x := InsertInto(d, PosAt(d.text, s), text);
    EndOfInsertIsAdvance(PosAt(d.text, s), text);
    assert x.doc.text[..s] == d.text[..s];
    PosAtPrefix(d.text, x.doc.text, s);
    PosAtSplit(x.doc.text, s, s + |text|);
    assert x.doc.text[s..s + |text|] == text;
  }

  // ----- what fails, and how -----

  /** No offset of the text is on the line. */
  ghost predicate NoSuchLine(t: Text, p: Position) {
    forall off: nat :: off <= |t| ==> PosAt(t, off).line != p.line
  }

  /** A position fails by its line or, on an existing line, by its column. */
  ghost predicate FailsWith(t: Text, p: Position, outcome: Outcome) {
    !ValidIn(t, p) && outcome == if NoSuchLine(t, p) then BadLine else BadColumn
  }

  /** An insertion fails exactly when its position is invalid, even of no text. */
  lemma InsertFailsExactly(d: Document, pos: Position, text: Text)
    ensures var x := InsertInto(d, pos, text);
      && (!x.outcome.Applied? <==> !ValidIn(d.text, pos))
      && (!x.outcome.Applied? ==> FailsWith(d.text, pos, x.outcome) && x.doc == d && x.change == None)
  {
    hide OffsetOf, PosAt;
    OffsetErrors(d.text, pos);
  }

  /** A deletion of an empty range never fails; any other fails exactly when an end is
      invalid, by its start if that is. */
  lemma DeleteFailsExactly(d: Document, range: Range)
    ensures var x := DeleteFrom(d, range); var r := range.Normalized();
      && (!x.outcome.Applied? <==> r.start != r.end && !(ValidIn(d.text, r.start) && ValidIn(d.text, r.end)))
      && (!x.outcome.Applied? ==>
            && FailsWith(d.text, if ValidIn(d.text, r.start) then r.end else r.start, x.outcome)
            && x.doc == d && x.change == None)
  {
    hide OffsetOf, PosAt;
    var r := range.Normalized();
    OffsetErrors(d.text, r.start);
    OffsetErrors(d.text, r.end);
  }

  // ----- what an edit and a change say about two texts -----

  /** `e` turns `t` into `u`: at byte `a` of `t`, where the edit's range starts,
      stands exactly the removed text, ending where the range ends. */
  ghost predicate TurnsAt(e: Edit, t: Text, u: Text, a: nat) {
    && a + |e.removed| <= |t|
    && e.range == Range(PosAt(t, a), PosAt(t, a + |e.removed|))
    && t[a..a + |e.removed|] == e.removed
    && u == Splice(t, a, a + |e.removed|, e.inserted)
  }

  ghost predicate Turns(e: Edit, t: Text, u: Text) {
    exists a: nat :: TurnsAt(e, t, u, a)
  }

  /** An edit that turned `t` into `u` can be reversed on `u` and reapplied on `t`. */
  lemma TurnsBothWays(e: Edit, t: Text, u: Text)
    requires Turns(e, t, u)
    ensures SpliceAt(u, e.range.start, e.inserted, e.removed) == Some(t)
    ensures SpliceAt(t, e.range.start, e.removed, e.inserted) == Some(u)
  {
    hide OffsetOf, PosAt;
    var a: nat :| TurnsAt(e, t, u, a);
    PosAtPrefix(t, u, a);
    OffsetOfPosAt(t, a);
    OffsetOfPosAt(u, a);
    assert u[..a] == t[..a] && u[a + |e.inserted|..] == t[a + |e.removed|..];
    assert t == t[..a] + t[a..a + |e.removed|] + t[a + |e.removed|..];
  }

  /** (pre, post) of a change: it replaced `pre` by `post`. */
  function TextsForChange(ch: Change): (Text, Text) {
    match ch.kind
    case InsertKind => ([], ch.edit.inserted)
    case DeleteKind => (ch.edit.removed, [])
    case UndoKind => (ch.edit.inserted, ch.edit.removed)
    case RedoKind => (ch.edit.removed, ch.edit.inserted)
  }

  ghost predicate DescribesAt(ch: Change, t: Text, u: Text, a: nat) {
    var (pre, post) := TextsForChange(ch);
    && a + |pre| <= |t|
    && ch.edit.range.start == PosAt(t, a)
    && t[a..a + |pre|] == pre
    && u == Splice(t, a, a + |pre|, post)
    && (ch.kind.InsertKind? || ch.kind.DeleteKind? ==>
          ch.edit.range.end == PosAt(t, a + |pre|) && ch.edit.removed == pre && ch.edit.inserted == post)
  }

  /** The announced change is exactly the difference between the two texts. */
  ghost predicate Describes(ch: Change, t: Text, u: Text) {
    exists a: nat :: DescribesAt(ch, t, u, a)
  }

  // ----- the undo invariant -----

  /** The undo stack leads from `text` back to `initial`. */
  ghost predicate UndoChain(undo: seq<Edit>, text: Text, initial: Text) {
    if undo == [] then text == initial
    else
      var e := undo[|undo| - 1];
      match SpliceAt(text, e.range.start, e.inserted, e.removed)
      case None => false
      case Some(before) => Turns(e, before, text) && UndoChain(undo[..|undo| - 1], before, initial)
  }

  /** Every edit of the redo stack can be reapplied in turn. */
  ghost predicate RedoChain(redo: seq<Edit>, text: Text) {
    redo == [] ||
    var e := redo[|redo| - 1];
    match SpliceAt(text, e.range.start, e.removed, e.inserted)
    case None => false
    case Some(after) => Turns(e, text, after) && RedoChain(redo[..|redo| - 1], after)
  }

  ghost predicate Consistent(d: Document, initial: Text) {
    UndoChain(d.undo, d.text, initial) && RedoChain(d.redo, d.text)
  }

  lemma TopUndo(undo: seq<Edit>, text: Text, initial: Text)
    requires UndoChain(undo, text, initial) && undo != []
    ensures var e := undo[|undo| - 1]; var r := SpliceAt(text, e.range.start, e.inserted, e.removed);
      r.Some? && Turns(e, r.value, text) && UndoChain(undo[..|undo| - 1], r.value, initial)
  {
  }

  lemma TopRedo(redo: seq<Edit>, text: Text)
    requires RedoChain(redo, text) && redo != []
    ensures var e := redo[|redo| - 1]; var r := SpliceAt(text, e.range.start, e.removed, e.inserted);
      r.Some? && Turns(e, text, r.value) && RedoChain(redo[..|redo| - 1], r.value)
  {
  }

  lemma NoRedo(text: Text)
    ensures RedoChain([], text)
  {
  }

  lemma PushUndo(undo: seq<Edit>, text: Text, initial: Text, e: Edit, next: Text)
    requires UndoChain(undo, text, initial) && Turns(e, text, next)
    ensures UndoChain(undo + [e], next, initial)
  {
    TurnsBothWays(e, text, next);
    assert (undo + [e])[..|undo + [e]| - 1] == undo;
  }

  lemma PushRedo(redo: seq<Edit>, text: Text, e: Edit, before: Text)
    requires RedoChain(redo, text) && Turns(e, before, text)
    ensures RedoChain(redo + [e], before)
  {
    TurnsBothWays(e, before, text);
    assert (redo + [e])[..|redo + [e]| - 1] == redo;
  }

  lemma UndoDescribes(e: Edit, before: Text, text: Text, n: nat)
    requires Turns(e, before, text)
    ensures Describes(Change(UndoKind, e, n), text, before)
  {
    hide PosAt;
    var a: nat :| TurnsAt(e, before, text, a);
    PosAtPrefix(before, text, a);
    assert text[..a] == before[..a] && text[a + |e.inserted|..] == before[a + |e.removed|..];
    assert before == before[..a] + before[a..a + |e.removed|] + before[a + |e.removed|..];
    assert text[a..a + |e.inserted|] == e.inserted;
    assert DescribesAt(Change(UndoKind, e, n), text, before, a);
  }

  lemma ForwardDescribes(e: Edit, text: Text, after: Text, kind: ChangeKind, n: nat)
    requires Turns(e, text, after)
    requires kind.RedoKind? || (kind.InsertKind? && e.removed == []) || (kind.DeleteKind? && e.inserted == [])
    ensures Describes(Change(kind, e, n), text, after)
  {
    hide PosAt;
    var a: nat :| TurnsAt(e, text, after, a);
    assert DescribesAt(Change(kind, e, n), text, after, a);
  }

  /** Under the invariant Undo works exactly when there is something to undo, and
      takes the last edit back: the inconsistent-state branch is dead. */
  lemma UndoStep(d: Document, initial: Text)
    requires Consistent(d, initial) && d.undo != []
    ensures var x := UndoLast(d); var e := d.undo[|d.undo| - 1];
      && x.outcome == Applied(e) && x.change == Some(Change(UndoKind, e, d.seqNo + 1))
      && SpliceAt(d.text, e.range.start, e.inserted, e.removed) == Some(x.doc.text)
      && Turns(e, x.doc.text, d.text)
      && Describes(x.change.value, d.text, x.doc.text)
      && Consistent(x.doc, initial)
      && x.doc.undo == d.undo[..|d.undo| - 1] && x.doc.redo == d.redo + [e]
  {
    hide SpliceAt, UndoChain, RedoChain, Turns, Describes;
    var e := d.undo[|d.undo| - 1];
    TopUndo(d.undo, d.text, initial);
    var before := SpliceAt(d.text, e.range.start, e.inserted, e.removed).value;
    PushRedo(d.redo, d.text, e, before);
    UndoDescribes(e, before, d.text, d.seqNo + 1);
  }

  lemma RedoStep(d: Document, initial: Text)
    requires Consistent(d, initial) && d.redo != []
    ensures var x := RedoLast(d); var e := d.redo[|d.redo| - 1];
      && x.outcome == Applied(e) && x.change == Some(Change(RedoKind, e, d.seqNo + 1))
      && SpliceAt(d.text, e.range.start, e.removed, e.inserted) == Some(x.doc.text)
      && Turns(e, d.text, x.doc.text)
      && Describes(x.change.value, d.text, x.doc.text)
      && Consistent(x.doc, initial)
      && x.doc.undo == d.undo + [e] && x.doc.redo == d.redo[..|d.redo| - 1]
  {
    hide SpliceAt, UndoChain, RedoChain, Turns, Describes;
    var e := d.redo[|d.redo| - 1];
    TopRedo(d.redo, d.text);
    var after := SpliceAt(d.text, e.range.start, e.removed, e.inserted).value;
    PushUndo(d.undo, d.text, initial, e, after);
    ForwardDescribes(e, d.text, after, RedoKind, d.seqNo + 1);
  }

  lemma InsertStep(d: Document, initial: Text, pos: Position, text: Text)
    requires Consistent(d, initial) && InsertInto(d, pos, text).change.Some?
    ensures var x := InsertInto(d, pos, text);
      && Turns(x.change.value.edit, d.text, x.doc.text)
      && Describes(x.change.value, d.text, x.doc.text)
      && Consistent(x.doc, initial)
  {
    hide OffsetOf, UndoChain, RedoChain, Describes;
    var x := InsertInto(d, pos, text);
    var e := x.change.value.edit;
    var a := OffsetOf(d.text, pos).off;
    OffsetExact(d.text, pos, a);
    assert TurnsAt(e, d.text, x.doc.text, a);
    PushUndo(d.undo, d.text, initial, e, x.doc.text);
    NoRedo(x.doc.text);
    ForwardDescribes(e, d.text, x.doc.text, InsertKind, d.seqNo + 1);
  }

  lemma DeleteStep(d: Document, initial: Text, r: Range)
    requires Consistent(d, initial) && DeleteFrom(d, r).change.Some?
    ensures var x := DeleteFrom(d, r);
      && Turns(x.change.value.edit, d.text, x.doc.text)
      && Describes(x.change.value, d.text, x.doc.text)
      && Consistent(x.doc, initial)
  {
    hide OffsetOf, UndoChain, RedoChain, Describes;
    var x := DeleteFrom(d, r);
    var n := r.Normalized();
    var s, e := OffsetOf(d.text, n.start).off, OffsetOf(d.text, n.end).off;
    DeleteBounds(d.text, n, s, e);
    var edit := x.change.value.edit;
    assert TurnsAt(edit, d.text, x.doc.text, s);
    PushUndo(d.undo, d.text, initial, edit, x.doc.text);
    NoRedo(x.doc.text);
    ForwardDescribes(edit, d.text, x.doc.text, DeleteKind, d.seqNo + 1);
  }

  /** Every command keeps the invariant; it either announces one change, which is
      the exact difference of the texts and carries the next sequence number, or
      leaves the document as it was. */
  lemma ExecuteKeeps(d: Document, initial: Text, c: Command)
    requires Consistent(d, initial)
    ensures Consistent(Execute(d, c).doc, initial)
    ensures match Execute(d, c).change
      case Some(ch) =>
        && Describes(ch, d.text, Execute(d, c).doc.text)
        && ch.seqNo == Execute(d, c).doc.seqNo == d.seqNo + 1
      case None => Execute(d, c).doc == d
    ensures c.Undo? ==> (Execute(d, c).change.Some? <==> d.undo != [])
    ensures c.Redo? ==> (Execute(d, c).change.Some? <==> d.redo != [])
  {
    hide Describes, UndoChain, RedoChain, OffsetOf, SpliceAt, Turns;
    if Execute(d, c).change.Some? {
      match c
      case Insert(pos, text) => InsertStep(d, initial, pos, text);
      case Delete(r) => DeleteStep(d, initial, r);
      case Undo => UndoStep(d, initial);
      case Redo => RedoStep(d, initial);
    } else if c.Undo? && d.undo != [] {
      UndoStep(d, initial);
    } else if c.Redo? && d.redo != [] {
      RedoStep(d, initial);
    }
  }

  // ----- k undos, k redos -----

  function UndoTimes(d: Document, k: nat): Document
    decreases k
  {
    if k == 0 then d else UndoTimes(UndoLast(d).doc, k - 1)
  }

  function RedoTimes(d: Document, k: nat): Document {
    if k == 0 then d else RedoLast(RedoTimes(d, k - 1)).doc
  }

  /** One undo is taken back by one redo, up to the sequence counter. */
  lemma RedoAfterUndo(d: Document, initial: Text, bump: nat)
    requires Consistent(d, initial) && d.undo != []
    ensures var u := UndoLast(d).doc;
      RedoLast(u.(seqNo := u.seqNo + bump)).doc == d.(seqNo := d.seqNo + bump + 2)
  {
    hide Turns, UndoChain, RedoChain, SpliceAt;
    UndoStep(d, initial);
    var u := UndoLast(d).doc;
    var e := d.undo[|d.undo| - 1];
    TurnsBothWays(e, u.text, d.text);
    assert u.redo[..|u.redo| - 1] == d.redo;
    assert d.undo[..|d.undo| - 1] + [e] == d.undo;
  }

  lemma {:induction false} UndosThenRedos(d: Document, initial: Text, k: nat)
    requires Consistent(d, initial) && k <= |d.undo|
    ensures RedoTimes(UndoTimes(d, k), k) == d.(seqNo := d.seqNo + 2 * k)
    decreases k
  {
    hide Turns, UndoChain, RedoChain, SpliceAt, UndoLast, RedoLast;
    if k > 0 {
      UndoStep(d, initial);
      var u := UndoLast(d).doc;
      UndosThenRedos(u, initial, k - 1);
      RedoAfterUndo(d, initial, 2 * (k - 1));
    }
  }

  lemma {:induction false} UndoEverything(d: Document, initial: Text)
    requires Consistent(d, initial)
    ensures UndoTimes(d, |d.undo|).text == initial
    ensures UndoTimes(d, |d.undo|).undo == []
    decreases |d.undo|
  {
    hide Turns, RedoChain, SpliceAt, UndoLast;
    if d.undo != [] {
      UndoStep(d, initial);
      UndoEverything(UndoLast(d).doc, initial);
    }
  }

  // ----- whole runs -----

  datatype History = History(doc: Document, texts: seq<Text>, log: seq<Change>)

  function Fresh(initial: Text): History {
    History(Document(initial, [], [], 0), [initial], [])
  }

  function Track(h: History, c: Command): History {
    var x := Execute(h.doc, c);
    match x.change
    case None => h.(doc := x.doc)
    case Some(ch) => History(x.doc, h.texts + [x.doc.text], h.log + [ch])
  }

  function TrackAll(h: History, cs: seq<Command>): History {
    if cs == [] then h else Track(TrackAll(h, cs[..|cs| - 1]), cs[|cs| - 1])
  }

  /** texts[s] is the text at sequence number s, and log[s] the change from s to
      s + 1. */
  ghost predicate Faithful(h: History) {
    && h.doc.seqNo == |h.log| && |h.texts| == |h.log| + 1
    && h.texts[h.doc.seqNo] == h.doc.text
    && Consistent(h.doc, h.texts[0])
    && (forall s :: 0 <= s < |h.log| ==>
          h.log[s].seqNo == s + 1 && Describes(h.log[s], h.texts[s], h.texts[s + 1]))
  }

  lemma TrackFaithful(h: History, c: Command)
    requires Faithful(h)
    ensures Faithful(Track(h, c))
    ensures h.texts <= Track(h, c).texts && h.log <= Track(h, c).log
  {
    hide Consistent, Describes, Execute;
    ExecuteKeeps(h.doc, h.texts[0], c);
  }

  lemma FaithfulConsistent(h: History)
    requires Faithful(h)
    ensures h.texts != [] && Consistent(h.doc, h.texts[0])
  {
  }

  /** Over every run: Seq counts the successful mutations, every text is kept at
      its number, undoing everything gives back the initial text. */
  lemma {:induction false} RunFaithful(initial: Text, cs: seq<Command>)
    ensures var h := TrackAll(Fresh(initial), cs);
      && Faithful(h)
      && h.texts[0] == initial
      && h.doc.seqNo == |h.log|
      && UndoTimes(h.doc, |h.doc.undo|).text == initial
  {
    if cs != [] {
      RunFaithful(initial, cs[..|cs| - 1]);
      TrackFaithful(TrackAll(Fresh(initial), cs[..|cs| - 1]), cs[|cs| - 1]);
    }
    UndoEverything(TrackAll(Fresh(initial), cs).doc, initial);
  }

  // ----- the object -----

  class Buffer {
    var data: Text
    var lineStarts: seq<nat>
    var undoStack: seq<Edit>
    var redoStack: seq<Edit>
    var seqNo: nat
    ghost var history: History

    ghost function Doc(): Document
      reads this
    {
      Document(data, undoStack, redoStack, seqNo)
    }

    ghost predicate Valid()
      reads this
    {
      lineStarts == LineStarts(data) && Faithful(history) && history.doc == Doc()
    }

    constructor (text: Text)
      ensures Valid() && history == Fresh(text)
    {
      data := text;
      lineStarts := [];
      undoStack, redoStack, seqNo := [], [], 0;
      history := Fresh(text);
      new;
      RebuildLineStarts();
    }

    method RebuildLineStarts()
      modifies this`lineStarts
      ensures lineStarts == LineStarts(data)
    {
      lineStarts := [0];
      var i := 0;
      while i < |data|
        invariant 0 <= i <= |data|
        invariant lineStarts == LineStarts(data[..i])
      {
        assert data[..i + 1][..i] == data[..i];
        if data[i] == NL {
          lineStarts := lineStarts + [i + 1];
        }
        i := i + 1;
      }
      assert data[..i] == data;
    }

    method ByteOffset(pos: Position) returns (r: OffsetResult)
      requires Valid()
      ensures r == OffsetOf(data, pos)
    {
      if pos.line < 0 || pos.line >= |lineStarts| {
        return LineOutOfBounds;
      }
      var lineStart := lineStarts[pos.line];
      var lineEnd := LineEndAt(pos.line);
      if pos.column < 0 || pos.column > lineEnd - lineStart {
        return ColumnOutOfBounds;
      }
      return Offset(lineStart + pos.column);
    }

    method LineEndAt(line: nat) returns (end: int)
      requires lineStarts == LineStarts(data) && line < |lineStarts|
      ensures end == LineEnd(lineStarts, |data|, line)
    {
      StartsShape(data);
      if line + 1 < |lineStarts| {
        end := lineStarts[line + 1] - 1;
      } else {
        end := |data|;
      }
    }

    method Lines() returns (n: nat)
      requires Valid()
      ensures n == CountNL(data) + 1
    {
      StartsCount(data);
      return |lineStarts|;
    }

    method TextOfLine(line: int) returns (r: Option<Text>)
      requires Valid()
      ensures r == LineText(data, line)
    {
      StartsShape(data);
      if line < 0 || line >= |lineStarts| {
        return None;
      }
      var start := lineStarts[line];
      var end := LineEndAt(line);
      return Some(data[start..end]);
    }

    method PositionAt(offset: int) returns (r: Option<Position>)
      requires Valid()
      ensures r == if 0 <= offset <= |data| then Some(PosAt(data, offset)) else None
    {
      if offset < 0 || offset > |data| {
        return None;
      }
      var p := SnapshotPosition(lineStarts, offset, data);
      return Some(p);
    }

    method Insert(pos: Position, text: Text) returns (r: Outcome, notified: Option<Change>)
      requires Valid()
      modifies this
      ensures Valid() && history == Track(old(history), Command.Insert(pos, text))
      ensures var x := Execute(old(Doc()), Command.Insert(pos, text));
        Doc() == x.doc && r == x.outcome && notified == x.change
    {
      hide Faithful, Consistent, OffsetOf, LineStarts, PosAt;
      TrackFaithful(history, Command.Insert(pos, text));
      var at := ByteOffset(pos);
      match at
      case LineOutOfBounds => return BadLine, None;
      case ColumnOutOfBounds => return BadColumn, None;
      case Offset(offset) =>
        if text == [] {
          return Applied(Edit(Range(pos, pos), [], [])), None;
        }
        OffsetExact(data, pos, offset);
        history := Track(history, Command.Insert(pos, text));
        data := data[..offset] + text + data[offset..];
        RebuildLineStarts();
        var edit := Edit(Range(pos, pos), [], text);
        undoStack := undoStack + [edit];
        redoStack := [];
        seqNo := seqNo + 1;
        return Applied(edit), Some(Change(InsertKind, edit, seqNo));
    }

    method Delete(range: Range) returns (r: Outcome, notified: Option<Change>)
      requires Valid()
      modifies this
      ensures Valid() && history == Track(old(history), Command.Delete(range))
      ensures var x := Execute(old(Doc()), Command.Delete(range));
        Doc() == x.doc && r == x.outcome && notified == x.change
    {
      hide Faithful, Consistent, OffsetOf, LineStarts, PosAt;
      TrackFaithful(history, Command.Delete(range));
      var n := range.Normalized();
      if n.Empty() {
        return Applied(Edit(n, [], [])), None;
      }
      var s := ByteOffset(n.start);
      match s
      case LineOutOfBounds => return BadLine, None;
      case ColumnOutOfBounds => return BadColumn, None;
      case Offset(startOff) =>
        var e := ByteOffset(n.end);
        match e
        case LineOutOfBounds => return BadLine, None;
        case ColumnOutOfBounds => return BadColumn, None;
        case Offset(endOff) =>
          DeleteBounds(data, n, startOff, endOff);
          history := Track(history, Command.Delete(range));
          var removed := data[startOff..endOff];
          data := data[..startOff] + data[endOff..];
          assert data == Splice(old(data), startOff, endOff, []);
          RebuildLineStarts();
          var edit := Edit(n, removed, []);
          undoStack := undoStack + [edit];
          redoStack := [];
          seqNo := seqNo + 1;
          return Applied(edit), Some(Change(DeleteKind, edit, seqNo));
    }

    /** applyForwardLocked and applyReverseLocked: both replace one text by another
        at a position, and fail only when the position is not in the buffer. */
    method ReplaceAt(start: Position, before: Text, after: Text) returns (ok: bool)
      requires lineStarts == LineStarts(data)
      requires OffsetOf(data, start).Offset? ==> SpliceAt(data, start, before, after).Some?
      modifies this`data, this`lineStarts
      ensures lineStarts == LineStarts(data)
      ensures ok <==> SpliceAt(old(data), start, before, after).Some?
      ensures data == if ok then SpliceAt(old(data), start, before, after).value else old(data)
    {
      if start.line < 0 || start.line >= |lineStarts| {
        return false;
      }
      var lineStart := lineStarts[start.line];
      var lineEnd := if start.line + 1 < |lineStarts| then lineStarts[start.line + 1] - 1 else |data|;
      if start.column < 0 || start.column > lineEnd - lineStart {
        return false;
      }
      var startOff := lineStart + start.column;
      data := data[..startOff] + after + data[startOff + |before|..];
      RebuildLineStarts();
      return true;
    }

    method Undo() returns (r: Outcome, notified: Option<Change>)
      requires Valid()
      modifies this
      ensures Valid() && history == Track(old(history), Command.Undo)
      ensures var x := Execute(old(Doc()), Command.Undo);
        Doc() == x.doc && r == x.outcome && notified == x.change
      ensures r.Applied? <==> old(undoStack) != []
    {
      hide Faithful, Consistent, OffsetOf, LineStarts, PosAt;
      TrackFaithful(history, Command.Undo);
      var n := |undoStack|;
      if n == 0 {
        return NothingToDo, None;
      }
      FaithfulConsistent(history);
      UndoStep(Doc(), history.texts[0]);
      var edit := undoStack[n - 1];
      undoStack := undoStack[..n - 1];
      var ok := ReplaceAt(edit.range.start, edit.inserted, edit.removed);
      assert ok;
      history := Track(history, Command.Undo);
      redoStack := redoStack + [edit];
      seqNo := seqNo + 1;
      return Applied(edit), Some(Change(UndoKind, edit, seqNo));
    }

    method Redo() returns (r: Outcome, notified: Option<Change>)
      requires Valid()
      modifies this
      ensures Valid() && history == Track(old(history), Command.Redo)
      ensures var x := Execute(old(Doc()), Command.Redo);
        Doc() == x.doc && r == x.outcome && notified == x.change
      ensures r.Applied? <==> old(redoStack) != []
    {
      hide Faithful, Consistent, OffsetOf, LineStarts, PosAt;
      TrackFaithful(history, Command.Redo);
      var n := |redoStack|;
      if n == 0 {
        return NothingToDo, None;
      }
      FaithfulConsistent(history);
      RedoStep(Doc(), history.texts[0]);
      var edit := redoStack[n - 1];
      redoStack := redoStack[..n - 1];
      var ok := ReplaceAt(edit.range.start, edit.removed, edit.inserted);
      assert ok;
      history := Track(history, Command.Redo);
      undoStack := undoStack + [edit];
      seqNo := seqNo + 1;
      return Applied(edit), Some(Change(RedoKind, edit, seqNo));
    }
  }
}
