/** Mirroring buffers into the language server (internal/lsp/editor_bridge.go).

    The bridge keeps, per document, the text it believes the server holds (the
    shadow) and the buffer sequence number of that text. A plain insert or delete
    that directly follows is sent as one ranged edit in UTF-16 coordinates;
    everything else resends the full text.

    `World` puts the bridge next to buffers that other goroutines mutate, with
    change events that may arrive late, in any order, repeatedly or never, and a
    handler whose snapshot of a buffer is three separate reads. */
module Replication {
  import opened Texts
  import opened Lines
  import opened Utf8
  import opened LspPositions
  import opened Buffers

  type BufferId = nat
  type Uri = nat

  // ----- the server -----

  datatype Message =
    | DidOpen(uri: Uri, version: nat, text: Text)
    | DidChangeRange(uri: Uri, version: nat, range: LspRange, text: Text)
    | DidChangeFull(uri: Uri, version: nat, text: Text)
    | DidClose(uri: Uri)

  datatype ServerDoc = ServerDoc(version: nat, text: Text)

  /** The server's reading of a position: the offset on that line with that many
      UTF-16 code units between the line's start and it. */
  ghost predicate Denotes(t: Text, p: LspPosition, off: nat) {
    && off <= |t|
    && PosAt(t, off).line == p.line
    && 0 <= PosAt(t, off).column <= off
    && Units(t[off - PosAt(t, off).column..off]) == Some(p.character)
  }

  ghost predicate DenotesRange(t: Text, r: LspRange, s: nat, e: nat) {
    Denotes(t, r.start, s) && Denotes(t, r.end, e) && s <= e
  }

  /** A ranged edit on the server's text; None when the range is not in it. */
  ghost function ServerEdit(t: Text, r: LspRange, w: Text): Option<Text> {
    if exists s: nat, e: nat :: DenotesRange(t, r, s, e) then
      var s: nat, e: nat :| DenotesRange(t, r, s, e);
      Some(Splice(t, s, e, w))
    else None
  }

  ghost function Receive(server: map<Uri, ServerDoc>, m: Message): map<Uri, ServerDoc> {
    match m
    case DidOpen(uri, version, text) => server[uri := ServerDoc(version, text)]
    case DidChangeFull(uri, version, text) =>
      if uri in server then server[uri := ServerDoc(version, text)] else server
    case DidChangeRange(uri, version, range, text) =>
      if uri !in server then server
      else
        (match ServerEdit(server[uri].text, range, text)
         case None => server
         case Some(u) => server[uri := ServerDoc(version, u)])
    case DidClose(uri) => server - {uri}
  }

  lemma DenotesIsConversion(t: Text, p: LspPosition, off: nat)
    ensures Denotes(t, p, off) <==> off <= |t| && ToLsp(t, PosAt(t, off)) == Converted(p)
  {
    hide LineStarts, ToLsp, Runes, OffsetOf;
    if off <= |t| {
      OffsetOfPosAt(t, off);
      PosAtNonNegative(t, off);
      ToLspExact(t, PosAt(t, off));
    }
  }

  lemma DenotesUnique(t: Text, p: LspPosition, a: nat, b: nat)
    requires Denotes(t, p, a) && Denotes(t, p, b)
    ensures a == b
  {
    hide ToLsp, FromLsp, Denotes;
    DenotesIsConversion(t, p, a);
    DenotesIsConversion(t, p, b);
    ConversionsInverse(t, PosAt(t, a), p);
    ConversionsInverse(t, PosAt(t, b), p);
    PosAtOrder(t, a, b);
  }

  /** A range taken from byte offsets is read back as those offsets. */
  lemma ServerEditExact(t: Text, r: LspRange, s: nat, e: nat, w: Text)
    requires s <= e <= |t|
    requires RangeToLsp(t, Range(PosAt(t, s), PosAt(t, e))) == Converted(r)
    ensures ServerEdit(t, r, w) == Some(Splice(t, s, e, w))
  {
    hide ToLsp, Denotes, PosAt;
    DenotesIsConversion(t, r.start, s);
    DenotesIsConversion(t, r.end, e);
    assert DenotesRange(t, r, s, e);
    forall a: nat, b: nat | DenotesRange(t, r, a, b) ensures a == s && b == e {
      DenotesUnique(t, r.start, a, s);
      DenotesUnique(t, r.end, b, e);
    }
  }

  // ----- one ranged edit -----

  datatype Refusal = KindNotRanged | SeqGap | OutsideShadow | ShadowDisagrees | NotConvertible

  datatype Ranged = Event(range: LspRange, text: Text, newShadow: Text) | Refused(why: Refusal)

  ghost function IncrementalChange(shadow: Text, lastSeq: nat, ch: Change): Ranged {
    if !ch.kind.InsertKind? && !ch.kind.DeleteKind? then Refused(KindNotRanged)
    else if ch.seqNo != lastSeq + 1 then Refused(SeqGap)
    else
      var r := ch.edit.range.Normalized();
      match OffsetOf(shadow, r.start)
      case LineOutOfBounds => Refused(OutsideShadow)
      case ColumnOutOfBounds => Refused(OutsideShadow)
      case Offset(s) =>
        match OffsetOf(shadow, r.end)
        case LineOutOfBounds => Refused(OutsideShadow)
        case ColumnOutOfBounds => Refused(OutsideShadow)
        case Offset(e) =>
          if s > e || e > |shadow| || shadow[s..e] != ch.edit.removed then Refused(ShadowDisagrees)
          else match RangeToLsp(shadow, r)
            case Converted(range) => Event(range, ch.edit.inserted, Splice(shadow, s, e, ch.edit.inserted))
            case _ => Refused(NotConvertible)
  }

  /** The heart of the protocol: a plain change taken against the very text it was
      made on is sent as a UTF-16 edit that turns the server's copy of that text into
      the text after the change; the only other outcome is that the text before the
      edit is not valid UTF-8. */
  lemma RangedIsRight(t: Text, u: Text, lastSeq: nat, ch: Change)
    requires Describes(ch, t, u) && ch.seqNo == lastSeq + 1
    requires ch.kind.InsertKind? || ch.kind.DeleteKind?
    ensures match IncrementalChange(t, lastSeq, ch)
      case Refused(why) => why == NotConvertible
      case Event(range, text, newShadow) => newShadow == u && ServerEdit(t, range, text) == Some(u)
  {
    hide OffsetOf, PosAt, RangeToLsp, ServerEdit;
    var a: nat :| DescribesAt(ch, t, u, a);
    var (pre, post) := TextsForChange(ch);
    OffsetOfPosAt(t, a);
    OffsetOfPosAt(t, a + |pre|);
    PosAtOrder(t, a, a + |pre|);
    match RangeToLsp(t, ch.edit.range)
    case Converted(range) => ServerEditExact(t, range, a, a + |pre|, ch.edit.inserted);
    case _ =>
  }

  /** Whatever the change, an event that is sent turns a copy of the shadow into the
      new shadow. */
  lemma EventIsExact(shadow: Text, lastSeq: nat, ch: Change)
    requires IncrementalChange(shadow, lastSeq, ch).Event?
    ensures var e := IncrementalChange(shadow, lastSeq, ch);
      ServerEdit(shadow, e.range, e.text) == Some(e.newShadow)
  {
    hide RangeToLsp, ServerEdit, OffsetOf, PosAt;
    var r := ch.edit.range.Normalized();
    var s, e := OffsetOf(shadow, r.start).off, OffsetOf(shadow, r.end).off;
    OffsetExact(shadow, r.start, s);
    OffsetExact(shadow, r.end, e);
    ServerEditExact(shadow, IncrementalChange(shadow, lastSeq, ch).range, s, e, ch.edit.inserted);
  }

  /** incrementalChange. */
  method ComputeIncremental(shadow: Text, lastSeq: nat, ch: Change) returns (r: Ranged)
    ensures r == IncrementalChange(shadow, lastSeq, ch)
  {
    hide LineStarts, RangeToLsp;
    if !ch.kind.InsertKind? && !ch.kind.DeleteKind? {
      return Refused(KindNotRanged);
    }
    if ch.seqNo != lastSeq + 1 {
      return Refused(SeqGap);
    }
    var rng := ch.edit.range.Normalized();
    var s := ByteOffsetInText(shadow, rng.start);
    if s.OutOfBounds? {
      return Refused(OutsideShadow);
    }
    var e := ByteOffsetInText(shadow, rng.end);
    if e.OutOfBounds? {
      return Refused(OutsideShadow);
    }
    OffsetInText(shadow, rng.end);
    if s.off > e.off || shadow[s.off..e.off] != ch.edit.removed {
      return Refused(ShadowDisagrees);
    }
    var lspRange := RangeFromByteRange(shadow, rng);
    if !lspRange.Converted? {
      return Refused(NotConvertible);
    }
    return Event(lspRange.value, ch.edit.inserted, shadow[..s.off] + ch.edit.inserted + shadow[e.off..]);
  }

  lemma OffsetInText(t: Text, p: Position)
    requires OffsetOf(t, p).Offset?
    ensures OffsetOf(t, p).off <= |t|
  {
    OffsetExact(t, p, OffsetOf(t, p).off);
  }

  // ----- the bridge's state -----

  datatype ManagedDoc = ManagedDoc(uri: Uri, version: nat, shadow: Text, lastSeq: nat)

  /** The tracking maps, next to what the server holds. */
  datatype Mirror = Mirror(docs: map<BufferId, ManagedDoc>, byURI: map<Uri, BufferId>, server: map<Uri, ServerDoc>)

  /** A send that may fail: a failed message never reaches the server. */
  ghost function Send(server: map<Uri, ServerDoc>, m: Message, ok: bool): map<Uri, ServerDoc> {
    if ok then Receive(server, m) else server
  }

  ghost function OpenDocument(b: Mirror, id: BufferId, uri: Uri, text: Text, seqNo: nat, ok: bool): Mirror {
    var byURI := if id in b.docs then b.byURI - {b.docs[id].uri} else b.byURI;
    Mirror(
      b.docs[id := ManagedDoc(uri, 1, text, seqNo)],
      byURI[uri := id],
      Send(b.server, DidOpen(uri, 1, text), ok))
  }

  ghost function CloseDocument(b: Mirror, id: BufferId, ok: bool): Mirror {
    if id !in b.docs then b
    else Mirror(b.docs - {id}, b.byURI - {b.docs[id].uri}, Send(b.server, DidClose(b.docs[id].uri), ok))
  }

  /** sendIncrementalChange: the new state and whether the event went out. */
  ghost function SendIncremental(b: Mirror, id: BufferId, ch: Change, ok: bool): (Mirror, bool)
    requires id in b.docs
  {
    var doc := b.docs[id];
    match IncrementalChange(doc.shadow, doc.lastSeq, ch)
    case Refused(_) => (b, false)
    case Event(range, text, newShadow) =>
      var v := doc.version + 1;
      if ok then
        (Mirror(
           b.docs[id := doc.(version := v, shadow := newShadow, lastSeq := ch.seqNo)],
           b.byURI,
           Send(b.server, DidChangeRange(doc.uri, v, range, text), true)), true)
      else (b.(docs := b.docs[id := doc.(version := v)]), false)
  }

  /** resyncFullText: the shadow is re-anchored even when the send fails. */
  ghost function ResyncFullText(b: Mirror, id: BufferId, text: Text, seqNo: nat, ok: bool): Mirror
    requires id in b.docs
  {
    var doc := b.docs[id];
    var v := doc.version + 1;
    Mirror(
      b.docs[id := doc.(version := v, shadow := text, lastSeq := seqNo)],
      b.byURI,
      Send(b.server, DidChangeFull(doc.uri, v, text), ok))
  }

  // ----- the world -----

  datatype Job = OpenJob(id: BufferId, uri: Uri) | ResyncJob(id: BufferId)

  /** The engine-event goroutine; between events it is idle, otherwise it is inside
      bufferSnapshot for some job. */
  datatype Handler = Idle | Begun(job: Job) | GotSeq(job: Job, seqNo: nat) | GotText(job: Job, seqNo: nat, text: Text)

  /** `adrift` are the documents whose copy on the server may not be the shadow: the
      last full text sent for them was lost, or a message for another document with
      the same URI went out. */
  datatype World = World(
    buffers: map<BufferId, History>, live: set<BufferId>, mirror: Mirror, handler: Handler, adrift: set<BufferId>)

  datatype Step =
    | NewBuffer(id: BufferId, text: Text)
    | Mutate(id: BufferId, command: Command)
    | EngineClose(id: BufferId)
    | HandleOpened(id: BufferId, uri: Uri)
    | HandleClosed(id: BufferId, ok: bool)
    | HandleChanged(id: BufferId, which: nat, incremental: bool, ok: bool)
    | ReadSeq
    | ReadText
    | Confirm(ok: bool)

  /** Other tracked documents with this URI. */
  ghost function SharedBy(b: Mirror, id: BufferId, uri: Uri): set<BufferId> {
    set other | other in b.docs && other != id && b.docs[other].uri == uri
  }

  /** One step of anybody; a step that is not possible changes nothing. */
  ghost function Next(w: World, step: Step): World {
    match step
    case NewBuffer(id, text) =>
      if id in w.buffers then w else w.(buffers := w.buffers[id := Fresh(text)], live := w.live + {id})
    case Mutate(id, c) =>
      if id in w.buffers then w.(buffers := w.buffers[id := Track(w.buffers[id], c)]) else w
    case EngineClose(id) => w.(live := w.live - {id})
    case HandleOpened(id, uri) =>
      if w.handler.Idle? && id in w.live && id in w.buffers then w.(handler := Begun(OpenJob(id, uri))) else w
    case HandleClosed(id, ok) => if w.handler.Idle? && id in w.mirror.docs then Closed(w, id, ok) else w
    case HandleChanged(id, which, incremental, ok) =>
      if Deliverable(w, id, which) then HandleChange(w, id, w.buffers[id].log[which], incremental, ok) else w
    case ReadSeq =>
      if w.handler.Begun? && w.handler.job.id in w.buffers
      then w.(handler := GotSeq(w.handler.job, w.buffers[w.handler.job.id].doc.seqNo)) else w
    case ReadText =>
      if w.handler.GotSeq? && w.handler.job.id in w.buffers
      then w.(handler := GotText(w.handler.job, w.handler.seqNo, w.buffers[w.handler.job.id].doc.text)) else w
    case Confirm(ok) =>
      if w.handler.GotText? && w.handler.job.id in w.buffers then
        if Confirmed(w) then Finish(w, w.handler.job, w.handler.seqNo, w.handler.text, ok)
        else w.(handler := Begun(w.handler.job))
      else w
  }

  ghost predicate Deliverable(w: World, id: BufferId, which: nat) {
    w.handler.Idle? && id in w.mirror.docs && id in w.live && id in w.buffers && which < |w.buffers[id].log|
  }

  /** The third read of a snapshot sees the sequence number of the first. */
  ghost predicate Confirmed(w: World) {
    && w.handler.GotText? && w.handler.job.id in w.buffers
    && w.buffers[w.handler.job.id].doc.seqNo == w.handler.seqNo
  }

  ghost function Closed(w: World, id: BufferId, ok: bool): World
    requires id in w.mirror.docs
  {
    w.(mirror := CloseDocument(w.mirror, id, ok),
       adrift := (w.adrift - {id}) + if ok then SharedBy(w.mirror, id, w.mirror.docs[id].uri) else {})
  }

  ghost function HandleChange(w: World, id: BufferId, ch: Change, incremental: bool, ok: bool): World
    requires id in w.mirror.docs
  {
    var (mirror, sent) := if incremental then SendIncremental(w.mirror, id, ch, ok) else (w.mirror, false);
    w.(mirror := mirror, handler := if sent then Idle else Begun(ResyncJob(id)),
       adrift := w.adrift + if sent then SharedBy(w.mirror, id, w.mirror.docs[id].uri) else {})
  }

  ghost function Finish(w: World, job: Job, seqNo: nat, text: Text, ok: bool): World {
    match job
    case OpenJob(id, uri) =>
      w.(mirror := OpenDocument(w.mirror, id, uri, text, seqNo, ok), handler := Idle,
         adrift := if ok then (w.adrift - {id}) + SharedBy(w.mirror, id, uri) else w.adrift + {id})
    case ResyncJob(id) =>
      if id in w.mirror.docs then
        var uri := w.mirror.docs[id].uri;
        w.(mirror := ResyncFullText(w.mirror, id, text, seqNo, ok), handler := Idle,
           adrift := if ok && uri in w.mirror.server then (w.adrift - {id}) + SharedBy(w.mirror, id, uri) else w.adrift + {id})
      else w.(handler := Idle)
  }

  ghost function Run(w: World, steps: seq<Step>): World {
    if steps == [] then w else Next(Run(w, steps[..|steps| - 1]), steps[|steps| - 1])
  }

  ghost function Empty(): World {
    World(map[], {}, Mirror(map[], map[], map[]), Idle, {})
  }

  // ----- the invariant -----

  ghost predicate Had(h: History, text: Text, seqNo: nat) {
    seqNo < |h.texts| && h.texts[seqNo] == text
  }

  /** The shadow is the buffer's text at sequence number lastSeq. */
  ghost predicate Anchored(w: World, id: BufferId)
    requires id in w.mirror.docs
  {
    id in w.buffers && Had(w.buffers[id], w.mirror.docs[id].shadow, w.mirror.docs[id].lastSeq)
  }

  /** The server holds exactly the shadow. */
  ghost predicate InStep(b: Mirror, id: BufferId)
    requires id in b.docs
  {
    b.docs[id].uri in b.server && b.server[b.docs[id].uri].text == b.docs[id].shadow
  }

  ghost predicate AllInStep(b: Mirror) {
    forall id :: id in b.docs ==> InStep(b, id)
  }

  /** The next version sent is newer than what the server has. */
  ghost predicate Versioned(b: Mirror, id: BufferId)
    requires id in b.docs
  {
    b.docs[id].uri in b.server ==> b.server[b.docs[id].uri].version <= b.docs[id].version
  }

  /** A snapshot under way saw the buffer no earlier than any text already sent. */
  ghost predicate HandlerOk(w: World) {
    match w.handler
    case Idle => true
    case Begun(job) => JobOk(w, job)
    case GotSeq(job, s) => JobOk(w, job) && s <= w.buffers[job.id].doc.seqNo && NoNewer(w, job.id, s)
    case GotText(job, s, text) =>
      && JobOk(w, job) && s <= w.buffers[job.id].doc.seqNo && NoNewer(w, job.id, s)
      && (s == w.buffers[job.id].doc.seqNo ==> text == w.buffers[job.id].doc.text)
  }

  ghost predicate NoNewer(w: World, id: BufferId, s: nat) {
    id in w.mirror.docs ==> w.mirror.docs[id].lastSeq <= s
  }

  ghost predicate JobOk(w: World, job: Job) {
    job.id in w.buffers && (job.ResyncJob? ==> job.id in w.mirror.docs)
  }

  ghost predicate WorldOk(w: World) {
    && (forall id :: id in w.buffers ==> Faithful(w.buffers[id]))
    && (forall id :: id in w.mirror.docs ==> Anchored(w, id))
    && (forall id :: id in w.mirror.docs && id !in w.adrift ==> InStep(w.mirror, id) && Versioned(w.mirror, id))
    && HandlerOk(w)
  }

  lemma FaithfulNow(h: History)
    requires Faithful(h)
    ensures h.doc.seqNo + 1 == |h.texts| && Had(h, h.doc.text, h.doc.seqNo)
  {
  }

  /** The change that takes the buffer from one of its texts to the next. */
  lemma LoggedChange(h: History, which: nat)
    requires Faithful(h) && which < |h.log|
    ensures |h.log| + 1 == |h.texts|
    ensures h.log[which].seqNo == which + 1 && Describes(h.log[which], h.texts[which], h.texts[which + 1])
  {
  }

  lemma TrackExtends(h: History, c: Command)
    requires Faithful(h)
    ensures var n := Track(h, c);
      && Faithful(n) && h.texts <= n.texts && h.doc.seqNo <= n.doc.seqNo
      && (n.doc.seqNo == h.doc.seqNo ==> n.doc.text == h.doc.text)
  {
    hide Faithful, Execute, Consistent;
    TrackFaithful(h, c);
    FaithfulNow(h);
    FaithfulNow(Track(h, c));
  }

  lemma MutateKeeps(w: World, id: BufferId, c: Command)
    requires WorldOk(w)
    ensures WorldOk(Next(w, Mutate(id, c)))
  {
    hide Faithful, Track, InStep, Versioned;
    if id in w.buffers {
      TrackExtends(w.buffers[id], c);
    }
  }

  /** A message for one document leaves the server's other documents alone. */
  lemma ReceiveOther(server: map<Uri, ServerDoc>, m: Message, uri: Uri)
    requires uri != m.uri
    ensures uri in Receive(server, m) <==> uri in server
    ensures uri in server ==> Receive(server, m)[uri] == server[uri]
  {
    hide ServerEdit;
  }

  lemma OthersUnmoved(b: Mirror, c: Mirror, id: BufferId, m: Message, ok: bool)
    requires c.server == Send(b.server, m, ok)
    requires forall other :: other in c.docs && other != id ==> other in b.docs && c.docs[other] == b.docs[other]
    ensures forall other :: other in c.docs && other != id && (ok ==> b.docs[other].uri != m.uri) ==>
      (InStep(c, other) <==> InStep(b, other)) && (Versioned(c, other) <==> Versioned(b, other))
  {
    hide Receive;
    forall other | other in c.docs && other != id && (ok ==> b.docs[other].uri != m.uri)
      ensures (InStep(c, other) <==> InStep(b, other)) && (Versioned(c, other) <==> Versioned(b, other))
    {
      if ok {
        ReceiveOther(b.server, m, b.docs[other].uri);
      }
    }
  }

  lemma CloseKeeps(w: World, id: BufferId, ok: bool)
    requires WorldOk(w) && w.handler.Idle? && id in w.mirror.docs
    ensures WorldOk(Closed(w, id, ok))
  {
    hide Faithful, Had, InStep, Versioned, Receive;
    var b := w.mirror;
    OthersUnmoved(b, CloseDocument(b, id, ok), id, DidClose(b.docs[id].uri), ok);
  }

  /** A delivered change either goes out as the right ranged edit or starts a resync. */
  lemma ChangeKeeps(w: World, id: BufferId, which: nat, incremental: bool, ok: bool)
    requires WorldOk(w) && Deliverable(w, id, which)
    ensures WorldOk(HandleChange(w, id, w.buffers[id].log[which], incremental, ok))
  {
    hide Faithful, IncrementalChange, ServerEdit, Describes, Versioned;
    var h, doc := w.buffers[id], w.mirror.docs[id];
    var ch := h.log[which];
    LoggedChange(h, which);
    match IncrementalChange(doc.shadow, doc.lastSeq, ch)
    case Refused(_) =>
    case Event(range, text, newShadow) =>
      EventFollows(doc.shadow, doc.lastSeq, ch);
      RangedIsRight(h.texts[which], h.texts[which + 1], doc.lastSeq, ch);
      var v := doc.version + 1;
      if incremental && ok {
        var next := doc.(version := v, shadow := newShadow, lastSeq := ch.seqNo);
        assert id !in w.adrift ==> Versioned(w.mirror, id);
        EditInStep(w.mirror, id, ch);
        SentKeeps(w, id, next, DidChangeRange(doc.uri, v, range, text));
      } else if incremental {
        VersionBump(w, id);
      }
  }

  /** A ranged edit that goes out takes a document in step to the new shadow. */
  lemma EditInStep(b: Mirror, id: BufferId, ch: Change)
    requires id in b.docs && IncrementalChange(b.docs[id].shadow, b.docs[id].lastSeq, ch).Event?
    ensures var c := SendIncremental(b, id, ch, true).0;
      && (InStep(b, id) ==> InStep(c, id)) && (InStep(b, id) && Versioned(b, id) ==> Versioned(c, id))
  {
    hide IncrementalChange, ServerEdit;
    EventIsExact(b.docs[id].shadow, b.docs[id].lastSeq, ch);
  }

  lemma VersionBump(w: World, id: BufferId)
    requires WorldOk(w) && w.handler.Idle? && id in w.mirror.docs
    ensures var doc := w.mirror.docs[id];
      WorldOk(w.(mirror := w.mirror.(docs := w.mirror.docs[id := doc.(version := doc.version + 1)]),
                 handler := Begun(ResyncJob(id)), adrift := w.adrift + {}))
  {
    hide Faithful, Had;
    assert w.adrift + {} == w.adrift;
  }

  /** Sending one message for a document and updating its record accordingly. */
  lemma SentKeeps(w: World, id: BufferId, next: ManagedDoc, m: Message)
    requires WorldOk(w) && w.handler.Idle? && id in w.mirror.docs && next.uri == w.mirror.docs[id].uri == m.uri
    requires Had(w.buffers[id], next.shadow, next.lastSeq)
    requires var c := w.mirror.(docs := w.mirror.docs[id := next], server := Receive(w.mirror.server, m));
      id !in w.adrift ==> InStep(c, id) && Versioned(c, id)
    ensures WorldOk(w.(mirror := w.mirror.(docs := w.mirror.docs[id := next], server := Receive(w.mirror.server, m)),
                       adrift := w.adrift + SharedBy(w.mirror, id, m.uri)))
  {
    hide Faithful, Receive, InStep, Versioned, Had;
    var b := w.mirror;
    var c := b.(docs := b.docs[id := next], server := Receive(b.server, m));
    OthersUnmoved(b, c, id, m, true);
  }

  lemma EventFollows(shadow: Text, lastSeq: nat, ch: Change)
    requires IncrementalChange(shadow, lastSeq, ch).Event?
    ensures ch.seqNo == lastSeq + 1 && (ch.kind.InsertKind? || ch.kind.DeleteKind?)
  {
    hide OffsetOf, RangeToLsp;
  }

  lemma FinishOpenKeeps(w: World, id: BufferId, uri: Uri, seqNo: nat, text: Text, ok: bool)
    requires WorldOk(w) && id in w.buffers && Had(w.buffers[id], text, seqNo)
    ensures WorldOk(Finish(w, OpenJob(id, uri), seqNo, text, ok))
  {
    hide Faithful, Had, InStep, Versioned;
    var b := w.mirror;
    var c := OpenDocument(b, id, uri, text, seqNo, ok);
    OthersUnmoved(b, c, id, DidOpen(uri, 1, text), ok);
    assert ok ==> InStep(c, id) && Versioned(c, id) by { OpenedInStep(b, id, uri, text, seqNo); }
  }

  lemma OpenedInStep(b: Mirror, id: BufferId, uri: Uri, text: Text, seqNo: nat)
    ensures var c := OpenDocument(b, id, uri, text, seqNo, true); InStep(c, id) && Versioned(c, id)
  {
  }

  lemma FinishResyncKeeps(w: World, id: BufferId, seqNo: nat, text: Text, ok: bool)
    requires WorldOk(w) && id in w.buffers && Had(w.buffers[id], text, seqNo)
    requires id in w.mirror.docs
    ensures WorldOk(Finish(w, ResyncJob(id), seqNo, text, ok))
  {
    hide Faithful, Had, InStep, Versioned;
    var b := w.mirror;
    var doc := b.docs[id];
    var c := ResyncFullText(b, id, text, seqNo, ok);
    OthersUnmoved(b, c, id, DidChangeFull(doc.uri, doc.version + 1, text), ok);
    ResyncedInStep(b, id, text, seqNo, ok);
    InStepIsOpen(b, doc.uri);
  }

  lemma InStepIsOpen(b: Mirror, uri: Uri)
    ensures forall id :: id in b.docs && b.docs[id].uri == uri && InStep(b, id) ==> uri in b.server
  {
  }

  lemma ResyncedInStep(b: Mirror, id: BufferId, text: Text, seqNo: nat, ok: bool)
    requires id in b.docs
    ensures ok && b.docs[id].uri in b.server ==>
      var c := ResyncFullText(b, id, text, seqNo, ok); InStep(c, id) && Versioned(c, id)
  {
  }

  /** What the third read of bufferSnapshot confirms is a text the buffer really had
      at that sequence number. */
  lemma SnapshotConfirmed(w: World)
    requires WorldOk(w) && Confirmed(w)
    ensures Had(w.buffers[w.handler.job.id], w.handler.text, w.handler.seqNo)
  {
    hide Faithful, InStep, Versioned;
    FaithfulNow(w.buffers[w.handler.job.id]);
  }

  lemma NextKeeps(w: World, step: Step)
    requires WorldOk(w)
    ensures WorldOk(Next(w, step))
  {
    hide Faithful, Finish, Closed, HandleChange, Track, InStep, Versioned, Had, Consistent;
    match step
    case NewBuffer(id, text) =>
      FreshFaithful(text);
      if id !in w.buffers { FreshAnchors(w, id, text); }
    case Mutate(id, c) => MutateKeeps(w, id, c);
    case EngineClose(id) =>
    case HandleOpened(id, uri) =>
    case HandleClosed(id, ok) => if w.handler.Idle? && id in w.mirror.docs { CloseKeeps(w, id, ok); }
    case HandleChanged(id, which, incremental, ok) =>
      if Deliverable(w, id, which) { ChangeKeeps(w, id, which, incremental, ok); }
    case ReadSeq =>
      if w.handler.Begun? && w.handler.job.id in w.buffers {
        LastSeqBelow(w, w.handler.job.id);
      }
    case ReadText =>
    case Confirm(ok) =>
      if Confirmed(w) {
        SnapshotConfirmed(w);
        match w.handler.job
        case OpenJob(id, uri) => FinishOpenKeeps(w, id, uri, w.handler.seqNo, w.handler.text, ok);
        case ResyncJob(id) => FinishResyncKeeps(w, id, w.handler.seqNo, w.handler.text, ok);
      }
  }

  lemma FreshFaithful(text: Text)
    ensures Faithful(Fresh(text))
  {
    RunFaithful(text, []);
  }

  lemma FreshAnchors(w: World, id: BufferId, text: Text)
    requires WorldOk(w) && id !in w.buffers
    ensures id !in w.mirror.docs
  {
    hide Faithful, InStep, Versioned;
  }

  lemma LastSeqBelow(w: World, id: BufferId)
    requires WorldOk(w) && id in w.buffers
    ensures NoNewer(w, id, w.buffers[id].doc.seqNo)
  {
    hide Faithful, InStep, Versioned;
    FaithfulNow(w.buffers[id]);
  }

  lemma {:induction false} RunKeeps(w: World, steps: seq<Step>)
    requires WorldOk(w)
    ensures WorldOk(Run(w, steps))
  {
    hide WorldOk;
    if steps != [] {
      RunKeeps(w, steps[..|steps| - 1]);
      NextKeeps(Run(w, steps[..|steps| - 1]), steps[|steps| - 1]);
    }
  }

  lemma EmptyOk()
    ensures WorldOk(Empty()) && AllInStep(Empty().mirror)
  {
  }

  // ----- safety -----

  /** Replication safety. Whatever the interleaving, and however events are delayed,
      reordered, repeated or lost: the shadow of every tracked document is the
      buffer's text at lastSeq, and the server's copy is the shadow unless the
      document is adrift. So the server never holds a text the buffer never had. */
  lemma ReplicationSafe(steps: seq<Step>, id: BufferId)
    ensures var w := Run(Empty(), steps);
      id in w.mirror.docs ==>
        var doc := w.mirror.docs[id];
        && id in w.buffers && Had(w.buffers[id], doc.shadow, doc.lastSeq)
        && (id !in w.adrift ==>
              && doc.uri in w.mirror.server && w.mirror.server[doc.uri].text == doc.shadow
              && w.mirror.server[doc.uri].version <= doc.version)
  {
    hide Faithful;
    EmptyOk();
    RunKeeps(Empty(), steps);
  }

  /** The "shadow disagrees" and out-of-bounds refusals never happen. */
  lemma ShadowNeverDisagrees(w: World, id: BufferId, which: nat)
    requires WorldOk(w) && id in w.mirror.docs && which < |w.buffers[id].log|
    ensures var doc := w.mirror.docs[id];
      var r := IncrementalChange(doc.shadow, doc.lastSeq, w.buffers[id].log[which]);
      r.Refused? ==> r.why in {KindNotRanged, SeqGap, NotConvertible}
  {
    hide Faithful, IncrementalChange, ServerEdit, Describes;
    var h, doc := w.buffers[id], w.mirror.docs[id];
    LoggedChange(h, which);
    var ch := h.log[which];
    if ch.seqNo == doc.lastSeq + 1 && (ch.kind.InsertKind? || ch.kind.DeleteKind?) {
      RangedIsRight(h.texts[which], h.texts[which + 1], doc.lastSeq, ch);
    } else {
      RefusedEarly(doc.shadow, doc.lastSeq, ch);
    }
  }

  lemma RefusedEarly(shadow: Text, lastSeq: nat, ch: Change)
    requires ch.seqNo != lastSeq + 1 || ch.kind.UndoKind? || ch.kind.RedoKind?
    ensures var r := IncrementalChange(shadow, lastSeq, ch);
      r == Refused(KindNotRanged) || r == Refused(SeqGap)
  {
    hide OffsetOf, RangeToLsp;
  }

  lemma LastSeqStep(w: World, step: Step, id: BufferId)
    requires WorldOk(w) && id in w.mirror.docs && id in Next(w, step).mirror.docs
    ensures w.mirror.docs[id].lastSeq <= Next(w, step).mirror.docs[id].lastSeq
  {
    hide Faithful, Track, IncrementalChange, Receive, Anchored, InStep, Versioned;
    match step
    case HandleChanged(other, which, incremental, ok) =>
      if Deliverable(w, other, which) {
        var doc := w.mirror.docs[other];
        var ch := w.buffers[other].log[which];
        if IncrementalChange(doc.shadow, doc.lastSeq, ch).Event? {
          EventFollows(doc.shadow, doc.lastSeq, ch);
        }
      }
    case _ =>
  }

  /** The document is tracked all along a run. */
  ghost predicate StaysOpen(w: World, steps: seq<Step>, id: BufferId) {
    forall k :: 0 <= k <= |steps| ==> id in Run(w, steps[..k]).mirror.docs
  }

  /** While a document stays open its lastSeq never decreases. */
  lemma {:induction false} LastSeqMonotone(w: World, steps: seq<Step>, id: BufferId)
    requires WorldOk(w) && StaysOpen(w, steps, id)
    ensures id in w.mirror.docs && id in Run(w, steps).mirror.docs
    ensures w.mirror.docs[id].lastSeq <= Run(w, steps).mirror.docs[id].lastSeq
  {
    hide Next, WorldOk;
    assert steps[..0] == [] && steps[..|steps|] == steps;
    if steps != [] {
      var front := steps[..|steps| - 1];
      forall k | 0 <= k <= |front| ensures id in Run(w, front[..k]).mirror.docs {
        assert front[..k] == steps[..k];
      }
      LastSeqMonotone(w, front, id);
      RunKeeps(w, front);
      LastSeqStep(Run(w, front), steps[|steps| - 1], id);
    }
  }

  // ----- exactly when the server falls out of step -----

  /** The step takes some document out of step. A change or a resync does it when what
      it sends is news and either is lost or reaches a URI that another document has
      as well; an open when the text is lost and the server holds another, or when
      another document with that URI has a different shadow; a close when another
      document needs the URI. */
  ghost predicate Losing(w: World, step: Step) {
    match step
    case HandleClosed(id, ok) =>
      ok && w.handler.Idle? && id in w.mirror.docs && SharedBy(w.mirror, id, w.mirror.docs[id].uri) != {}
    case HandleChanged(id, which, incremental, ok) =>
      Deliverable(w, id, which) && incremental && ok && LosingChange(w.mirror, id, w.buffers[id].log[which])
    case Confirm(ok) => Confirmed(w) && LosingText(w.mirror, w.handler.job, w.handler.text, ok)
    case _ => false
  }

  ghost predicate LosingChange(b: Mirror, id: BufferId, ch: Change)
    requires id in b.docs
  {
    var doc := b.docs[id];
    var r := IncrementalChange(doc.shadow, doc.lastSeq, ch);
    r.Event? && r.newShadow != doc.shadow && SharedBy(b, id, doc.uri) != {}
  }

  ghost predicate LosingText(b: Mirror, job: Job, text: Text, ok: bool) {
    match job
    case OpenJob(id, uri) =>
      if ok then exists other :: other in SharedBy(b, id, uri) && b.docs[other].shadow != text
      else !(uri in b.server && b.server[uri].text == text)
    case ResyncJob(id) =>
      id in b.docs && text != b.docs[id].shadow && (!ok || SharedBy(b, id, b.docs[id].uri) != {})
  }

  lemma CloseExactly(b: Mirror, id: BufferId, ok: bool)
    requires AllInStep(b) && id in b.docs
    ensures AllInStep(CloseDocument(b, id, ok)) <==> !(ok && SharedBy(b, id, b.docs[id].uri) != {})
  {
    var c := CloseDocument(b, id, ok);
    forall other | other in c.docs ensures InStep(c, other) <==> !(ok && other in SharedBy(b, id, b.docs[id].uri)) {
      assert InStep(b, other);
    }
  }

  lemma ChangeExactly(b: Mirror, id: BufferId, ch: Change, ok: bool)
    requires AllInStep(b) && id in b.docs
    ensures AllInStep(SendIncremental(b, id, ch, ok).0) <==> !(ok && LosingChange(b, id, ch))
  {
    hide IncrementalChange, ServerEdit;
    var doc := b.docs[id];
    var r := IncrementalChange(doc.shadow, doc.lastSeq, ch);
    var c := SendIncremental(b, id, ch, ok).0;
    assert InStep(b, id);
    if r.Event? {
      EventIsExact(doc.shadow, doc.lastSeq, ch);
    }
    forall other | other in c.docs
      ensures InStep(c, other) <==>
        !(ok && r.Event? && other in SharedBy(b, id, doc.uri) && r.newShadow != doc.shadow)
    {
      assert InStep(b, other);
    }
  }

  lemma OpenExactly(b: Mirror, id: BufferId, uri: Uri, text: Text, seqNo: nat, ok: bool)
    requires AllInStep(b)
    ensures AllInStep(OpenDocument(b, id, uri, text, seqNo, ok)) <==> !LosingText(b, OpenJob(id, uri), text, ok)
  {
    var c := OpenDocument(b, id, uri, text, seqNo, ok);
    forall other | other in c.docs
      ensures InStep(c, other) <==>
        if other == id then ok || (uri in b.server && b.server[uri].text == text)
        else !(ok && other in SharedBy(b, id, uri) && b.docs[other].shadow != text)
    {
      if other != id {
        assert InStep(b, other);
      }
    }
    assert id in c.docs;
  }

  lemma ResyncExactly(b: Mirror, id: BufferId, text: Text, seqNo: nat, ok: bool)
    requires AllInStep(b) && id in b.docs
    ensures AllInStep(ResyncFullText(b, id, text, seqNo, ok)) <==> !LosingText(b, ResyncJob(id), text, ok)
  {
    var c := ResyncFullText(b, id, text, seqNo, ok);
    assert InStep(b, id);
    forall other | other in c.docs
      ensures InStep(c, other) <==>
        if other == id then ok || text == b.docs[id].shadow
        else !(ok && other in SharedBy(b, id, b.docs[id].uri) && text != b.docs[id].shadow)
    {
      if other != id {
        assert InStep(b, other);
      }
    }
    assert id in c.docs;
  }

  /** From a state with every document in step, a step leaves every document in step
      if and only if it is not a losing one. */
  lemma StepExactly(w: World, step: Step)
    requires WorldOk(w) && AllInStep(w.mirror)
    ensures AllInStep(Next(w, step).mirror) <==> !Losing(w, step)
  {
    hide WorldOk, AllInStep, CloseDocument, SendIncremental, OpenDocument, ResyncFullText, LosingChange, LosingText, Track;
    match step
    case HandleClosed(id, ok) => if w.handler.Idle? && id in w.mirror.docs { CloseExactly(w.mirror, id, ok); }
    case HandleChanged(id, which, incremental, ok) =>
      if Deliverable(w, id, which) { ChangeExactly(w.mirror, id, w.buffers[id].log[which], ok); }
    case Confirm(ok) =>
      if Confirmed(w) {
        match w.handler.job
        case OpenJob(id, uri) => OpenExactly(w.mirror, id, uri, w.handler.text, w.handler.seqNo, ok);
        case ResyncJob(id) =>
          JobTracked(w);
          ResyncExactly(w.mirror, id, w.handler.text, w.handler.seqNo, ok);
      }
    case _ =>
  }

  lemma JobTracked(w: World)
    requires WorldOk(w) && !w.handler.Idle?
    ensures w.handler.job.ResyncJob? ==> w.handler.job.id in w.mirror.docs
  {
    hide Faithful, InStep, Versioned, Anchored;
  }

  ghost predicate AlwaysInStep(steps: seq<Step>) {
    forall k :: 0 <= k <= |steps| ==> AllInStep(Run(Empty(), steps[..k]).mirror)
  }

  ghost predicate NeverLosing(steps: seq<Step>) {
    forall k :: 0 <= k < |steps| ==> !Losing(Run(Empty(), steps[..k]), steps[k])
  }

  /** Over whole runs, shared URIs and failing sends included: the server's copies are
      the shadows, so texts the buffers had, at every moment if and only if no step of
      the run is a losing one. */
  lemma {:induction false} RunExactly(steps: seq<Step>)
    ensures AlwaysInStep(steps) <==> NeverLosing(steps)
  {
    hide WorldOk, AllInStep, Losing, Next, Run;
    if steps == [] {
      EmptyOk();
      assert Run(Empty(), []) == Empty() by { RunNothing(Empty()); }
      assert forall k :: 0 <= k <= 0 ==> steps[..k] == [];
    } else {
      var front, last := steps[..|steps| - 1], steps[|steps| - 1];
      var w := Run(Empty(), front);
      RunExactly(front);
      EmptyOk();
      RunKeeps(Empty(), front);
      RunSnoc(Empty(), front, last);
      assert front + [last] == steps;
      assert forall k :: 0 <= k <= |front| ==> front[..k] == steps[..k];
      assert steps[..|steps|] == steps && front[..|front|] == front;
      if AllInStep(w.mirror) {
        StepExactly(w, last);
      }
      PrefixInStep(front, steps);
    }
  }

  lemma PrefixInStep(front: seq<Step>, steps: seq<Step>)
    requires |steps| == |front| + 1 && front == steps[..|front|]
    ensures AlwaysInStep(steps) <==> AlwaysInStep(front) && AllInStep(Run(Empty(), steps).mirror)
    ensures NeverLosing(steps) <==> NeverLosing(front) && !Losing(Run(Empty(), front), steps[|front|])
  {
    hide Run, AllInStep, Losing;
    assert steps[..|steps|] == steps && steps[..|front|] == front;
    assert forall k :: 0 <= k <= |front| ==> front[..k] == steps[..k];
    if AlwaysInStep(steps) {
      forall k | 0 <= k <= |front| ensures AllInStep(Run(Empty(), front[..k]).mirror) {
        assert AllInStep(Run(Empty(), steps[..k]).mirror);
      }
    }
    if NeverLosing(steps) {
      forall k | 0 <= k < |front| ensures !Losing(Run(Empty(), front[..k]), front[k]) {
        assert !Losing(Run(Empty(), steps[..k]), steps[k]);
      }
    }
    if AlwaysInStep(front) && AllInStep(Run(Empty(), steps).mirror) {
      forall k | 0 <= k <= |steps| ensures AllInStep(Run(Empty(), steps[..k]).mirror) {
        if k <= |front| {
          assert AllInStep(Run(Empty(), front[..k]).mirror);
        }
      }
    }
    if NeverLosing(front) && !Losing(Run(Empty(), front), steps[|front|]) {
      forall k | 0 <= k < |steps| ensures !Losing(Run(Empty(), steps[..k]), steps[k]) {
        if k < |front| {
          assert !Losing(Run(Empty(), front[..k]), front[k]);
        }
      }
    }
  }

  lemma RunNothing(w: World)
    ensures Run(w, []) == w
  {
  }

  // ----- documents with URIs of their own -----

  /** The two tracking maps are inverse: in particular no URI is shared. */
  ghost predicate MapsAgree(b: Mirror) {
    && (forall id :: id in b.docs ==> b.docs[id].uri in b.byURI && b.byURI[b.docs[id].uri] == id)
    && (forall uri :: uri in b.byURI ==> b.byURI[uri] in b.docs && b.docs[b.byURI[uri]].uri == uri)
  }

  /** No other tracked document has the URI. */
  ghost predicate FreeFor(b: Mirror, id: BufferId, uri: Uri) {
    SharedBy(b, id, uri) == {}
  }

  /** An open under a URI that another document has. */
  ghost predicate Collides(w: World, step: Step) {
    step.HandleOpened? && !FreeFor(w.mirror, step.id, step.uri)
  }

  ghost predicate Unshared(w: World) {
    && MapsAgree(w.mirror)
    && (!w.handler.Idle? && w.handler.job.OpenJob? ==> FreeFor(w.mirror, w.handler.job.id, w.handler.job.uri))
  }

  lemma NobodyShares(b: Mirror, id: BufferId)
    requires MapsAgree(b) && id in b.docs
    ensures SharedBy(b, id, b.docs[id].uri) == {}
  {
    assert forall other :: other in b.docs && b.docs[other].uri == b.docs[id].uri ==> other == b.byURI[b.docs[id].uri];
  }

  /** An open keeps the maps inverse exactly when the URI is free. */
  lemma OpenKeepsMapsExactly(b: Mirror, id: BufferId, uri: Uri, text: Text, seqNo: nat, ok: bool)
    requires MapsAgree(b)
    ensures MapsAgree(OpenDocument(b, id, uri, text, seqNo, ok)) <==> FreeFor(b, id, uri)
  {
    hide Receive;
    var c := OpenDocument(b, id, uri, text, seqNo, ok);
    if FreeFor(b, id, uri) {
      forall other | other in b.docs && other != id ensures b.docs[other].uri != uri {
        assert other !in SharedBy(b, id, uri);
      }
    } else {
      var other :| other in SharedBy(b, id, uri);
      assert other in c.docs && c.docs[other].uri == uri && c.byURI[uri] == id;
    }
  }

  lemma CloseMaps(b: Mirror, id: BufferId, ok: bool)
    requires MapsAgree(b)
    ensures MapsAgree(CloseDocument(b, id, ok))
  {
    hide Receive;
  }

  lemma SameUriMaps(b: Mirror, id: BufferId, doc: ManagedDoc, server: map<Uri, ServerDoc>)
    requires MapsAgree(b) && id in b.docs && doc.uri == b.docs[id].uri
    ensures MapsAgree(b.(docs := b.docs[id := doc], server := server))
  {
  }

  lemma ChangeMaps(b: Mirror, id: BufferId, ch: Change, ok: bool)
    requires MapsAgree(b) && id in b.docs
    ensures MapsAgree(SendIncremental(b, id, ch, ok).0)
  {
    hide MapsAgree, IncrementalChange, Receive;
    var c := SendIncremental(b, id, ch, ok).0;
    SameUriMaps(b, id, c.docs[id], c.server);
    if c != b {
      assert c == b.(docs := b.docs[id := c.docs[id]], server := c.server);
    }
  }

  lemma ResyncMaps(b: Mirror, id: BufferId, text: Text, seqNo: nat, ok: bool)
    requires MapsAgree(b) && id in b.docs
    ensures MapsAgree(ResyncFullText(b, id, text, seqNo, ok))
  {
    hide MapsAgree, Receive;
    var c := ResyncFullText(b, id, text, seqNo, ok);
    SameUriMaps(b, id, c.docs[id], c.server);
  }

  lemma UnsharedStep(w: World, step: Step)
    requires Unshared(w) && !Collides(w, step)
    ensures Unshared(Next(w, step))
  {
    hide MapsAgree, CloseDocument, SendIncremental, OpenDocument, ResyncFullText, Track, SharedBy;
    match step
    case HandleClosed(id, ok) => CloseMaps(w.mirror, id, ok);
    case HandleChanged(id, which, incremental, ok) =>
      if Deliverable(w, id, which) { ChangeMaps(w.mirror, id, w.buffers[id].log[which], ok); }
    case Confirm(ok) =>
      if Confirmed(w) {
        match w.handler.job
        case OpenJob(id, uri) => OpenKeepsMapsExactly(w.mirror, id, uri, w.handler.text, w.handler.seqNo, ok);
        case ResyncJob(id) =>
          if id in w.mirror.docs { ResyncMaps(w.mirror, id, w.handler.text, w.handler.seqNo, ok); }
      }
    case _ =>
  }

  ghost predicate NoCollision(steps: seq<Step>) {
    forall k :: 0 <= k < |steps| ==> !Collides(Run(Empty(), steps[..k]), steps[k])
  }

  lemma NoCollisionFront(steps: seq<Step>)
    requires steps != [] && NoCollision(steps)
    ensures var front := steps[..|steps| - 1];
      NoCollision(front) && !Collides(Run(Empty(), front), steps[|steps| - 1])
  {
    hide Run, Collides;
    var front := steps[..|steps| - 1];
    forall k | 0 <= k < |front| ensures !Collides(Run(Empty(), front[..k]), front[k]) {
      assert front[..k] == steps[..k];
      assert !Collides(Run(Empty(), steps[..k]), steps[k]);
    }
  }

  /** While nobody opens a document under a taken URI, the tracking maps are inverse. */
  lemma {:induction false} UnsharedRun(steps: seq<Step>)
    requires NoCollision(steps)
    ensures Unshared(Run(Empty(), steps))
  {
    hide Next, Collides, NoCollision;
    if steps != [] {
      NoCollisionFront(steps);
      UnsharedRun(steps[..|steps| - 1]);
      UnsharedStep(Run(Empty(), steps[..|steps| - 1]), steps[|steps| - 1]);
    }
  }

  /** A full text is lost: a resync whose text differs from the shadow, or an open the
      server does not happen to show already. */
  ghost predicate LosesText(w: World, step: Step) {
    step == Confirm(false) && Confirmed(w) &&
    match w.handler.job
    case OpenJob(id, uri) => !(uri in w.mirror.server && w.mirror.server[uri].text == w.handler.text)
    case ResyncJob(id) => id in w.mirror.docs && w.handler.text != w.mirror.docs[id].shadow
  }

  /** With URIs of their own, documents fall out of step through lost full texts and
      through nothing else. */
  lemma OnlyLostTexts(w: World, step: Step)
    requires Unshared(w)
    ensures Losing(w, step) <==> LosesText(w, step)
  {
    hide MapsAgree, IncrementalChange, SharedBy;
    match step
    case HandleClosed(id, ok) => if id in w.mirror.docs { NobodyShares(w.mirror, id); }
    case HandleChanged(id, which, incremental, ok) => if id in w.mirror.docs { NobodyShares(w.mirror, id); }
    case Confirm(ok) =>
      if Confirmed(w) && w.handler.job.ResyncJob? && w.handler.job.id in w.mirror.docs {
        NobodyShares(w.mirror, w.handler.job.id);
      }
    case _ =>
  }

  lemma NoCollisionPrefix(steps: seq<Step>, k: nat)
    requires NoCollision(steps) && k <= |steps|
    ensures NoCollision(steps[..k])
  {
    hide Run, Collides;
    forall j | 0 <= j < k ensures !Collides(Run(Empty(), steps[..k][..j]), steps[..k][j]) {
      assert steps[..k][..j] == steps[..j];
    }
  }

  ghost predicate NeverLosesText(steps: seq<Step>) {
    forall k :: 0 <= k < |steps| ==> !LosesText(Run(Empty(), steps[..k]), steps[k])
  }

  /** So over every run in which no URI is shared, the server's copies are the shadows at
      every moment if and only if no full text is ever lost. */
  lemma UnsharedRunExactly(steps: seq<Step>)
    requires NoCollision(steps)
    ensures AlwaysInStep(steps) <==> NeverLosesText(steps)
  {
    hide AlwaysInStep, NoCollision, Losing, LosesText, Run, Unshared;
    RunExactly(steps);
    forall k | 0 <= k < |steps|
      ensures Losing(Run(Empty(), steps[..k]), steps[k]) <==> LosesText(Run(Empty(), steps[..k]), steps[k])
    {
      NoCollisionPrefix(steps, k);
      UnsharedRun(steps[..k]);
      OnlyLostTexts(Run(Empty(), steps[..k]), steps[k]);
    }
  }

  ghost predicate TextsSent(steps: seq<Step>) {
    forall i :: 0 <= i < |steps| && steps[i].Confirm? ==> steps[i].ok
  }

  /** When no full-text send fails and no URI is shared, no document is ever adrift. */
  lemma {:induction false} NothingAdrift(steps: seq<Step>)
    requires TextsSent(steps) && NoCollision(steps)
    ensures Run(Empty(), steps).adrift == {}
  {
    hide WorldOk, Next, Collides, NoCollision, Unshared;
    if steps != [] {
      var front := steps[..|steps| - 1];
      NoCollisionFront(steps);
      NothingAdrift(front);
      UnsharedRun(front);
      EmptyOk();
      RunKeeps(Empty(), front);
      OneStepAdrift(Run(Empty(), front), steps[|steps| - 1]);
    }
  }

  lemma OneStepAdrift(w: World, step: Step)
    requires WorldOk(w) && Unshared(w) && w.adrift == {}
    requires step.Confirm? ==> step.ok
    ensures Next(w, step).adrift == {}
  {
    hide Faithful, MapsAgree, OpenDocument, ResyncFullText, CloseDocument, SendIncremental, Track, Anchored, SharedBy;
    match step
    case HandleClosed(id, ok) => if id in w.mirror.docs { NobodyShares(w.mirror, id); }
    case HandleChanged(id, which, incremental, ok) => if id in w.mirror.docs { NobodyShares(w.mirror, id); }
    case Confirm(ok) =>
      if Confirmed(w) && w.handler.job.ResyncJob? {
        assert InStep(w.mirror, w.handler.job.id);
        NobodyShares(w.mirror, w.handler.job.id);
      }
    case _ =>
  }

  // ----- versions -----

  /** The message of a change that is sent, whether or not it arrives: one version above
      the record's, which becomes the record's. */
  lemma RangedMessage(b: Mirror, id: BufferId, ch: Change, ok: bool)
    requires id in b.docs && IncrementalChange(b.docs[id].shadow, b.docs[id].lastSeq, ch).Event?
    ensures var doc := b.docs[id]; var c := SendIncremental(b, id, ch, ok).0;
      var e := IncrementalChange(doc.shadow, doc.lastSeq, ch);
      && id in c.docs && c.docs[id].uri == doc.uri && c.docs[id].version == doc.version + 1
      && c.server == if ok then Receive(b.server, DidChangeRange(doc.uri, c.docs[id].version, e.range, e.text)) else b.server
  {
    hide IncrementalChange, Receive;
  }

  /** A session starts at version 1, for the record and on the server. */
  lemma OpenMessage(b: Mirror, id: BufferId, uri: Uri, text: Text, seqNo: nat, ok: bool)
    ensures var c := OpenDocument(b, id, uri, text, seqNo, ok);
      && id in c.docs && c.docs[id] == ManagedDoc(uri, 1, text, seqNo)
      && c.server == if ok then b.server[uri := ServerDoc(1, text)] else b.server
  {
  }

  lemma FullMessage(b: Mirror, id: BufferId, text: Text, seqNo: nat, ok: bool)
    requires id in b.docs
    ensures var doc := b.docs[id]; var c := ResyncFullText(b, id, text, seqNo, ok);
      && id in c.docs && c.docs[id].uri == doc.uri && c.docs[id].version == doc.version + 1
      && c.server == if ok then Receive(b.server, DidChangeFull(doc.uri, c.docs[id].version, text)) else b.server
  {
    hide Receive;
  }

  /** A message that is about to be sent for the document arrives and applies: a ranged
      edit inside the server's text, or a full text, for a document the server has open. */
  ghost predicate Delivers(w: World, step: Step, id: BufferId)
    requires id in w.mirror.docs
  {
    var doc := w.mirror.docs[id];
    doc.uri in w.mirror.server &&
    match step
    case HandleChanged(other, which, incremental, ok) =>
      && other == id && incremental && ok && Deliverable(w, id, which)
      && Applies(w.mirror, id, w.buffers[id].log[which])
    case Confirm(ok) => ok && Confirmed(w) && w.handler.job == ResyncJob(id)
    case _ => false
  }

  ghost predicate Applies(b: Mirror, id: BufferId, ch: Change)
    requires id in b.docs && b.docs[id].uri in b.server
  {
    var e := IncrementalChange(b.docs[id].shadow, b.docs[id].lastSeq, ch);
    e.Event? && ServerEdit(b.server[b.docs[id].uri].text, e.range, e.text).Some?
  }

  /** Whatever is delivered carries the version of the record after the step, and the
      server's version rises if and only if it was not ahead of the record before. */
  lemma DeliveredVersion(w: World, step: Step, id: BufferId)
    requires id in w.mirror.docs && Delivers(w, step, id)
    ensures var uri := w.mirror.docs[id].uri; var v := Next(w, step).mirror;
      && id in v.docs && v.docs[id].uri == uri && uri in v.server
      && v.docs[id].version == w.mirror.docs[id].version + 1
      && v.server[uri].version == v.docs[id].version
      && (v.server[uri].version > w.mirror.server[uri].version <==> Versioned(w.mirror, id))
  {
    hide IncrementalChange, ServerEdit, SendIncremental, ResyncFullText;
    match step
    case HandleChanged(_, which, _, _) => RangedMessage(w.mirror, id, w.buffers[id].log[which], true);
    case Confirm(_) => FullMessage(w.mirror, id, w.handler.text, w.handler.seqNo, true);
  }

  /** Documents in step take every ranged edit. */
  lemma InStepApplies(b: Mirror, id: BufferId, ch: Change)
    requires id in b.docs && InStep(b, id)
    ensures Applies(b, id, ch) <==> IncrementalChange(b.docs[id].shadow, b.docs[id].lastSeq, ch).Event?
  {
    hide IncrementalChange, ServerEdit;
    if IncrementalChange(b.docs[id].shadow, b.docs[id].lastSeq, ch).Event? {
      EventIsExact(b.docs[id].shadow, b.docs[id].lastSeq, ch);
    }
  }

  /** No record is behind the server, and sessions count from 1. */
  ghost predicate AllVersioned(b: Mirror) {
    forall id :: id in b.docs ==> Versioned(b, id) && b.docs[id].version >= 1
  }

  /** The step leaves some record behind the server: the open of a URI is lost that the
      server still has at a later version, or a change reaches a URI that another
      document has at an earlier version. */
  ghost predicate Rewinding(w: World, step: Step) {
    match step
    case HandleChanged(id, which, incremental, ok) =>
      && Deliverable(w, id, which) && incremental && ok && w.mirror.docs[id].uri in w.mirror.server
      && Applies(w.mirror, id, w.buffers[id].log[which]) && Overtakes(w.mirror, id)
    case Confirm(ok) => Confirmed(w) && RewindingText(w.mirror, w.handler.job, ok)
    case _ => false
  }

  ghost predicate Overtakes(b: Mirror, id: BufferId)
    requires id in b.docs
  {
    exists other :: other in SharedBy(b, id, b.docs[id].uri) && b.docs[other].version <= b.docs[id].version
  }

  ghost predicate RewindingText(b: Mirror, job: Job, ok: bool) {
    match job
    case OpenJob(id, uri) => !ok && uri in b.server && b.server[uri].version > 1
    case ResyncJob(id) => id in b.docs && ok && b.docs[id].uri in b.server && Overtakes(b, id)
  }

  lemma ChangeVersions(b: Mirror, id: BufferId, ch: Change, ok: bool)
    requires AllVersioned(b) && id in b.docs
    ensures AllVersioned(SendIncremental(b, id, ch, ok).0) <==>
      !(ok && b.docs[id].uri in b.server && Applies(b, id, ch) && Overtakes(b, id))
  {
    hide IncrementalChange, ServerEdit;
    var c := SendIncremental(b, id, ch, ok).0;
    assert Versioned(b, id);
    var lands := ok && b.docs[id].uri in b.server && Applies(b, id, ch);
    forall other | other in c.docs
      ensures Versioned(c, other) && c.docs[other].version >= 1 <==>
        !(lands && other in SharedBy(b, id, b.docs[id].uri) && b.docs[other].version <= b.docs[id].version)
    {
      assert Versioned(b, other);
    }
  }

  lemma OpenVersions(b: Mirror, id: BufferId, uri: Uri, text: Text, seqNo: nat, ok: bool)
    requires AllVersioned(b)
    ensures AllVersioned(OpenDocument(b, id, uri, text, seqNo, ok)) <==> !RewindingText(b, OpenJob(id, uri), ok)
  {
    var c := OpenDocument(b, id, uri, text, seqNo, ok);
    forall other | other in c.docs
      ensures Versioned(c, other) && c.docs[other].version >= 1 <==>
        !(other == id && !ok && uri in b.server && b.server[uri].version > 1)
    {
      if other != id {
        assert Versioned(b, other);
      }
    }
    assert id in c.docs;
  }

  lemma ResyncVersions(b: Mirror, id: BufferId, text: Text, seqNo: nat, ok: bool)
    requires AllVersioned(b) && id in b.docs
    ensures AllVersioned(ResyncFullText(b, id, text, seqNo, ok)) <==> !RewindingText(b, ResyncJob(id), ok)
  {
    var c := ResyncFullText(b, id, text, seqNo, ok);
    assert Versioned(b, id);
    var lands := ok && b.docs[id].uri in b.server;
    forall other | other in c.docs
      ensures Versioned(c, other) && c.docs[other].version >= 1 <==>
        !(lands && other in SharedBy(b, id, b.docs[id].uri) && b.docs[other].version <= b.docs[id].version)
    {
      assert Versioned(b, other);
    }
  }

  lemma CloseVersions(b: Mirror, id: BufferId, ok: bool)
    requires AllVersioned(b) && id in b.docs
    ensures AllVersioned(CloseDocument(b, id, ok))
  {
    var c := CloseDocument(b, id, ok);
    forall other | other in c.docs ensures Versioned(c, other) && c.docs[other].version >= 1 {
      assert Versioned(b, other);
    }
  }

  lemma StepVersions(w: World, step: Step)
    requires AllVersioned(w.mirror)
    ensures AllVersioned(Next(w, step).mirror) <==> !Rewinding(w, step)
  {
    hide AllVersioned, CloseDocument, SendIncremental, OpenDocument, ResyncFullText, Applies, Overtakes, RewindingText, Track;
    match step
    case HandleClosed(id, ok) => if w.handler.Idle? && id in w.mirror.docs { CloseVersions(w.mirror, id, ok); }
    case HandleChanged(id, which, incremental, ok) =>
      if Deliverable(w, id, which) { ChangeVersions(w.mirror, id, w.buffers[id].log[which], ok); }
    case Confirm(ok) =>
      if Confirmed(w) {
        match w.handler.job
        case OpenJob(id, uri) => OpenVersions(w.mirror, id, uri, w.handler.text, w.handler.seqNo, ok);
        case ResyncJob(id) =>
          if id in w.mirror.docs { ResyncVersions(w.mirror, id, w.handler.text, w.handler.seqNo, ok); }
          else { NothingRewound(w.mirror, id, ok); }
      }
    case _ =>
  }

  lemma NothingRewound(b: Mirror, id: BufferId, ok: bool)
    requires id !in b.docs
    ensures !RewindingText(b, ResyncJob(id), ok)
  {
  }

  ghost predicate NeverRewinding(steps: seq<Step>) {
    forall k :: 0 <= k < |steps| ==> !Rewinding(Run(Empty(), steps[..k]), steps[k])
  }

  ghost predicate AlwaysVersioned(steps: seq<Step>) {
    forall k :: 0 <= k <= |steps| ==> AllVersioned(Run(Empty(), steps[..k]).mirror)
  }

  /** In every run no record is ever behind the server if and only if no step rewinds. */
  lemma {:induction false} RunVersions(steps: seq<Step>)
    ensures AlwaysVersioned(steps) <==> NeverRewinding(steps)
  {
    hide AllVersioned, Rewinding, Next, Run;
    if steps == [] {
      RunNothing(Empty());
      assert AllVersioned(Empty().mirror) by { EmptyVersioned(); }
      assert forall k :: 0 <= k <= 0 ==> steps[..k] == [];
    } else {
      var front, last := steps[..|steps| - 1], steps[|steps| - 1];
      RunVersions(front);
      RunSnoc(Empty(), front, last);
      assert front + [last] == steps && front[..|front|] == front;
      if AllVersioned(Run(Empty(), front).mirror) {
        StepVersions(Run(Empty(), front), last);
      }
      PrefixVersioned(front, steps);
    }
  }

  lemma EmptyVersioned()
    ensures AllVersioned(Empty().mirror)
  {
  }

  lemma PrefixVersioned(front: seq<Step>, steps: seq<Step>)
    requires |steps| == |front| + 1 && front == steps[..|front|]
    ensures AlwaysVersioned(steps) <==> AlwaysVersioned(front) && AllVersioned(Run(Empty(), steps).mirror)
    ensures NeverRewinding(steps) <==> NeverRewinding(front) && !Rewinding(Run(Empty(), front), steps[|front|])
    ensures AlwaysVersioned(front) ==> AllVersioned(Run(Empty(), front).mirror)
  {
    hide Run, AllVersioned, Rewinding;
    assert steps[..|steps|] == steps && steps[..|front|] == front && front[..|front|] == front;
    assert forall k :: 0 <= k <= |front| ==> front[..k] == steps[..k];
    assert AlwaysVersioned(steps) ==> AlwaysVersioned(front) by {
      assert forall k :: 0 <= k <= |front| && AllVersioned(Run(Empty(), steps[..k]).mirror) ==>
        AllVersioned(Run(Empty(), front[..k]).mirror);
    }
    if AlwaysVersioned(front) && AllVersioned(Run(Empty(), steps).mirror) {
      forall k | 0 <= k <= |steps| ensures AllVersioned(Run(Empty(), steps[..k]).mirror) {
        if k <= |front| {
          assert AllVersioned(Run(Empty(), front[..k]).mirror);
        }
      }
    }
    if NeverRewinding(steps) {
      forall k | 0 <= k < |front| ensures !Rewinding(Run(Empty(), front[..k]), front[k]) {
        assert !Rewinding(Run(Empty(), steps[..k]), steps[k]);
      }
    }
    if NeverRewinding(front) && !Rewinding(Run(Empty(), front), steps[|front|]) {
      forall k | 0 <= k < |steps| ensures !Rewinding(Run(Empty(), steps[..k]), steps[k]) {
        if k < |front| {
          assert !Rewinding(Run(Empty(), front[..k]), front[k]);
        }
      }
    }
  }

  /** With URIs of their own, only a lost open of a URI the server still has open at a
      later version rewinds. */
  lemma OnlyLostOpens(w: World, step: Step)
    requires Unshared(w)
    ensures Rewinding(w, step) <==>
      && step == Confirm(false) && Confirmed(w) && w.handler.job.OpenJob?
      && w.handler.job.uri in w.mirror.server && w.mirror.server[w.handler.job.uri].version > 1
  {
    hide MapsAgree, Applies, SharedBy;
    match step
    case HandleChanged(id, which, incremental, ok) => if id in w.mirror.docs { NobodyShares(w.mirror, id); }
    case Confirm(ok) =>
      if Confirmed(w) && w.handler.job.ResyncJob? && w.handler.job.id in w.mirror.docs {
        NobodyShares(w.mirror, w.handler.job.id);
      }
    case _ =>
  }

  /** In every run without such a step, every change that is delivered raises the
      server's version to the record's. */
  lemma VersionsRise(steps: seq<Step>, step: Step, id: BufferId)
    requires NeverRewinding(steps)
    requires id in Run(Empty(), steps).mirror.docs && Delivers(Run(Empty(), steps), step, id)
    ensures var w := Run(Empty(), steps); var uri := w.mirror.docs[id].uri; var v := Next(w, step).mirror;
      && id in v.docs && uri in v.server
      && w.mirror.server[uri].version < v.server[uri].version == v.docs[id].version
  {
    hide Run, Next, AllVersioned, Delivers, NeverRewinding;
    RunVersions(steps);
    assert steps[..|steps|] == steps;
    assert AllVersioned(Run(Empty(), steps).mirror);
    VersionedDoc(Run(Empty(), steps).mirror, id);
    DeliveredVersion(Run(Empty(), steps), step, id);
  }

  /** Runs that lose no full text and share no URI have none. */
  lemma SendsNeverRewind(steps: seq<Step>)
    requires TextsSent(steps) && NoCollision(steps)
    ensures NeverRewinding(steps)
  {
    hide Run, Rewinding, Unshared, NoCollision;
    forall k | 0 <= k < |steps| ensures !Rewinding(Run(Empty(), steps[..k]), steps[k]) {
      NoCollisionPrefix(steps, k);
      UnsharedRun(steps[..k]);
      OnlyLostOpens(Run(Empty(), steps[..k]), steps[k]);
    }
  }

  /** In every run whatever, a change delivered for a document that is not adrift does. */
  lemma SafeVersionsRise(steps: seq<Step>, step: Step, id: BufferId)
    requires id in Run(Empty(), steps).mirror.docs && id !in Run(Empty(), steps).adrift
    requires Delivers(Run(Empty(), steps), step, id)
    ensures var w := Run(Empty(), steps); var uri := w.mirror.docs[id].uri; var v := Next(w, step).mirror;
      && id in v.docs && uri in v.server
      && w.mirror.server[uri].version < v.server[uri].version == v.docs[id].version
  {
    hide Run, Next, Delivers;
    ReplicationSafe(steps, id);
    DeliveredVersion(Run(Empty(), steps), step, id);
  }

  lemma VersionedDoc(b: Mirror, id: BufferId)
    requires AllVersioned(b) && id in b.docs
    ensures Versioned(b, id)
  {
  }

  // ----- convergence -----

  /** The document's URI is its own, and stays so when the open under way finishes. */
  ghost predicate Alone(w: World, id: BufferId)
    requires id in w.mirror.docs
  {
    var uri := w.mirror.docs[id].uri;
    && FreeFor(w.mirror, id, uri)
    && (!w.handler.Idle? && w.handler.job.OpenJob? ==>
          if w.handler.job.id == id then FreeFor(w.mirror, id, w.handler.job.uri) else w.handler.job.uri != uri)
  }

  /** Work that cannot disturb a document: anything but mutating its buffer, closing
      it, losing a full text of it, or making its URI a shared one. */
  ghost predicate Quiet(w: World, step: Step, id: BufferId) {
    && !(step.Mutate? && step.id == id)
    && !(step.HandleClosed? && step.id == id)
    && (step.Confirm? && w.handler.GotText? && w.handler.job.id == id ==> step.ok)
    && (step.HandleOpened? && id in w.mirror.docs ==>
          if step.id == id then FreeFor(w.mirror, id, step.uri) else step.uri != w.mirror.docs[id].uri)
  }

  /** The server has, or is about to be sent, the buffer's present text. */
  ghost predicate Settled(w: World, id: BufferId) {
    && id in w.mirror.docs && id in w.buffers && id !in w.adrift && Alone(w, id)
    && (w.mirror.docs[id].lastSeq == w.buffers[id].doc.seqNo || (!w.handler.Idle? && w.handler.job == ResyncJob(id)))
  }

  /** The server's copy of the document is the buffer's present text. */
  ghost predicate ServerShows(w: World, id: BufferId) {
    && id in w.mirror.docs && id in w.buffers
    && w.mirror.docs[id].uri in w.mirror.server
    && w.mirror.server[w.mirror.docs[id].uri].text == w.buffers[id].doc.text
  }

  lemma SettledStep(w: World, step: Step, id: BufferId)
    requires WorldOk(w) && Settled(w, id) && Quiet(w, step, id)
    ensures Settled(Next(w, step), id)
  {
    hide Faithful, Track, IncrementalChange, Receive, Had;
    match step
    case HandleClosed(other, ok) =>
      if w.handler.Idle? && other in w.mirror.docs { ClosedSettled(w, other, ok, id); }
    case HandleChanged(other, which, incremental, ok) =>
      if Deliverable(w, other, which) { ChangedSettled(w, other, which, incremental, ok, id); }
    case Confirm(ok) =>
      if Confirmed(w) { ConfirmedSettled(w, ok, id); }
    case _ =>
  }

  lemma ClosedSettled(w: World, other: BufferId, ok: bool, id: BufferId)
    requires Settled(w, id) && w.handler.Idle? && other in w.mirror.docs && other != id
    ensures Settled(Closed(w, other, ok), id)
  {
    hide Receive;
    assert other !in SharedBy(w.mirror, id, w.mirror.docs[id].uri);
  }

  lemma ChangedSettled(w: World, other: BufferId, which: nat, incremental: bool, ok: bool, id: BufferId)
    requires WorldOk(w) && Settled(w, id) && Deliverable(w, other, which)
    ensures Settled(HandleChange(w, other, w.buffers[other].log[which], incremental, ok), id)
  {
    hide Faithful, IncrementalChange, Receive, Had, InStep, Versioned;
    var doc, ch := w.mirror.docs[other], w.buffers[other].log[which];
    LoggedChange(w.buffers[other], which);
    FaithfulNow(w.buffers[other]);
    if other != id {
      assert other !in SharedBy(w.mirror, id, w.mirror.docs[id].uri);
    }
    if IncrementalChange(doc.shadow, doc.lastSeq, ch).Event? {
      EventFollows(doc.shadow, doc.lastSeq, ch);
    }
    var r := HandleChange(w, other, ch, incremental, ok);
    assert SharedBy(r.mirror, id, r.mirror.docs[id].uri) == SharedBy(w.mirror, id, w.mirror.docs[id].uri);
  }

  lemma ConfirmedSettled(w: World, ok: bool, id: BufferId)
    requires WorldOk(w) && Settled(w, id) && Confirmed(w) && (w.handler.job.id == id ==> ok)
    ensures Settled(Finish(w, w.handler.job, w.handler.seqNo, w.handler.text, ok), id)
  {
    hide Faithful, Receive, Had, Versioned;
    var r := Finish(w, w.handler.job, w.handler.seqNo, w.handler.text, ok);
    var other := w.handler.job.id;
    if other != id {
      assert other !in SharedBy(w.mirror, id, w.mirror.docs[id].uri);
    }
    assert InStep(w.mirror, id);
    match w.handler.job
    case OpenJob(_, uri) =>
      assert SharedBy(r.mirror, id, r.mirror.docs[id].uri) == {};
    case ResyncJob(_) =>
      assert SharedBy(r.mirror, id, r.mirror.docs[id].uri) == {};
  }

  /** Handling the event of the latest change settles the document. */
  lemma LatestChangeSettles(w: World, id: BufferId, incremental: bool, ok: bool)
    requires WorldOk(w) && w.handler.Idle? && id in w.mirror.docs && id in w.live && id !in w.adrift && Alone(w, id)
    requires id in w.buffers && w.buffers[id].log != []
    ensures Settled(Next(w, HandleChanged(id, |w.buffers[id].log| - 1, incremental, ok)), id)
  {
    hide Faithful, Track, IncrementalChange, Receive, Had, InStep, Versioned;
    var doc, h := w.mirror.docs[id], w.buffers[id];
    LoggedChange(h, |h.log| - 1);
    FaithfulNow(h);
    if IncrementalChange(doc.shadow, doc.lastSeq, h.log[|h.log| - 1]).Event? {
      EventFollows(doc.shadow, doc.lastSeq, h.log[|h.log| - 1]);
    }
    var r := Next(w, HandleChanged(id, |h.log| - 1, incremental, ok));
    assert SharedBy(r.mirror, id, doc.uri) == SharedBy(w.mirror, id, doc.uri);
  }

  /** A settled document between events is the buffer's text on the server. */
  lemma SettledMeansEqual(w: World, id: BufferId)
    requires WorldOk(w) && Settled(w, id) && w.handler.Idle?
    ensures ServerShows(w, id)
  {
    hide Faithful, Alone;
    FaithfulNow(w.buffers[id]);
  }

  ghost predicate QuietRun(w: World, steps: seq<Step>, id: BufferId) {
    forall k :: 0 <= k < |steps| ==> Quiet(Run(w, steps[..k]), steps[k], id)
  }

  lemma {:induction false} SettledRun(w: World, steps: seq<Step>, id: BufferId)
    requires WorldOk(w) && Settled(w, id) && QuietRun(w, steps, id)
    ensures WorldOk(Run(w, steps)) && Settled(Run(w, steps), id)
  {
    hide WorldOk, Settled, Quiet, Next;
    RunKeeps(w, steps);
    if steps != [] {
      var front := steps[..|steps| - 1];
      forall k | 0 <= k < |front| ensures Quiet(Run(w, front[..k]), front[k], id) {
        assert front[..k] == steps[..k] && front[k] == steps[k];
      }
      SettledRun(w, front, id);
      assert steps[..|front|] == front;
      SettledStep(Run(w, front), steps[|steps| - 1], id);
    }
  }

  /** Replication convergence. Once the event of the latest change is handled and the
      buffer is left alone, every later moment between events, whatever stale events
      are still handled, finds the server's copy equal to the buffer's text. */
  lemma ReplicationConverges(w: World, id: BufferId, incremental: bool, ok: bool, steps: seq<Step>)
    requires WorldOk(w) && w.handler.Idle? && id in w.mirror.docs && id in w.live && id !in w.adrift && Alone(w, id)
    requires id in w.buffers && w.buffers[id].log != []
    requires QuietRun(Next(w, HandleChanged(id, |w.buffers[id].log| - 1, incremental, ok)), steps, id)
    ensures var last := HandleChanged(id, |w.buffers[id].log| - 1, incremental, ok);
      var v := Run(Next(w, last), steps);
      v.handler.Idle? ==> ServerShows(v, id)
  {
    hide WorldOk, Settled, QuietRun, Next, ServerShows, Run;
    var last := HandleChanged(id, |w.buffers[id].log| - 1, incremental, ok);
    LatestChangeSettles(w, id, incremental, ok);
    NextKeeps(w, last);
    SettledRun(Next(w, last), steps, id);
    if Run(Next(w, last), steps).handler.Idle? {
      SettledMeansEqual(Run(Next(w, last), steps), id);
    }
  }

  /** From the start of a resync of a document the server has open, three undisturbed
      reads and a successful send bring the handler back to idle with the server
      holding the buffer's text: an earlier lost text is repaired. */
  lemma ResyncFinishes(w: World, id: BufferId)
    requires WorldOk(w) && w.handler == Begun(ResyncJob(id))
    requires id in w.mirror.docs && w.mirror.docs[id].uri in w.mirror.server
    ensures var v := Next(Next(Next(w, ReadSeq), ReadText), Confirm(true));
      v.handler.Idle? && ServerShows(v, id) && id !in v.adrift
  {
    hide Faithful, InStep, Versioned, Had;
    JobKnown(w);
    var w1 := Next(w, ReadSeq);
    var w2 := Next(w1, ReadText);
    assert Confirmed(w2);
    assert id !in SharedBy(w.mirror, id, w.mirror.docs[id].uri);
  }

  lemma JobKnown(w: World)
    requires WorldOk(w) && !w.handler.Idle?
    ensures w.handler.job.id in w.buffers
  {
    hide Faithful, InStep, Versioned, Anchored;
  }

  // ----- shared URIs -----

  /** Opening a document keeps every tracked document in step exactly when no other
      one is tracked by the same URI with a different text. */
  lemma OpenKeepsInStepExactly(b: Mirror, id: BufferId, uri: Uri, text: Text, seqNo: nat)
    requires AllInStep(b)
    ensures AllInStep(OpenDocument(b, id, uri, text, seqNo, true)) <==>
      (forall other :: other in b.docs && other != id && b.docs[other].uri == uri ==> b.docs[other].shadow == text)
  {
    OpenExactly(b, id, uri, text, seqNo, true);
    if other :| other in b.docs && other != id && b.docs[other].uri == uri && b.docs[other].shadow != text {
      assert other in SharedBy(b, id, uri);
    }
  }

  /** But equal texts under one URI last only until one of them changes: the edit sent
      for one document takes the other out of step. */
  lemma SharedUriBreaks(b: Mirror, a: BufferId, c: BufferId, ch: Change)
    requires AllInStep(b) && a in b.docs && c in b.docs && a != c && b.docs[a].uri == b.docs[c].uri
    requires var r := IncrementalChange(b.docs[a].shadow, b.docs[a].lastSeq, ch);
      r.Event? && r.newShadow != b.docs[a].shadow
    ensures var after := SendIncremental(b, a, ch, true).0; InStep(after, a) && !InStep(after, c)
  {
    hide IncrementalChange, ServerEdit;
    EventIsExact(b.docs[a].shadow, b.docs[a].lastSeq, ch);
    assert InStep(b, a) && InStep(b, c);
  }

  /** A resync leaves its document in step exactly when the server has it open and the
      send succeeds or the server held that text already; for a document in step, when
      the send succeeds or the text is no news. */
  lemma ResyncInStepExactly(b: Mirror, id: BufferId, text: Text, seqNo: nat, ok: bool)
    requires id in b.docs
    ensures var after := ResyncFullText(b, id, text, seqNo, ok); var uri := b.docs[id].uri;
      && (InStep(after, id) <==> uri in b.server && (ok || b.server[uri].text == text))
      && (InStep(b, id) ==> (InStep(after, id) <==> ok || text == b.docs[id].shadow))
  {
  }

  lemma InsertAtOrigin(h: History, w: Text)
    requires Faithful(h) && w != []
    ensures var n := Track(h, Command.Insert(Origin, w)); var e := Edit(Range(Origin, Origin), [], w);
      && Faithful(n) && n.doc.text == w + h.doc.text && n.doc.seqNo == h.doc.seqNo + 1
      && n.texts == h.texts + [w + h.doc.text] && n.log == h.log + [Change(InsertKind, e, h.doc.seqNo + 1)]
  {
    hide Faithful, InsertInto, LineStarts, OffsetOf;
    TrackFaithful(h, Command.Insert(Origin, w));
    assert PosAt(h.doc.text, 0) == Origin;
    InsertAtOffset(h.doc, 0, w);
    InsertedChange(h.doc, w);
    assert h.doc.text[..0] + w + h.doc.text[0..] == w + h.doc.text;
  }

  lemma InsertedChange(d: Document, w: Text)
    requires w != [] && InsertInto(d, Origin, w).change.Some?
    ensures var x := InsertInto(d, Origin, w);
      x.change == Some(Change(InsertKind, Edit(Range(Origin, Origin), [], w), d.seqNo + 1)) && x.doc.seqNo == d.seqNo + 1
  {
    hide OffsetOf;
  }

  /** An insertion at the document start reaches the server's copy at its start,
      whatever that copy is. */
  lemma OriginRange(t: Text, w: Text)
    ensures var r := LspRange(LspPosition(0, 0), LspPosition(0, 0));
      RangeToLsp(t, Range(Origin, Origin)) == Converted(r) && ServerEdit(t, r, w) == Some(w + t)
  {
    hide LineStarts, ServerEdit, OffsetOf, ToLsp;
    var r := LspRange(LspPosition(0, 0), LspPosition(0, 0));
    assert PosAt(t, 0) == Origin;
    assert t[0..0] == [] && Runes([]) == Some([]) && Utf16([]) == [];
    assert Denotes(t, LspPosition(0, 0), 0);
    DenotesIsConversion(t, LspPosition(0, 0), 0);
    ServerEditExact(t, r, 0, 0, w);
    assert t[..0] + w + t[0..] == w + t;
  }

  /** The send condition cannot be dropped: the shadow is re-anchored even when the
      full text is lost, so the next ranged edit is applied to a text it was not made
      for. Here the server ends with "ca" while the buffer only ever held "a", "ba"
      and "cba". */
  lemma LostFullTextDiverges() returns (steps: seq<Step>)
    ensures var w := Run(Empty(), steps);
      && w.handler.Idle? && 0 in w.buffers && 0 in w.mirror.docs && 0 in w.mirror.server
      && w.mirror.docs[0].shadow == w.buffers[0].doc.text
      && w.mirror.server[0].text !in w.buffers[0].texts
  {
    hide Track, Faithful, Next;
    var first := [NewBuffer(0, [97]), HandleOpened(0, 0), ReadSeq, ReadText, Confirm(true)];
    var w1 := OpenedWorld();
    var lost := [Mutate(0, Command.Insert(Origin, [98])), HandleChanged(0, 0, false, true), ReadSeq, ReadText, Confirm(false)];
    var w2 := LostWorld(w1);
    var last := [Mutate(0, Command.Insert(Origin, [99])), HandleChanged(0, 1, true, true)];
    var _ := AppliedWorld(w2);
    steps := first + lost + last;
    RunFive(Empty(), first[0], first[1], first[2], first[3], first[4]);
    RunFive(w1, lost[0], lost[1], lost[2], lost[3], lost[4]);
    RunTwo(w2, last[0], last[1]);
    RunAppend(Empty(), first, lost);
    RunAppend(Empty(), first + lost, last);
  }

  /** Nor can the condition on URIs. Two documents are opened under one URI with equal
      texts and stay in step; the first edit of one leaves the server with a text the
      other never had, although every send succeeds. */
  lemma SharedUriDiverges() returns (steps: seq<Step>)
    ensures TextsSent(steps)
    ensures var w := Run(Empty(), steps);
      && w.handler.Idle? && 1 in w.buffers && 1 in w.mirror.docs && w.mirror.docs[1].uri in w.mirror.server
      && w.mirror.server[w.mirror.docs[1].uri].text !in w.buffers[1].texts
  {
    hide Track, Faithful, Next;
    var first := [NewBuffer(0, [97]), HandleOpened(0, 0), ReadSeq, ReadText, Confirm(true)];
    var w1 := OpenedWorld();
    var second := [NewBuffer(1, [97]), HandleOpened(1, 0), ReadSeq, ReadText, Confirm(true)];
    var w2 := SharedWorld(w1);
    var last := [Mutate(0, Command.Insert(Origin, [98])), HandleChanged(0, 0, true, true)];
    var _ := EditedWorld(w2);
    steps := first + second + last;
    RunFive(Empty(), first[0], first[1], first[2], first[3], first[4]);
    RunFive(w1, second[0], second[1], second[2], second[3], second[4]);
    RunTwo(w2, last[0], last[1]);
    RunAppend(Empty(), first, second);
    RunAppend(Empty(), first + second, last);
  }

  /** Nor can the condition that no step rewinds. A document is opened again, the didOpen is lost,
      and the full text that follows arrives at the version the server already has. */
  lemma LostOpenRewinds() returns (steps: seq<Step>, step: Step)
    ensures var w := Run(Empty(), steps);
      && 0 in w.mirror.docs && Delivers(w, step, 0) && w.mirror.docs[0].uri in w.mirror.server
      && var uri := w.mirror.docs[0].uri; var v := Next(w, step).mirror;
         uri in v.server && v.server[uri].version == w.mirror.server[uri].version
  {
    hide Track, Faithful, Next;
    var first := [NewBuffer(0, [97]), HandleOpened(0, 0), ReadSeq, ReadText, Confirm(true)];
    var w1 := OpenedWorld();
    var sent := [Mutate(0, Command.Insert(Origin, [98])), HandleChanged(0, 0, false, true), ReadSeq, ReadText, Confirm(true)];
    var w2 := SentWorld(w1);
    var again := [HandleOpened(0, 0), ReadSeq, ReadText, Confirm(false), HandleChanged(0, 0, false, true)];
    var w3 := ReopenedWorld(w2);
    var last := [ReadSeq, ReadText];
    var _ := RewoundWorld(w3);
    steps, step := first + sent + again + last, Confirm(true);
    RunFive(Empty(), first[0], first[1], first[2], first[3], first[4]);
    RunFive(w1, sent[0], sent[1], sent[2], sent[3], sent[4]);
    RunFive(w2, again[0], again[1], again[2], again[3], again[4]);
    RunTwo(w3, last[0], last[1]);
    RunAppend(Empty(), first, sent);
    RunAppend(Empty(), first + sent, again);
    RunAppend(Empty(), first + sent + again, last);
  }

  lemma SentWorld(w1: World) returns (w: World)
    requires w1 == World(map[0 := Fresh([97])], {0},
      Mirror(map[0 := ManagedDoc(0, 1, [97], 0)], map[0 := 0], map[0 := ServerDoc(1, [97])]), Idle, {})
    ensures w == Next(Next(Next(Next(Next(w1, Mutate(0, Command.Insert(Origin, [98]))), HandleChanged(0, 0, false, true)),
      ReadSeq), ReadText), Confirm(true))
    ensures w.buffers.Keys == {0} && w.live == {0} && |w.buffers[0].log| == 1 && w.handler.Idle?
    ensures w.buffers[0].doc.text == [98, 97] && w.buffers[0].doc.seqNo == 1
    ensures w.mirror == Mirror(map[0 := ManagedDoc(0, 2, [98, 97], 1)], map[0 := 0], map[0 := ServerDoc(2, [98, 97])])
  {
    hide Track, ServerEdit, IncrementalChange, Faithful, Consistent;
    FreshFaithful([97]);
    InsertAtOrigin(Fresh([97]), [98]);
    var a := Next(w1, Mutate(0, Command.Insert(Origin, [98])));
    assert [98] + [97] == [98, 97];
    var b := Next(a, HandleChanged(0, 0, false, true));
    var c := Next(b, ReadSeq);
    var d := Next(c, ReadText);
    w := Next(d, Confirm(true));
  }

  lemma ReopenedWorld(w2: World) returns (w: World)
    requires w2.buffers.Keys == {0} && w2.live == {0} && |w2.buffers[0].log| == 1 && w2.handler.Idle?
    requires w2.buffers[0].doc.text == [98, 97] && w2.buffers[0].doc.seqNo == 1
    requires w2.mirror == Mirror(map[0 := ManagedDoc(0, 2, [98, 97], 1)], map[0 := 0], map[0 := ServerDoc(2, [98, 97])])
    ensures w == Next(Next(Next(Next(Next(w2, HandleOpened(0, 0)), ReadSeq), ReadText), Confirm(false)),
      HandleChanged(0, 0, false, true))
    ensures w.buffers == w2.buffers && w.handler == Begun(ResyncJob(0))
    ensures w.mirror.docs == map[0 := ManagedDoc(0, 1, [98, 97], 1)] && w.mirror.server == map[0 := ServerDoc(2, [98, 97])]
  {
    hide Track, ServerEdit, IncrementalChange;
    var a := Next(w2, HandleOpened(0, 0));
    var b := Next(a, ReadSeq);
    var c := Next(b, ReadText);
    var d := Next(c, Confirm(false));
    w := Next(d, HandleChanged(0, 0, false, true));
  }

  lemma RewoundWorld(w3: World) returns (w: World)
    requires w3.buffers.Keys == {0} && w3.handler == Begun(ResyncJob(0))
    requires w3.buffers[0].doc.text == [98, 97] && w3.buffers[0].doc.seqNo == 1
    requires w3.mirror.docs == map[0 := ManagedDoc(0, 1, [98, 97], 1)] && w3.mirror.server == map[0 := ServerDoc(2, [98, 97])]
    ensures w == Next(Next(w3, ReadSeq), ReadText)
    ensures 0 in w.mirror.docs && Delivers(w, Confirm(true), 0) && w.mirror.docs[0].uri == 0 && 0 in w.mirror.server
    ensures var v := Next(w, Confirm(true)).mirror;
      0 in v.server && v.server[0].version == w.mirror.server[0].version
  {
    hide Track, ServerEdit, IncrementalChange;
    var a := Next(w3, ReadSeq);
    w := Next(a, ReadText);
  }

  lemma SharedWorld(w1: World) returns (w: World)
    requires w1 == World(map[0 := Fresh([97])], {0},
      Mirror(map[0 := ManagedDoc(0, 1, [97], 0)], map[0 := 0], map[0 := ServerDoc(1, [97])]), Idle, {})
    ensures w == Next(Next(Next(Next(Next(w1, NewBuffer(1, [97])), HandleOpened(1, 0)), ReadSeq), ReadText), Confirm(true))
    ensures w.buffers == map[0 := Fresh([97]), 1 := Fresh([97])] && w.live == {0, 1} && w.handler.Idle?
    ensures w.mirror.docs == map[0 := ManagedDoc(0, 1, [97], 0), 1 := ManagedDoc(0, 1, [97], 0)]
    ensures w.mirror.server == map[0 := ServerDoc(1, [97])]
  {
    hide Track, ServerEdit, SharedBy;
    var a := Next(w1, NewBuffer(1, [97]));
    var b := Next(a, HandleOpened(1, 0));
    var c := Next(b, ReadSeq);
    var d := Next(c, ReadText);
    w := Next(d, Confirm(true));
  }

  lemma EditedWorld(w2: World) returns (w: World)
    requires w2.buffers == map[0 := Fresh([97]), 1 := Fresh([97])] && w2.live == {0, 1} && w2.handler.Idle?
    requires w2.mirror.docs == map[0 := ManagedDoc(0, 1, [97], 0), 1 := ManagedDoc(0, 1, [97], 0)]
    requires w2.mirror.server == map[0 := ServerDoc(1, [97])]
    ensures w == Next(Next(w2, Mutate(0, Command.Insert(Origin, [98]))), HandleChanged(0, 0, true, true))
    ensures w.handler.Idle? && 1 in w.buffers && w.buffers[1].texts == [[97]]
    ensures 1 in w.mirror.docs && w.mirror.docs[1].uri == 0 && 0 in w.mirror.server
    ensures w.mirror.server[0].text == [98, 97]
  {
    hide Track, ServerEdit, Faithful, Consistent, LineStarts, RangeToLsp, OffsetOf, SharedBy;
    FreshFaithful([97]);
    InsertAtOrigin(Fresh([97]), [98]);
    var a := Next(w2, Mutate(0, Command.Insert(Origin, [98])));
    assert [98] + [97] == [98, 97];
    var ch := a.buffers[0].log[0];
    OriginRange([97], [98]);
    assert PosAt([97], 0) == Origin;
    OffsetOfPosAt([97], 0);
    assert [97][0..0] == [];
    assert IncrementalChange([97], 0, ch) ==
      Event(LspRange(LspPosition(0, 0), LspPosition(0, 0)), [98], Splice([97], 0, 0, [98]));
    w := Next(a, HandleChanged(0, 0, true, true));
  }

  lemma {:induction false} RunAppend(w: World, a: seq<Step>, b: seq<Step>)
    ensures Run(w, a + b) == Run(Run(w, a), b)
  {
    hide Next;
    if b == [] {
      assert a + b == a;
    } else {
      assert (a + b)[..|a + b| - 1] == a + b[..|b| - 1];
      RunAppend(w, a, b[..|b| - 1]);
    }
  }

  lemma RunSnoc(w: World, steps: seq<Step>, last: Step)
    ensures Run(w, []) == w && Run(w, steps + [last]) == Next(Run(w, steps), last)
  {
    hide Next;
    assert (steps + [last])[..|steps + [last]| - 1] == steps;
  }

  lemma RunTwo(w: World, a: Step, b: Step)
    ensures Run(w, [a, b]) == Next(Next(w, a), b)
  {
    hide Next, Run;
    RunSnoc(w, [], a);
    RunSnoc(w, [a], b);
    assert [] + [a] == [a] && [a] + [b] == [a, b];
  }

  lemma RunFive(w: World, a: Step, b: Step, c: Step, d: Step, e: Step)
    ensures Run(w, [a, b, c, d, e]) == Next(Next(Next(Next(Next(w, a), b), c), d), e)
  {
    hide Next, Run;
    RunTwo(w, a, b);
    RunSnoc(w, [a, b], c);
    RunSnoc(w, [a, b, c], d);
    RunSnoc(w, [a, b, c, d], e);
    assert [a, b] + [c] == [a, b, c];
    assert [a, b, c] + [d] == [a, b, c, d];
    assert [a, b, c, d] + [e] == [a, b, c, d, e];
  }

  lemma OpenedWorld() returns (w: World)
    ensures w == Next(Next(Next(Next(Next(Empty(), NewBuffer(0, [97])), HandleOpened(0, 0)), ReadSeq), ReadText), Confirm(true))
    ensures w == World(map[0 := Fresh([97])], {0},
      Mirror(map[0 := ManagedDoc(0, 1, [97], 0)], map[0 := 0], map[0 := ServerDoc(1, [97])]), Idle, {})
  {
    hide Track, ServerEdit;
    var a := Next(Empty(), NewBuffer(0, [97]));
    var b := Next(a, HandleOpened(0, 0));
    var c := Next(b, ReadSeq);
    var d := Next(c, ReadText);
    w := Next(d, Confirm(true));
  }

  lemma LostWorld(w1: World) returns (w: World)
    requires w1 == World(map[0 := Fresh([97])], {0},
      Mirror(map[0 := ManagedDoc(0, 1, [97], 0)], map[0 := 0], map[0 := ServerDoc(1, [97])]), Idle, {})
    ensures w == Next(Next(Next(Next(Next(w1, Mutate(0, Command.Insert(Origin, [98]))), HandleChanged(0, 0, false, true)),
      ReadSeq), ReadText), Confirm(false))
    ensures w.buffers.Keys == {0} && w.live == {0} && Faithful(w.buffers[0])
    ensures w.buffers[0].texts == [[97], [98, 97]] && |w.buffers[0].log| == 1
    ensures w.buffers[0].doc.text == [98, 97] && w.buffers[0].doc.seqNo == 1
    ensures w.mirror == Mirror(map[0 := ManagedDoc(0, 2, [98, 97], 1)], map[0 := 0], map[0 := ServerDoc(1, [97])])
    ensures w.handler.Idle?
  {
    hide Track, ServerEdit, IncrementalChange, Faithful, Consistent;
    FreshFaithful([97]);
    InsertAtOrigin(Fresh([97]), [98]);
    var a := Next(w1, Mutate(0, Command.Insert(Origin, [98])));
    assert [98] + [97] == [98, 97];
    var b := Next(a, HandleChanged(0, 0, false, true));
    var c := Next(b, ReadSeq);
    var d := Next(c, ReadText);
    w := Next(d, Confirm(false));
  }

  lemma AppliedWorld(w2: World) returns (w: World)
    requires w2.buffers.Keys == {0} && w2.live == {0} && Faithful(w2.buffers[0])
    requires w2.buffers[0].texts == [[97], [98, 97]] && |w2.buffers[0].log| == 1
    requires w2.buffers[0].doc.text == [98, 97] && w2.buffers[0].doc.seqNo == 1
    requires w2.mirror == Mirror(map[0 := ManagedDoc(0, 2, [98, 97], 1)], map[0 := 0], map[0 := ServerDoc(1, [97])])
    requires w2.handler.Idle?
    ensures w == Next(Next(w2, Mutate(0, Command.Insert(Origin, [99]))), HandleChanged(0, 1, true, true))
    ensures w.buffers.Keys == {0} && w.buffers[0].texts == [[97], [98, 97], [99, 98, 97]]
    ensures w.buffers[0].doc.text == [99, 98, 97]
    ensures w.handler.Idle?
    ensures w.mirror.docs == map[0 := ManagedDoc(0, 3, [99, 98, 97], 2)]
    ensures w.mirror.server == map[0 := ServerDoc(3, [99, 97])]
  {
    hide Track, ServerEdit, Faithful, Consistent, LineStarts, RangeToLsp, OffsetOf;
    InsertAtOrigin(w2.buffers[0], [99]);
    var a := Next(w2, Mutate(0, Command.Insert(Origin, [99])));
    assert [99] + [98, 97] == [99, 98, 97] && [99] + [97] == [99, 97];
    var ch := a.buffers[0].log[1];
    OriginRange([98, 97], [99]);
    OriginRange([97], [99]);
    assert PosAt([98, 97], 0) == Origin;
    OffsetOfPosAt([98, 97], 0);
    assert [98, 97][0..0] == [];
    assert IncrementalChange([98, 97], 1, ch) ==
      Event(LspRange(LspPosition(0, 0), LspPosition(0, 0)), [99], Splice([98, 97], 0, 0, [99]));
    assert Splice([98, 97], 0, 0, [99]) == [99, 98, 97];
    w := Next(a, HandleChanged(0, 1, true, true));
  }

  // ----- the object -----

  class Bridge {
    var docs: map<BufferId, ManagedDoc>
    var byURI: map<Uri, BufferId>
    ghost var server: map<Uri, ServerDoc>

    ghost function State(): Mirror
      reads this
    {
      Mirror(docs, byURI, server)
    }

    constructor ()
      ensures State() == Empty().mirror
    {
      docs, byURI, server := map[], map[], map[];
    }

    /** bufferSnapshot when nothing else runs: the confirming read agrees at once. The
        reads interleaved with mutations are the steps ReadSeq, ReadText, Confirm. */
    method BufferSnapshot(buf: Buffer) returns (text: Text, seqNo: nat)
      ensures text == buf.data && seqNo == buf.seqNo
    {
      seqNo := buf.seqNo;
      text := buf.data;
    }

    method Open(id: BufferId, uri: Uri, buf: Buffer, ok: bool)
      modifies this
      ensures State() == OpenDocument(old(State()), id, uri, buf.data, buf.seqNo, ok)
    {
      hide Receive;
      var text, seqNo := BufferSnapshot(buf);
      if id in docs {
        byURI := byURI - {docs[id].uri};
      }
      docs := docs[id := ManagedDoc(uri, 1, text, seqNo)];
      byURI := byURI[uri := id];
      server := Send(server, DidOpen(uri, 1, text), ok);
    }

    method Close(id: BufferId, ok: bool)
      modifies this
      ensures State() == CloseDocument(old(State()), id, ok)
    {
      hide Receive;
      if id !in docs {
        return;
      }
      var doc := docs[id];
      docs := docs - {id};
      byURI := byURI - {doc.uri};
      server := Send(server, DidClose(doc.uri), ok);
    }

    method TryIncremental(id: BufferId, ch: Change, ok: bool) returns (sent: bool)
      requires id in docs
      modifies this
      ensures (State(), sent) == SendIncremental(old(State()), id, ch, ok)
    {
      hide Receive, IncrementalChange;
      var doc := docs[id];
      var r := ComputeIncremental(doc.shadow, doc.lastSeq, ch);
      match r
      case Refused(_) => sent := false;
      case Event(range, text, newShadow) =>
        var v := doc.version + 1;
        docs := docs[id := doc.(version := v)];
        if !ok {
          return false;
        }
        server := Receive(server, DidChangeRange(doc.uri, v, range, text));
        docs := docs[id := docs[id].(shadow := newShadow, lastSeq := ch.seqNo)];
        assert docs == old(docs)[id := doc.(version := v, shadow := newShadow, lastSeq := ch.seqNo)];
        sent := true;
    }

    method Resync(id: BufferId, buf: Buffer, ok: bool)
      requires id in docs
      modifies this
      ensures State() == ResyncFullText(old(State()), id, buf.data, buf.seqNo, ok)
    {
      hide Receive;
      var text, seqNo := BufferSnapshot(buf);
      var v := docs[id].version + 1;
      docs := docs[id := docs[id].(version := v)];
      server := Send(server, DidChangeFull(docs[id].uri, v, text), ok);
      docs := docs[id := docs[id].(shadow := text, lastSeq := seqNo)];
    }

    /** onBufferChanged: a ranged edit when negotiated and possible, else a resync. */
    method OnBufferChanged(id: BufferId, ch: Change, engine: map<BufferId, Buffer>,
                           incremental: bool, okRanged: bool, okFull: bool)
      modifies this
      ensures State() ==
        if id !in old(docs) || id !in engine then old(State())
        else
          var (mid, sent) := if incremental then SendIncremental(old(State()), id, ch, okRanged) else (old(State()), false);
          if sent then mid else ResyncFullText(mid, id, engine[id].data, engine[id].seqNo, okFull)
    {
      hide Receive, IncrementalChange, ResyncFullText;
      if id !in docs || id !in engine {
        return;
      }
      if incremental {
        var sent := TryIncremental(id, ch, okRanged);
        if sent {
          return;
        }
      }
      Resync(id, engine[id], okFull);
    }

    /** onBufferSaved: what a save under a possibly new name means for tracking;
        `target` is the URI of the new name when it is a Go file. */
    method OnBufferSaved(id: BufferId, target: Option<Uri>, buf: Buffer, okClose: bool, okOpen: bool)
      modifies this
      ensures State() == match target
        case None => CloseDocument(old(State()), id, okClose)
        case Some(uri) =>
          if id in old(docs) && old(docs)[id].uri == uri then old(State())
          else OpenDocument(CloseDocument(old(State()), id, okClose), id, uri, buf.data, buf.seqNo, okOpen)
    {
      hide Receive, OpenDocument;
      if id !in docs && target.Some? {
        Open(id, target.value, buf, okOpen);
      } else if id !in docs {
        return;
      } else if target.None? {
        Close(id, okClose);
      } else if docs[id].uri != target.value {
        Close(id, okClose);
        Open(id, target.value, buf, okOpen);
      }
    }
  }
}
