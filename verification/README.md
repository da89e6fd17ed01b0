# Kleiber: verified core

A Dafny model of the parts of the Kleiber editor that carry its correctness: the text
engine and its mirror in the language server, the terminal emulator, and four smaller
algorithms. Objects that the source updates in place are classes here and are proved
against plain values; the laws are lemmas about those values.

`dafny verify dfyconfig.toml` checks everything.

## Text engine and language-server mirror

- `Texts`, `Lines`: byte texts and positions. Everything rests on `Texts.Advance`, the
  position reached by reading byte by byte. The source has four other line models (a
  cache with binary search, a snapshot of it, a newline walk, a rune scan); each is
  proved equal to it on every text.
- `Utf8`, `LspPositions`: UTF-8 as Go decodes it (RFC 3629), UTF-16 code units
  (RFC 2781), and positions of LSP 3.17, section "Position". Lines end only at a newline
  byte, for the server too.
- `Buffers`: the buffer with undo and redo. `Document` and `Execute` are the value,
  `Buffer` the object. `Consistent` ties both stacks to the text; `Faithful` keeps every
  text the buffer ever had under its sequence number.
- `Carets`, `Views`: caret movement, and selections that follow their text through
  anybody's edits. `Session` is several views over one buffer as a value.
- `TextEdits`: a batch of server edits means simultaneous substitution, a definition
  that knows no order and no intermediate text.
- `Replication`: the bridge next to buffers that others mutate at any time, with change
  events that may be late, reordered, repeated or lost, and a handler whose snapshot of
  a buffer is three separate reads. `ReplicationSafe` and `ReplicationConverges` are the
  promises. They depend on full texts arriving, because the bridge moves its shadow even
  when such a send fails, and on documents having URIs of their own, which nothing in the
  code enforces. `StepExactly` and `RunExactly` say exactly when the server falls out of
  step without either assumption; `LostFullTextDiverges` and `SharedUriDiverges` are runs
  in which it does. `RunVersions` says exactly when the server's version of a document
  rises with every change it receives, and `LostOpenRewinds` is a run in which it does not.

## Terminal

- `ScreenModel`: what every operation does to a plain state, the invariant over all runs,
  conservation of lines between grid and scrollback, the alternate-screen round trip.
- `ScreenLaws`: which cells the operations can touch, and what undoes what.
- `ScreenEffects`: what each operation does to every cell, the cursor and the modes, in
  terms of cells and lines alone.
- `Screens`: rows are slices of shared storage that scrolling moves by reference, the
  scrollback adopts rows, cells are written in place. `Valid` says that no two rows of
  either grid or the scrollback share storage, and each method is proved to behave like
  the plain state, so a write changes one cell and an evicted line never changes.
- `Decimals`, `ParserModel`, `Parsers`: the parser as a transducer from bytes to screen
  operations and replies, and as the object that drives a `Screen`. The cursor report
  follows sections 8.3.14, 8.3.21 and 8.3.35 of ECMA-48.
- `ParserEffects`: every escape sequence from its bytes to its effect on the screen, for
  all parameter lists.

## Smaller algorithms

- `Framing`: the base protocol of LSP 3.17 ("Header Part").
- `Search`: find with and without case folding, over arbitrary bytes.
- `TextLayout`: byte columns and display columns with tabs.
- `Supervisor`: the restart loop under an arbitrary environment.

## Where the code and its comments disagree

- Inside a control sequence the case for DEL comes after the one for all bytes from 0x3C
  on (`internal/terminal/parser.go:278-297`), so a DEL makes the parser drop the
  sequence although the comment says it is ignored. The model does what the code does;
  `ParserModel.FeedSequence` states it and `ParserModel.DelDropsSequence` shows it.
- The restart delay is documented as lying between the base and the cap. With a base
  above the cap the first delay exceeds the cap; `Supervisor.BackoffExact` states the
  exact condition.

## Model

| member | source | states |
|---|---|---|
| Texts.Range.Normalized | internal/editor/position.go:63-68 | the two endpoints in document order, and the range itself when they already are |
| Texts.EndOfInsertIsAdvance | internal/editor/view.go:496-509 | counting newlines and finding the last one gives the position reached by reading the inserted text byte by byte |
| Texts.ShiftReanchors | internal/editor/view.go:480-489 | a position behind a splice, moved by lines and, on the splice's last line, by columns, is the position reached from the new end by reading the same text |
| Texts.PosAtOrder | internal/editor/position.go:32-37 | byte offsets and positions are ordered alike, and equal together |
| Lines.StartsShape | internal/editor/buffer.go:433-441 | the cache starts at 0, increases strictly, and every later entry follows a newline |
| Lines.OffsetExact | internal/editor/buffer.go:200-211 | a position converts to an offset if and only if that offset lies in the text and has the position: offsets 0..length and valid positions correspond one to one |
| Lines.OffsetErrors | internal/editor/buffer.go:200-211 | conversion fails exactly when no offset has the position; the line error exactly when no offset has the line |
| Lines.LastLineUnique | internal/editor/buffer.go:216-236 | a line that starts at or before the offset while the next one starts after it is the line of the offset |
| Lines.LinesHaveNoNL | internal/editor/buffer.go:144-153 | no line's text contains a newline |
| Lines.LinesRebuildText | internal/editor/buffer.go:144-153 | the line texts joined by newlines are the text |
| Lines.SnapshotLineStarts | internal/editor/search.go:132-140 | the loop over the bytes computes the same line starts as the cache |
| Lines.SnapshotPosition | internal/editor/search.go:144-157 | the binary search returns the position of the offset |
| Lines.ByteOffsetInText | internal/lsp/editor_bridge.go:780-800 | the newline-by-newline walk agrees with the cached conversion on every text and position, errors included |
| Utf8.DecodeEncoded | internal/terminal/parser.go:150-153 | decoding undoes encoding for every scalar value, whatever bytes follow (RFC 3629) |
| Utf8.EncodeDecoded | internal/lsp/position.go:112-125 | what decodes without error is exactly the encoding of a scalar value |
| Utf8.RunesOfEncoded | internal/lsp/position.go:108-125 | decoding the encoding of any list of scalar values returns the list |
| Utf8.EncodedOfRunes | internal/lsp/position.go:108-125 | encoding the runes of a valid text returns its bytes |
| Utf8.NewlineStandsAlone | internal/lsp/position.go:89-106 | a newline byte is never part of a longer rune, so scanning by runes and by bytes finds the same lines |
| Utf8.ValidLast | internal/editor/view.go:540-559 | a valid text ends with the encoding of its last rune, which is what decoding backwards finds |
| LspPositions.LineAt | internal/lsp/position.go:89-106 | the rune-by-rune scan returns the same line text as the cached line model, for every text |
| LspPositions.Utf16UnitsForByteColumn | internal/lsp/position.go:108-129 | the loop returns the UTF-16 length of the line up to the column, or the error that applies first |
| LspPositions.ByteColumnForUtf16Units | internal/lsp/position.go:131-155 | the loop returns the one column with that UTF-16 length, or the error that applies first |
| LspPositions.PositionFromBytePosition | internal/lsp/position.go:26-41 | the wrapper computes the byte-to-LSP conversion that the lemmas below are about |
| LspPositions.RangeFromByteRange | internal/lsp/position.go:44-55 | both ends converted, or the first error |
| LspPositions.BytePositionFromPosition | internal/lsp/position.go:58-74 | the wrapper computes the LSP-to-byte conversion |
| LspPositions.RangeToByteRange | internal/lsp/position.go:77-87 | both ends converted back, or the first error |
| LspPositions.ConversionsInverse | internal/lsp/position.go:26-74 | each conversion undoes the other wherever either succeeds |
| LspPositions.ToLspExact | internal/lsp/position.go:26-41 | byte to LSP succeeds if and only if the line exists and its text up to the column is valid UTF-8; the character is the UTF-16 length of that text |
| LspPositions.ConversionsOrdered | internal/lsp/position.go:26-74 | conversion preserves document order in both directions |
| LspPositions.FromLspIsValid | internal/lsp/position.go:58-74 | a converted server position is a valid position of the text |
| Buffers.Buffer.constructor | internal/editor/buffer.go:102-110 | a fresh buffer: the text, its line starts, empty stacks, sequence number 0 |
| Buffers.Buffer.ByteOffset | internal/editor/buffer.go:194-211 | the conversion over the cache is the conversion over the text |
| Buffers.Buffer.PositionAt | internal/editor/buffer.go:216-236 | the position of the offset, or nothing outside the text |
| Buffers.Buffer.TextOfLine | internal/editor/buffer.go:144-153 | the line's text without its newline, or nothing |
| Buffers.Buffer.Insert | internal/editor/buffer.go:243-274 | the new document, the outcome and the announced change are those of the insert command; on error nothing changes |
| Buffers.Buffer.Delete | internal/editor/buffer.go:281-318 | likewise for delete, with the range normalized and the removed text recorded |
| Buffers.Buffer.Undo | internal/editor/buffer.go:325-350 | the last edit is reversed, moved to the redo stack and announced; the inconsistent-state branch is not reachable |
| Buffers.Buffer.Redo | internal/editor/buffer.go:357-381 | the last undone edit is reapplied, moved back and announced; the inconsistent-state branch is not reachable |
| Buffers.Buffer.RebuildLineStarts | internal/editor/buffer.go:433-441 | the rebuilt cache is the line starts of the new text |
| Buffers.InsertAtOffset | internal/editor/buffer.go:243-274 | inserting at the position of offset s puts the text there and ends at the position of s plus its length |
| Buffers.DeleteBetween | internal/editor/buffer.go:281-318 | deleting between the positions of two offsets removes exactly the bytes between them |
| Buffers.UndoStep | internal/editor/buffer.go:325-350 | in a consistent document undo always finds the inserted text in place, restores the earlier text and announces exactly that difference |
| Buffers.RedoStep | internal/editor/buffer.go:357-381 | the same for redo |
| Buffers.InsertFailsExactly | internal/editor/buffer.go:243-274 | an insertion fails exactly when its position is invalid, by the line if no offset has that line and by the column otherwise, and changes nothing |
| Buffers.DeleteFailsExactly | internal/editor/buffer.go:281-318 | a deletion fails exactly when its range is not empty and an end is invalid, reporting the first one in document order |
| Buffers.ExecuteKeeps | internal/editor/buffer.go:243-381 | every command keeps the undo and redo chains consistent with the text and announces a change that is exactly the difference between the two texts |
| Buffers.UndosThenRedos | internal/editor/buffer.go:325-381 | k undos followed by k redos restore text and both stacks; only the sequence number has grown, by 2k |
| Buffers.UndoEverything | internal/editor/buffer.go:325-350 | undoing the whole stack restores the initial text |
| Buffers.RunFaithful | internal/editor/buffer.go:179-183 | over every run of commands the sequence number is the number of successful mutations, each text is kept under its number, each announced change leads from one text to the next, and undoing everything restores the initial text |
| Views.TransformFollows | internal/editor/view.go:456-475 | transformPosition sends the position of a byte offset to the position of the shifted offset; offsets inside the splice go to its new end |
| Views.TransformKeepsOrder | internal/editor/view.go:456-475 | transformed positions keep their order |
| Views.TransformValid | internal/editor/view.go:456-475 | a valid position is sent to a valid position of the new text |
| Views.ClampExact | internal/editor/view.go:515-533 | clamping always gives a valid position and changes exactly the invalid ones |
| Views.ClampNearest | internal/editor/view.go:515-533 | the clamped position is nearer than every other valid one: first by line, then by column |
| Views.FollowValid | internal/editor/view.go:383-401 | for a change the buffer announced, the clamp after the transformation does nothing and both ends are valid |
| Views.PositionBeforeExact | internal/editor/view.go:540-559 | the position before a caret is that of the last rune start of its line, or the end of the previous line, or nothing at the start |
| Views.BackOffsetIsOneRune | internal/editor/view.go:540-559 | on valid UTF-8 exactly the last rune before the caret is removed |
| Views.TypeReplaces | internal/editor/view.go:203-240 | typing replaces exactly the selected bytes and leaves the caret behind the new text |
| Views.BackspaceRemoves | internal/editor/view.go:274-299 | backspace at a caret removes from the previous rune start or newline up to it and moves it there; at the start of the document it does nothing |
| Views.BackspaceSelected | internal/editor/view.go:274-299 | backspace with a selection removes exactly the selected bytes |
| Views.TypeMovesOthers | internal/editor/view.go:203-240 | typing moves the ends of every other view as one replacement of the selected bytes would, although the buffer sees a deletion and an insertion |
| Views.BackspaceMovesOthers | internal/editor/view.go:274-299 | backspacing moves them as one deletion would |
| Views.ReturnedEdits | internal/editor/view.go:203-299 | the edits returned name the bytes inserted or removed, at the positions of their offsets |
| Views.ActKeeps | internal/editor/view.go:383-401 | one action of any view or from outside leaves every endpoint of every view valid |
| Views.SelectionsStayValid | internal/editor/view.go:383-401 | so does every run of typing, backspacing, selecting, moving, undo, redo and outside edits |
| Views.View.OnBufferChange | internal/editor/view.go:383-401 | a view that drives the mutation ignores the change, any other follows it |
| Views.View.SetSelection | internal/editor/view.go:138-144 | both ends clamped to the buffer |
| Views.View.MoveCursorTo | internal/editor/view.go:155-163 | the cursor end clamped, the anchor kept |
| Views.View.MoveBy | internal/editor/view.go:176-189 | a caret at the target given by line and rune steps |
| Views.MovedByExact | internal/editor/view.go:176-189 | the caret lands on the clamped line at a valid position; on valid UTF-8 it stands between runes, exactly deltaColumn runes, stopping at the line's ends, from the last place between runes at or left of its old column |
| Views.View.InsertText | internal/editor/view.go:203-240 | the buffer and the selections of all observing views become those of the value-level operation; it returns the insertion if there is one, else the deletion with its removed text, else an empty edit |
| Views.View.Backspace | internal/editor/view.go:274-299 | likewise for backspace, with the removed text in the returned edit |
| Carets.SnapToRuneStart | internal/editor/view.go:564-577 | the loop moves left to the nearest byte that is no continuation byte |
| Carets.SnapExact | internal/editor/view.go:564-577 | on valid UTF-8 that is the last column between runes at or left of the caret |
| Carets.StepRunes | internal/editor/view.go:583-603 | the two loops step rune by rune to the right or to the left |
| Carets.StepExact | internal/editor/view.go:583-603 | on valid UTF-8 a step of delta runes changes the number of runes to the left by exactly delta, stopping at the line's ends |
| Carets.StepsUndo | internal/editor/view.go:583-603 | a step that stays inside the line is undone by the opposite step |
| TextEdits.ApplyTextEdits | internal/lsp/text_edits.go:36-82 | accepts exactly the batches whose ranges convert, are not reversed and are pairwise apart; then the text is the simultaneous substitution of all ranges of the original; an error leaves the buffer untouched and is the verdict the batch calls for |
| TextEdits.VerdictUnique | internal/lsp/text_edits.go:44-66 | there is exactly one result per batch: the first edit in the list that does not convert or is reversed, else the first two neighbours in start order that clash, named by their places in the list |
| TextEdits.OverlapIsReal | internal/lsp/text_edits.go:57-66 | the two edits an overlap error names are different and do touch each other in the original text |
| TextEdits.SortByStartStable | internal/lsp/text_edits.go:57-59 | edits with the same start keep their order in the list |
| TextEdits.OrderDoesNotMatter | internal/lsp/text_edits.go:36-82 | any permutation of an acceptable batch is acceptable and leaves the same text |
| TextEdits.NeighboursDecide | internal/lsp/text_edits.go:57-66 | on sorted edits, comparing neighbours is enough to decide pairwise disjointness |
| TextEdits.SortedDecides | internal/lsp/text_edits.go:52-66 | sorting changes neither whether a batch is accepted nor what it means |
| TextEdits.AddFrontPatch | internal/lsp/text_edits.go:68-80 | substituting one more edit in front of the others is splicing it into the text the others leave |
| TextEdits.ApplyBackwards | internal/lsp/text_edits.go:68-80 | the loop from the last edit to the first leaves the simultaneous substitution |
| Replication.ComputeIncremental | internal/lsp/editor_bridge.go:741-774 | the checks and conversions, in order, give the ranged event and the new shadow, or the reason for refusing |
| Replication.ServerEditExact | internal/lsp/editor_bridge.go:741-774 | a server that reads the UTF-16 range of two byte offsets edits exactly between those offsets |
| Replication.RangedIsRight | internal/lsp/editor_bridge.go:741-774 | a plain change taken against the text it was made on is sent as an edit that turns the server's copy of that text into the text after the change; the only refusal left is a prefix that is not valid UTF-8 |
| Replication.EventIsExact | internal/lsp/editor_bridge.go:741-774 | whatever the change, an event that is sent turns a copy of the shadow into the new shadow |
| Replication.NextKeeps | internal/lsp/editor_bridge.go:610-732 | every step of buffers, engine and handler, opens under a taken URI included, keeps: each shadow is a text of its buffer under lastSeq, the server holds the shadow of every document that is not adrift, and a snapshot under way is not older than anything sent |
| Replication.ReplicationSafe | internal/lsp/editor_bridge.go:657-732 | in every reachable state, with events late, reordered, repeated or lost and documents opened under any URIs, the shadow of a tracked document is the buffer's text at lastSeq, and the server's copy is the shadow, at no newer version, unless the document is adrift: its last full text was lost or a message for another document went to its URI |
| Replication.StepExactly | internal/lsp/editor_bridge.go:610-732 | from a state with every document in step a step leaves every document in step if and only if it is not a losing one: what it sends is news and is lost or reaches a URI that another document has, an open whose lost or overwriting text differs, or a close of a URI that another document needs |
| Replication.RunExactly | internal/lsp/editor_bridge.go:610-732 | over every run, failing sends and shared URIs included, the server's copies are the shadows at every moment if and only if no step of the run is a losing one |
| Replication.OnlyLostTexts | internal/lsp/editor_bridge.go:716-732 | while no URI is shared the losing steps are exactly the lost full texts: a failed resync whose text differs from the shadow, or a failed open of a text the server does not show already |
| Replication.UnsharedRunExactly | internal/lsp/editor_bridge.go:610-732 | so over every run in which no URI is shared the server's copies are the shadows at every moment if and only if no full text is lost |
| Replication.UnsharedRun | internal/lsp/editor_bridge.go:610-651 | while nobody opens a document under a taken URI the two tracking maps are inverse |
| Replication.OpenKeepsMapsExactly | internal/lsp/editor_bridge.go:634-643 | an open keeps the tracking maps inverse exactly when no other document has the URI |
| Replication.NothingAdrift | internal/lsp/editor_bridge.go:716-732 | while full-text sends succeed and no URI is shared, no document is ever adrift, failed closes or not |
| Replication.ShadowNeverDisagrees | internal/lsp/editor_bridge.go:750-766 | the branches for positions outside the shadow and for a disagreeing shadow are unreachable |
| Replication.LastSeqMonotone | internal/lsp/editor_bridge.go:657-732 | over every run in which a document stays open its lastSeq never decreases |
| Replication.ReplicationConverges | internal/lsp/editor_bridge.go:657-732 | once the event of the latest change has been handled and no mutation follows, the server's copy of a document with a URI of its own equals the buffer's text whenever the handler is idle, however many stale events are handled afterwards |
| Replication.ResyncFinishes | internal/lsp/editor_bridge.go:397-405 | for a document the server has open, three undisturbed reads and a successful send complete a resync with the server holding the buffer's text, so a lost text is repaired |
| Replication.LostFullTextDiverges | internal/lsp/editor_bridge.go:716-732 | a concrete run in which a lost full text, re-anchored all the same, ends with the server holding a text the buffer never had |
| Replication.ResyncInStepExactly | internal/lsp/editor_bridge.go:716-732 | a resync leaves its document in step exactly when the server has it open and the send succeeds or the server held that text already; for a document in step before, exactly when the send succeeds or the text is no news |
| Replication.OpenKeepsInStepExactly | internal/lsp/editor_bridge.go:610-651 | one successful open keeps all documents in step exactly when no other document with the same URI has a different text |
| Replication.SharedUriBreaks | internal/lsp/editor_bridge.go:692-709 | of two documents in step under one URI, the first ranged edit sent for one that changes its text takes the other out of step |
| Replication.SharedUriDiverges | internal/lsp/editor_bridge.go:610-709 | a concrete run, every send succeeding, in which two documents opened under one URI with equal texts end with the server holding a text one of them never had |
| Replication.Bridge.Open | internal/lsp/editor_bridge.go:610-651 | the tracking maps and the server after a document is opened, an earlier URI of the buffer forgotten |
| Replication.Bridge.Close | internal/lsp/editor_bridge.go:858-876 | the document leaves both maps and is closed on the server |
| Replication.Bridge.TryIncremental | internal/lsp/editor_bridge.go:692-709 | version bump, send, and a new shadow only if the send succeeded |
| Replication.Bridge.Resync | internal/lsp/editor_bridge.go:716-732 | full text with the next version; shadow and lastSeq move even if the send fails |
| Replication.Bridge.OnBufferChanged | internal/lsp/editor_bridge.go:657-685 | a ranged edit when negotiated and possible, a resync otherwise, nothing for unknown documents |
| Replication.Bridge.OnBufferSaved | internal/lsp/editor_bridge.go:806-839 | a save under another name closes, opens or moves the document; a plain save changes nothing |
| Replication.RangedMessage | internal/lsp/editor_bridge.go:692-709 | a ranged edit carries one version above the record's, which becomes the record's whether or not it arrives |
| Replication.FullMessage | internal/lsp/editor_bridge.go:716-732 | so does a full text |
| Replication.OpenMessage | internal/lsp/editor_bridge.go:610-651 | a session starts at version 1, for the record and, if the message arrives, on the server |
| Replication.InStepApplies | internal/lsp/editor_bridge.go:692-709 | the server takes every ranged edit that is sent for a document in step |
| Replication.DeliveredVersion | internal/lsp/editor_bridge.go:692-732 | whatever change reaches a server that has the document open leaves the server at exactly the record's new version, and that is above the server's old one if and only if the record was not behind |
| Replication.StepVersions | internal/lsp/editor_bridge.go:610-732 | a step leaves no record behind the server if and only if it is not a rewinding one: a lost open of a URI the server has at a later version, or a change that reaches a URI another document has at a version no later |
| Replication.RunVersions | internal/lsp/editor_bridge.go:610-732 | so over every run no record is ever behind if and only if no step rewinds |
| Replication.OnlyLostOpens | internal/lsp/editor_bridge.go:610-651 | while no URI is shared, only such a lost open rewinds |
| Replication.VersionsRise | internal/lsp/editor_bridge.go:692-732 | after every run without such a step, every change that is delivered, ranged or full, raises the server's version to the record's |
| Replication.SafeVersionsRise | internal/lsp/editor_bridge.go:692-732 | after every run whatever, every change delivered for a document that is not adrift does |
| Replication.SendsNeverRewind | internal/lsp/editor_bridge.go:610-732 | runs that lose no full text and share no URI have no rewinding step |
| Replication.LostOpenRewinds | internal/lsp/editor_bridge.go:610-732 | a concrete run in which a document is opened again, the open is lost, and the next full text arrives at the version the server already has |
| ScreenModel.ApplyOk | internal/terminal/screen.go:132-738 | every operation, resizing included, keeps both grids rows by cols, cursors and margins in bounds, and a pending wrap only with the cursor in the last column |
| ScreenModel.Run | internal/terminal/screen.go:132-738 | so every run of operations does |
| ScreenModel.LineFeedConserves | internal/terminal/screen.go:581-627 | a line feed at the bottom of a full-height main screen turns scrollback and grid into the same page plus a blank line, minus its first line exactly when 4000 lines were retained |
| ScreenModel.LineFeedElsewhere | internal/terminal/screen.go:301-308 | any other line feed leaves the scrollback alone |
| ScreenModel.EvictedOnlyGrows | internal/terminal/screen.go:581-627 | only runes and line feeds add an evicted line, at most one each; no operation but clearing changes or removes one |
| ScreenModel.EvictedPrefix | internal/terminal/screen.go:620-627 | over every run without clearing, the lines evicted before are a prefix of those evicted after |
| ScreenModel.AltScreenRoundTrip | internal/terminal/screen.go:692-713 | entering the alternate screen, running anything but leave, reset and resize, and leaving restores main cells, cursor and pen, and the scrollback unless it was cleared |
| ScreenLaws.RuneTouchesOneCell | internal/terminal/screen.go:273-290 | a rune with no wrap pending changes the cell under the cursor and no other cell of either grid |
| ScreenLaws.TypeInLine | internal/terminal/screen.go:273-290 | typing a word that fits into the line writes exactly its cells, left to right, and leaves the cursor behind it or a wrap pending in the last column |
| ScreenLaws.TypeAcrossLines | internal/terminal/screen.go:273-308 | typing any word on a full-height main screen, a wrap pending or not, writes it cell after cell onto the page of evicted and visible lines, across line ends and past the bottom; every other cell stays and the page grows by blank lines only as far as the word reaches |
| ScreenLaws.OutsideRegionStays | internal/terminal/screen.go:508-614 | line insertion, deletion and scrolling never change a line outside the margins |
| ScreenLaws.DeleteUndoesInsertChars | internal/terminal/screen.go:471-503 | deleting as many cells as were inserted gives the row back but for the cells pushed out |
| ScreenLaws.DeleteUndoesInsertLines | internal/terminal/screen.go:508-555 | deleting as many lines as were inserted gives the region back but for the lines pushed out |
| ScreenLaws.SaveRestoreRoundTrip | internal/terminal/screen.go:647-670 | saving, running anything but another save, reset or resize, and restoring puts cursor and pen back |
| ScreenEffects.NewExactly | internal/terminal/screen.go:96-106 | a new screen is at least 1x1, both grids empty, margins full, modes off |
| ScreenEffects.MovesExactly | internal/terminal/screen.go:326-391 | carriage return, backspace and the cursor moves put the cursor at the place they name, clamped, change no cell and cancel a pending wrap |
| ScreenEffects.TabExactly | internal/terminal/screen.go:346-353 | a tab goes to the least multiple of 8 right of the cursor, or to the last column |
| ScreenEffects.EraseLineExactly | internal/terminal/screen.go:438-453 | cell by cell: from, up to or all of the cursor's line is blank by mode, every other cell stays, cursor included |
| ScreenEffects.EraseDisplayExactly | internal/terminal/screen.go:404-426 | cell by cell, the same for the display |
| ScreenEffects.EraseCharsExactly | internal/terminal/screen.go:457-467 | the n cells from the cursor on are blank, every other cell stays |
| ScreenEffects.InsertCharsExactly | internal/terminal/screen.go:471-485 | cells right of the cursor move n columns right, blanks come in, what leaves the line is lost |
| ScreenEffects.DeleteCharsExactly | internal/terminal/screen.go:489-503 | cells move n columns left, blanks come in at the end |
| ScreenEffects.InsertLinesExactly | internal/terminal/screen.go:508-529 | between the margins line i is the old line i-n, the n lines at the cursor are blank, all others stay; outside the margins nothing changes |
| ScreenEffects.DeleteLinesExactly | internal/terminal/screen.go:534-555 | the mirror law, blank lines at the bottom margin |
| ScreenEffects.ScrollUpExactly | internal/terminal/screen.go:560-568 | the region moves n lines up, nothing is recorded |
| ScreenEffects.ScrollDownExactly | internal/terminal/screen.go:571-579 | the region moves n lines down |
| ScreenEffects.LineFeedExactly | internal/terminal/screen.go:294-308 | at the bottom margin, on either screen and in any region, line i is the old line i+1, the bottom line is blank, lines outside and the cursor stay, and the first line is evicted exactly on a full-height main screen; elsewhere the cursor moves one line down, not past the last, and no cell changes |
| ScreenEffects.ReverseLineFeedExactly | internal/terminal/screen.go:312-323 | at the top margin line i is the old line i-1, the top line is blank, lines outside, cursor and scrollback stay; elsewhere the cursor moves one line up, not past the first, and no cell changes |
| ScreenEffects.WrapIsReturnAndFeed | internal/terminal/screen.go:273-290 | with a wrap pending, in any region and on either screen, a rune goes where a carriage return and a line feed lead |
| ScreenEffects.MarginsExactly | internal/terminal/screen.go:632-644 | the margins clamped and taken if in order, else the whole screen; the cursor goes home |
| ScreenEffects.SavedExactly | internal/terminal/screen.go:647-670 | saving keeps cursor and pen; restoring brings them back, clamped, or home and the default pen if nothing was saved |
| ScreenEffects.ModesExactly | internal/terminal/screen.go:673-720 | visibility, bracketed paste, title and clearing the scrollback change exactly that |
| ScreenEffects.AltExactly | internal/terminal/screen.go:692-713 | entering shows a blank grid and puts cursor and pen aside, leaving shows the main cells as they are with cursor and pen as put aside; doing either twice does nothing more |
| ScreenEffects.ResetExactly | internal/terminal/screen.go:725-738 | both grids blank, the main one shown, everything off, size, scrollback and title kept |
| ScreenEffects.ResizeExactly | internal/terminal/screen.go:132-180 | in both grids a cell that fits stays where it is and every other one is empty; cursors clamped, margins full |
| ScreenEffects.PenExactly | internal/terminal/screen.go:743-792 | what each single SGR parameter does to the pen; unknown ones do nothing |
| ScreenEffects.PenInOrder | internal/terminal/screen.go:749-790 | parameters act one after the other |
| ScreenEffects.ExtendedExactly | internal/terminal/screen.go:794-819 | 38 and 48 take the indexed color or the three channels that follow, clamped, and the rest acts next; anything else behind them ends the list |
| ScreenEffects.SgrExactly | internal/terminal/screen.go:743-792 | an SGR changes the pen and nothing else; an empty list is a reset |
| Screens.RingSlotsHold | internal/terminal/screen.go:616-627 | after any pushes the slot of line j holds line j, for every line still retained |
| Screens.ScrolledIs | internal/terminal/screen.go:585-599 | n one-line scrolls are one scroll by n lines, recording the n top lines in order |
| Screens.ShiftUpSeparate | internal/terminal/screen.go:585-599 | moving rows up and adding new ones never makes two rows of the grids or the scrollback share storage |
| Screens.ShiftDownSeparate | internal/terminal/screen.go:523-528 | the same for moving rows down |
| Screens.PushSeparate | internal/terminal/screen.go:593-598 | the row the grid lets go of belongs to the scrollback alone afterwards |
| Screens.ResizedSeparate | internal/terminal/screen.go:148-165 | cutting, padding and keeping rows in both grids keeps all storage apart |
| Screens.Screen.constructor | internal/terminal/screen.go:96-106 | a new screen of at least 1x1, both grids blank, with storage of its own |
| Screens.Screen.CarriageReturn | internal/terminal/screen.go:326-331 | the row storage behaves like the value-level operation: column 0, no wrap pending; storage untouched |
| Screens.Screen.Backspace | internal/terminal/screen.go:334-342 | the row storage behaves like the value-level operation: one column left, stopping at the margin |
| Screens.Screen.Tab | internal/terminal/screen.go:346-353 | the row storage behaves like the value-level operation: the next multiple of 8, at most the last column |
| Screens.Screen.MoveCursor | internal/terminal/screen.go:356-363 | the row storage behaves like the value-level operation: the cursor moved and clamped |
| Screens.Screen.SetCursor | internal/terminal/screen.go:368-375 | the row storage behaves like the value-level operation: the cursor placed and clamped |
| Screens.Screen.SetCursorCol | internal/terminal/screen.go:378-383 | the row storage behaves like the value-level operation: the column placed and clamped |
| Screens.Screen.SetCursorRow | internal/terminal/screen.go:386-391 | the row storage behaves like the value-level operation: the row placed and clamped |
| Screens.Screen.EraseDisplay | internal/terminal/screen.go:404-426 | the row storage behaves like the value-level operation: exactly the cells of the mode are blank, all others as before |
| Screens.Screen.EraseLine | internal/terminal/screen.go:438-453 | the row storage behaves like the value-level operation: exactly the cells of the mode in the cursor's row |
| Screens.Screen.EraseChars | internal/terminal/screen.go:457-467 | the row storage behaves like the value-level operation: n cells from the cursor blank, none shifted |
| Screens.Screen.InsertChars | internal/terminal/screen.go:471-485 | the row storage behaves like the value-level operation: the rest of the row shifted right by the in-place copy, blanks at the cursor |
| Screens.Screen.DeleteChars | internal/terminal/screen.go:489-503 | the row storage behaves like the value-level operation: the rest of the row shifted left by the in-place copy, blanks at the end |
| Screens.Screen.InsertLines | internal/terminal/screen.go:508-529 | the row storage behaves like the value-level operation: the row-by-row loop moves lines down to the bottom margin and puts blank rows at the cursor; nothing outside the region |
| Screens.Screen.DeleteLines | internal/terminal/screen.go:534-555 | the row storage behaves like the value-level operation: the loop moves lines up and puts blank rows at the bottom margin |
| Screens.Screen.ScrollUpLocked | internal/terminal/screen.go:585-599 | the row storage behaves like the value-level operation: the scrolled lines, and the recorded ones only for a full-height main screen |
| Screens.Screen.ScrollUp | internal/terminal/screen.go:560-568 | the row storage behaves like the value-level operation: the region scrolled up, the lines discarded |
| Screens.Screen.ScrollDownLocked | internal/terminal/screen.go:602-614 | the row storage behaves like the value-level operation: the nested loops move the region down by n lines |
| Screens.Screen.ScrollDown | internal/terminal/screen.go:571-579 | the row storage behaves like the value-level operation: the region scrolled down |
| Screens.Screen.PushScrollback | internal/terminal/screen.go:620-627 | append until 4000 lines, then overwrite the oldest and advance the head |
| Screens.Screen.LineFeed | internal/terminal/screen.go:294-308 | the row storage behaves like the value-level operation: scroll at the bottom margin, else move down, else nothing |
| Screens.Screen.ReverseLineFeed | internal/terminal/screen.go:312-323 | the row storage behaves like the value-level operation: scroll down at the top margin, else move up, else nothing |
| Screens.Screen.PutRune | internal/terminal/screen.go:273-290 | the row storage behaves like the value-level operation: the deferred wrap if one is pending, one cell written in place, then advance or arm the next wrap |
| Screens.Screen.ClearScrollback | internal/terminal/screen.go:429-434 | the row storage behaves like the value-level operation: no retained line is left |
| Screens.Screen.SetScrollRegion | internal/terminal/screen.go:632-644 | the row storage behaves like the value-level operation: the clamped margins, or the whole screen when they are not in order; cursor home |
| Screens.Screen.SaveCursor | internal/terminal/screen.go:647-652 | the row storage behaves like the value-level operation: cursor and pen saved |
| Screens.Screen.RestoreCursor | internal/terminal/screen.go:657-670 | the row storage behaves like the value-level operation: cursor clamped and pen restored, or home and the default pen |
| Screens.Screen.SetCursorVisible | internal/terminal/screen.go:673-677 | the row storage behaves like the value-level operation: the mode and nothing else |
| Screens.Screen.SetBracketedPaste | internal/terminal/screen.go:680-684 | the row storage behaves like the value-level operation: the mode and nothing else |
| Screens.Screen.SetTitle | internal/terminal/screen.go:716-720 | the row storage behaves like the value-level operation: the title and nothing else |
| Screens.Screen.SetAltScreen | internal/terminal/screen.go:692-713 | the row storage behaves like the value-level operation: entering puts cursor and pen aside and shows a blank grid, leaving brings them back |
| Screens.Screen.Reset | internal/terminal/screen.go:725-738 | the row storage behaves like the value-level operation: both grids new, modes and saved cursors cleared, scrollback and title kept |
| Screens.Screen.ApplySGR | internal/terminal/screen.go:743-792 | the row storage behaves like the value-level operation: the pen after the parameter list |
| Screens.Screen.Resize | internal/terminal/screen.go:132-165 | the row storage behaves like the value-level operation: both grids cut or padded, cursors clamped, margins and pending wrap reset |
| Screens.Screen.ScrollbackLines | internal/terminal/screen.go:210-230 | the clamped slice of the last 4000 evicted lines, read through the ring, oldest first |
| Screens.Screen.CursorPosition | internal/terminal/screen.go:394-399 | the active cursor |
| Screens.Screen.Snapshot | internal/terminal/screen.go:185-203 | copies of every row of the active grid, cursor, visibility, size, title and the number of retained lines |
| Screens.FoldSGR | internal/terminal/screen.go:749-790 | the loop over the parameters is the fold; a malformed extended color ends it |
| Screens.SliceExactly | internal/terminal/screen.go:210-230 | a request for lines returns, in order, exactly the retained lines with the numbers asked for |
| Screens.SnapshotShows | internal/terminal/screen.go:185-203 | a snapshot shows the cursor where it was placed and, in that cell and no other, the rune that was put there |
| Screens.SnapshotCounts | internal/terminal/screen.go:185-203 | it has the screen's size, the modes and title as set, and counts the lines that can be read back |
| ParserModel.FeedAllOk | internal/terminal/parser.go:128-189 | for arbitrary bytes a partial rune exists only in ground state and is shorter than announced, and the buffers keep their limits |
| ParserModel.ParamsOf | internal/terminal/parser.go:463-484 | at most 33 parameters, each at most 65535 |
| ParserModel.FeedConcat | internal/terminal/parser.go:119-126 | feeding two chunks is feeding their concatenation |
| ParserModel.FeedRunes | internal/terminal/parser.go:145-189 | the UTF-8 encoding of any scalar values but ESC puts each printable rune, executes each C0 control and ignores DEL, in order, and ends idle |
| ParserModel.TextIsPut | internal/terminal/parser.go:145-189 | control-free text, cut anywhere into two writes, puts exactly its runes on the screen |
| ParserModel.FeedBytes | internal/terminal/parser.go:145-183 | any bytes but ESC, valid UTF-8 or not, do in order what they read as: a lead byte with all the continuation bytes it announces is its rune or one replacement, one cut short is a replacement before the byte that cuts it, a stray byte is one, and an unfinished one at the end waits |
| ParserModel.FeedSequence | internal/terminal/parser.go:271-301 | for any bytes between introducer and final byte: C0 controls act at once, and the sequence is dispatched on exactly its parameter bytes if and only if no other byte spoils it and there are at most 128 |
| ParserModel.DelDropsSequence | internal/terminal/parser.go:278-297 | a DEL inside a cursor-up sequence makes it do nothing, where without it the cursor moves |
| ParserModel.ParseJoined | internal/terminal/parser.go:463-484 | parsing undoes printing: numbers joined by semicolons come back capped at 65535, all of them up to 33, beyond that the first 32 and the last |
| ParserModel.CursorReportRoundTrip | internal/terminal/parser.go:406-412 | on a screen of at most 65535 by 65535, the bytes a DSR appends to the reply stream, sent back as a CUP at any later time, restore the reported position |
| ParserModel.TitleIsSet | internal/terminal/parser.go:442-456 | an OSC 0 or 2 with either terminator sets exactly its text as the title, if and only if the payload has at most 4096 bytes |
| ParserModel.ResetAlwaysLands | internal/terminal/parser.go:208-225 | from any state ESC c ends in ground state with the reset as the last effect, after a replacement for a rune cut short |
| ParserEffects.ParamsPrinted | internal/terminal/parser.go:463-484 | printed numbers, any left out, come back as 0 or the number capped at 65535, the first 32 and the last of more than 33 |
| ParserEffects.ColonsSeparate | internal/terminal/parser.go:463-484 | a colon separates parameters as a semicolon does |
| ParserEffects.EndsIdle | internal/terminal/parser.go:271-301 | every sequence of parameters and a final byte leads back to ground state |
| ParserEffects.TooLong | internal/terminal/parser.go:286-291 | with more than 128 bytes of parameters it does nothing |
| ParserEffects.CursorMoves | internal/terminal/parser.go:318-325 | ESC [ n with A, B, C or D moves the cursor max(n, 1) up, down, right or left, clamped, and changes no cell |
| ParserEffects.LineMoves | internal/terminal/parser.go:326-331 | E and F put it in the first column of the line n below or above |
| ParserEffects.CursorPlaces | internal/terminal/parser.go:332-365 | G, d, H and f place it, one-based, missing numbers meaning the first |
| ParserEffects.Erases | internal/terminal/parser.go:338-363 | J, K and X erase exactly the cells of their mode or number |
| ParserEffects.ErasesAll | internal/terminal/parser.go:338-345 | J with 3 erases the whole display and the scrollback |
| ParserEffects.EditsCells | internal/terminal/parser.go:352-355 | @ and P insert and delete cells at the cursor |
| ParserEffects.EditsLines | internal/terminal/parser.go:348-351 | L and M insert and delete lines at the cursor |
| ParserEffects.Scrolls | internal/terminal/parser.go:356-361 | S and T scroll the region up and down; T with several parameters does nothing |
| ParserEffects.SetsMargins | internal/terminal/parser.go:366-372 | r sets the margins, one-based, a bottom of 0 or none meaning the last line |
| ParserEffects.SavesAndRestores | internal/terminal/parser.go:373-376 | s and u save and restore cursor and pen |
| ParserEffects.SetsPen | internal/terminal/parser.go:377-378 | m applies the numbers that count to the pen, in order; no number is a reset |
| ParserEffects.Reports | internal/terminal/parser.go:379-382 | n with 6 appends the one-based cursor position to the reply stream if there is one, and leaves the screen alone |
| ParserEffects.OthersIgnored | internal/terminal/parser.go:383-386 | every other final byte does nothing, and only n adds to the reply stream |
| ParserEffects.ModeSet | internal/terminal/parser.go:388-402 | ESC [ ? n with h or l: 25 is visibility, 47, 1047 and 1049 the alternate screen, 2004 bracketed paste, all else nothing |
| ParserEffects.ModesInOrder | internal/terminal/parser.go:388-402 | a list of modes is set one after the other, as if each had a sequence of its own |
| ParserEffects.PrivateIgnored | internal/terminal/parser.go:308-316 | other private sequences do nothing |
| ParserEffects.ShortEscapes | internal/terminal/parser.go:217-235 | ESC 7, 8, D and M save, restore, feed and reverse-feed |
| ParserEffects.NextLine | internal/terminal/parser.go:229-232 | ESC E is a carriage return and a line feed |
| ParserEffects.EscapeIgnored | internal/terminal/parser.go:242-245 | other bytes after ESC are swallowed |
| ParserEffects.DesignationIgnored | internal/terminal/parser.go:248-263 | ESC, intermediate bytes and a final byte are swallowed as a whole |
| ParserEffects.Controls | internal/terminal/parser.go:193-206 | backspace, the three line feeds and carriage return as effects; other controls and DEL do nothing |
| ParserEffects.Tabulates | internal/terminal/parser.go:193-206 | a tab goes to the next tab stop |
| ParserEffects.CommandExactly | internal/terminal/parser.go:414-456 | for any payload and either terminator, the title is set, to what follows the semicolon, if and only if the command is 0 or 2 and the payload has at most 4096 bytes |
| ParserEffects.CommandAbandoned | internal/terminal/parser.go:430-440 | an ESC inside a payload that does not end it abandons the command and starts the sequence that follows |
| Parsers.Parser.constructor | internal/terminal/parser.go:108-113 | ground state, empty buffers |
| Parsers.Parser.Write | internal/terminal/parser.go:119-126 | the machine and the terminal after a chunk are those of the transducer; the screen object, the buffers and the reply stream end as the value-level step says |
| Parsers.Parser.Feed | internal/terminal/parser.go:128-143 | one byte, by state; the screen object, the buffers and the reply stream end as the value-level step says |
| Parsers.Parser.FeedGround | internal/terminal/parser.go:145-183 | text, controls and partial runes; the screen object, the buffers and the reply stream end as the value-level step says |
| Parsers.Parser.FeedEscape | internal/terminal/parser.go:208-246 | the byte after ESC; the screen object, the buffers and the reply stream end as the value-level step says |
| Parsers.Parser.FeedEscapeIntermediate | internal/terminal/parser.go:248-263 | intermediates swallowed; the screen object, the buffers and the reply stream end as the value-level step says |
| Parsers.Parser.FeedCSI | internal/terminal/parser.go:271-301 | parameter collection and dispatch; the screen object, the buffers and the reply stream end as the value-level step says |
| Parsers.Parser.DispatchCSI | internal/terminal/parser.go:303-386 | the screen calls and replies of each final byte; the screen object, the buffers and the reply stream end as the value-level step says |
| Parsers.Parser.SetPrivateModes | internal/terminal/parser.go:388-402 | one mode after the other; the screen object, the buffers and the reply stream end as the value-level step says |
| Parsers.Parser.ReplyCursorPosition | internal/terminal/parser.go:406-412 | the one-based report, or nothing without a reply writer; the screen object, the buffers and the reply stream end as the value-level step says |
| Parsers.Parser.FeedOSC | internal/terminal/parser.go:414-428 | payload up to 4096 bytes; the screen object, the buffers and the reply stream end as the value-level step says |
| Parsers.Parser.FeedOSCEscape | internal/terminal/parser.go:430-440 | ST, or the ESC starts a new sequence; the screen object, the buffers and the reply stream end as the value-level step says |
| Parsers.Parser.DispatchOSC | internal/terminal/parser.go:442-456 | title commands only; the screen object, the buffers and the reply stream end as the value-level step says |
| Parsers.Parser.ExecC0 | internal/terminal/parser.go:193-206 | the C0 controls; the screen object, the buffers and the reply stream end as the value-level step says |
| Parsers.ParseCSIParams | internal/terminal/parser.go:463-484 | the accumulating loop computes the capped value of every field between separators |
| Framing.FrameIsRead | internal/lsp/jsonrpc.go:398-458 | reading a written frame returns its body and leaves exactly what followed it, for every body within the limit |
| Framing.FramesAreRead | internal/lsp/jsonrpc.go:398-458 | reading the frames of any list of bodies returns those bodies in order and leaves nothing over |
| Framing.WrittenIsRead | internal/lsp/jsonrpc.go:398-458 | writing any bodies one after the other and reading the stream gives back, in order and with nothing left over, exactly those within the limit |
| Framing.BlockIsRead | internal/lsp/jsonrpc.go:495-535 | any block of well-formed header lines counts as its last Content-Length; without one, or with 32 lines or more before the blank one, it is the corresponding error |
| Framing.ReadLocal | internal/lsp/jsonrpc.go:398-423 | a read that did not run out of input is not changed by bytes that arrive later |
| Framing.CutFrame | internal/lsp/jsonrpc.go:398-423 | a frame cut short is always an end-of-input error, never a message |
| Framing.CutStream | internal/lsp/jsonrpc.go:398-423 | a stream of frames cut anywhere yields exactly the bodies of its whole frames |
| Framing.LengthLine | internal/lsp/jsonrpc.go:445-458 | the header line as written is classified as its length |
| Framing.SpellingExactly | internal/lsp/jsonrpc.go:517-522 | the header name matches exactly when it is Content-Length with each letter in either case |
| Framing.LengthExactly | internal/lsp/jsonrpc.go:495-535 | however it is spelled, padded with spaces and tabs, or signed, a length header declares its number, unless the line is over 1024 bytes or the number is negative or beyond 64 bits |
| Framing.NotANumber | internal/lsp/jsonrpc.go:495-535 | a length that is empty or holds anything but digits behind at most one sign is malformed |
| Framing.OthersSkipped | internal/lsp/jsonrpc.go:495-535 | any other header is skipped, whatever its value |
| Framing.Malformed | internal/lsp/jsonrpc.go:495-535 | a line without CR NL at its end, or without a colon, is malformed |
| Framing.OversizedRefused | internal/lsp/jsonrpc.go:398-423 | a frame announcing more than the limit is refused right after its header |
| Framing.Conn.ReadString | internal/lsp/jsonrpc.go:498-501 | everything up to the next newline, or the end of the input |
| Framing.Conn.ReadHeaders | internal/lsp/jsonrpc.go:495-535 | the loop over header lines decides as the header block says and consumes exactly what it read |
| Framing.Conn.Read | internal/lsp/jsonrpc.go:398-423 | the body or the error, and the unread rest of the stream |
| Framing.Conn.Write | internal/lsp/jsonrpc.go:431-458 | one frame appended, or nothing when the body is over the limit |
| Search.FoldPrefixExact | internal/editor/search.go:98-113 | a folded prefix of n bytes is found if and only if the text's first n bytes are whole runes that fold to the query's runes |
| Search.FoldPrefixLen | internal/editor/search.go:98-113 | the two-index loop computes that prefix |
| Search.FindAll | internal/editor/search.go:23-64 | the positions of exactly the reported matches: sound, disjoint, in order, and complete in that every other match starts inside one of them |
| Search.ReportUnique | internal/editor/search.go:23-50 | those properties determine the list of matches |
| Search.MatchUnique | internal/editor/search.go:23-50 | two matches at one place are the same match |
| Search.AnswerUnique | internal/editor/search.go:23-64 | there is exactly one right answer to a search, and it is in document order |
| Search.NextMatch | internal/editor/search.go:74-92 | the nearest match strictly in the direction asked for, or the one at the far end when there is none |
| TextLayout.VisualColumn | internal/ui/textlayout.go:16-37 | the loop computes the display column, clamped to the line |
| TextLayout.VisualOrder | internal/ui/textlayout.go:16-37 | display columns increase strictly from caret to caret |
| TextLayout.ByteColForVisual | internal/ui/textlayout.go:43-75 | the caret whose display column is nearest, the left one of two equally near, for every line, column and tab width |
| TextLayout.NearestUnique | internal/ui/textlayout.go:43-75 | there is only one such caret |
| TextLayout.ClickRoundTrip | internal/ui/textlayout.go:16-75 | looking up a caret's own display column returns that caret |
| TextLayout.VisualGrows | internal/ui/textlayout.go:16-37 | from one caret to the next the column grows by exactly one, or over a tab to the next multiple of the tab width, which is 4 unless positive |
| TextLayout.VisualWithoutTabs | internal/ui/textlayout.go:16-37 | without tabs the column is the number of runes to the left |
| TextLayout.VisualRounds | internal/ui/textlayout.go:16-37 | any byte column counts as the first caret at or after it, or the line's end |
| Supervisor.BackoffExact | internal/lsp/supervisor.go:256-334 | at every loop head of every run the delay is min(base * 2^attempt, cap), if and only if the base does not exceed the cap |
| Supervisor.AttemptsCount | internal/lsp/supervisor.go:256-334 | while no session is stable every turn back to the loop head is one more attempt, never more than maxRestarts |
| Supervisor.GivesUp | internal/lsp/supervisor.go:256-334 | without a stable session the loop has finished after maxRestarts + 1 connects |
| Supervisor.CrashLoop | internal/lsp/supervisor.go:280-285 | failing to start every time, it fails for good at exactly the attempt after maxRestarts |
| Supervisor.EventsFollow | internal/lsp/supervisor.go:370-382 | the published states follow the life cycle and end in Stopped or Failed exactly when the loop has finished |
| Supervisor.LoopsExactly | internal/lsp/supervisor.go:256-334 | the loop goes on exactly while every turn fails, is within the restarts since the last stable session and waits its delay; its attempt at every head is the number of turns since that session, that one included |
| Supervisor.FailsExactly | internal/lsp/supervisor.go:271-334 | a run has failed if and only if its first turn that does not come back is a permanent start error, or a failure with no restart left since the last stable session |
| Supervisor.StopsExactly | internal/lsp/supervisor.go:261-334 | a run has stopped if and only if that turn is a cancellation, a stop request, an intentional exit, or a failure whose wait was cut short |
| Supervisor.StableStartsOver | internal/lsp/supervisor.go:309-331 | a stable session that ends by itself is restarted as attempt 1 after the base delay, whatever the count and the delay were |
| Supervisor.TurnTells | internal/lsp/supervisor.go:256-334 | the events of a turn, with attempts counted from the last stable session |
| Supervisor.WaitsPromised | internal/lsp/supervisor.go:282-331 | every announced restart is waited for once, for min(base * 2^(attempt - 1), cap), if the base does not exceed the cap |
| Supervisor.Supervisor.TakeTurn | internal/lsp/supervisor.go:262-333 | one turn of the loop publishes the events and returns the head that the value-level turn says, with no bridge left behind |
| Supervisor.Supervisor.RunLoop | internal/lsp/supervisor.go:256-334 | the loop over all turns; every pair of state and bridge that was ever visible has a bridge only in state Ready |
| Supervisor.Supervisor.Shutdown | internal/lsp/supervisor.go:339-349 | the session is cleared before another state is set |
| Supervisor.Supervisor.SetState | internal/lsp/supervisor.go:370-382 | state and published event together; no state but Ready while there is a bridge |

## Left out

- JSON: message bodies are bytes, and a server receives the text as sent; the replacement that encoding makes in text that is not valid UTF-8 is not modelled.
- Document URIs are opaque values, and a server that is told to open a URI it has open takes the new text.
- One handler goroutine per document is assumed, as the engine loop provides; replay of open documents running beside it is not modelled.
- Each locked method of Buffer, View, Screen, Parser and Supervisor is one atomic step, and observers do not re-enter the buffer.
- Buffer.Insert, Delete, Undo and Redo return the change they announce instead of calling a list of observers; the views are notified from the returned change.
- The documents the bridge tracks are values in its map, not shared objects, and the version counter is unbounded.
- Integers are unbounded: 64-bit overflow of positions, sequence numbers and durations is not modelled, except in the Content-Length value. Cursor arithmetic stays far below it because parameters are at most 65535.
- Supervisor durations: doubling is exact, which is what the code does for caps below half the range of a 64-bit duration.
- ByteOffset and the other position errors carry no message text.
- Screens.Screen.EraseDisplay: the separate loops of its three modes are one loop that decides line by line; the cells written are the same.
- Screens.Screen.Resize: the two passes over a grid (add rows, then fit every row) are one pass; capacity limits of cut slices are not modelled.
- Search: case folding is any function that maps runes to one rune exactly when they fold to each other; the walk through simple-fold orbits and the library substring search are not modelled in detail.
- TextLayout and Screens: display width of wide characters, combining marks and grapheme clusters, which the source does not treat either.
- Framing.Conn: the streams are the bytes unread and the bytes written; blocking, partial writes and logging are not modelled.
- Supervisor: connecting, waiting and process handling are the environment's choices in a Turn.
- The save notification and the formatting, hover, completion, diagnostics and replay paths of the bridge, which read positions but do not change the mirrored text.
- The engine, files, processes, pseudo-terminals, configuration and the whole window: input and output without deep state.
