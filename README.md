# advanced-input, modelled in Dafny

advanced-input decorates a browser text control (an `<input>` or a
`<textarea>`) with an overlay that is kept aligned with the text. The overlay
shows the selection, client "marks" (named highlighted ranges), a trailer
after the text and the untyped part of an inline suggestion. The repository
holds four revisions of the same idea, and each is modelled here in its own
module:

- `Controller` (controller.js): the controller `build` returns.
  - It keeps a snapshot of the control and an insertion-ordered map of marks.
  - Three flags record work owed to the overlay (value, markup, trailer).
  - A per-frame pass reconciles them with the control, calls the client's
    `update` callback and redraws.
- `NewController` (new/controller.js): the later controller.
  - The pass runs for owed markup too, and drops the marks as soon as it
    sees an edit.
  - `replaceWith` and the `value` setter only edit the control.
- `Upgrade` (index.js `upgrade`): decorates an existing control.
  - Marks carry the text they were made on and are pruned when the text
    changes.
  - The suggestion is matched case-insensitively against the end of the
    text, and its untyped rest is drawn after the whole text.
- `LegacyUpgrade` (main.js `upgrade`): the oldest revision.
  - It uses a different drift rule and has no marks.
- `Demo` (new/demo.js): the demo page's word-under-caret highlighter, run
  against controller.js's controller.

Shared pieces:

- `Frames`: the three copies of the per-animation-frame event coalescer
  (util.js `dedup` and the two `dedupListener`s). A browser frame is the
  explicit `RunFrame` step.
- `Util`: util.js's event-list splitting, `drag` dispatch and the
  self-rescheduling `checker`.
- `Drift`: both rules for moving an offset through a replacement.
- `Autocomplete`: both suggestion matchers, each as a specification function
  plus the loop that the source runs.
- `Surface`: the host control as a record the environment changes between
  frames. It covers the WebIDL offset clamping of `setSelectionRange`, value
  assignment (the caret moves to the end when the text changes) and
  `execCommand('insertText')`, each with the events it fires.
- `Text`: JavaScript `substr`/`substring`/`replace`/`toLowerCase`, with their
  out-of-range behaviour.
- `JsMaps`: a JavaScript `Map` with its key order.

The DOM, the clock and the client's callbacks are parameters.

- A client callback that runs during a pass is the gap between the two
  methods that model the pass (`StartPass`, then `FinishTick` or
  `FinishPass`). Between them the client may call `Mark` and the other
  methods.
- Whether the browser supports `execCommand` on the control is the
  `nativeEdit` flag.
- The answer of the client's `spaceKey` callback is `spaceHandled`.
- For a vertical key, whether the geometry and the client's `nav` callback
  end in a swallowed key is `navTaken` in the two controllers. In index.js
  it is `focusLost`: whether focus left the control while the `nav` event
  was handled. Shift is the `shift` flag.
- The word-character class of the demo's regular expression is `isWord`.

## Model

| member | source | states |
|---|---|---|
| Text.Substr | controller.js:285 | `substr(start, length)` is the plain slice when the range is inside the string, and empty for a non-positive length |
| Text.SubstrFrom | controller.js:291 | `substr(start)` is the suffix from `start` when that is inside the string, and empty past its end |
| Text.Substring | index.js:170 | `substring(a, b)` is the slice between the two ends in whichever order they are given |
| Text.StripNewlines | controller.js:371-373 | dropping line feeds keeps exactly the other characters, leaves no line feed, and is the identity on text without one |
| Text.StripNewlinesAppend | controller.js:371-373 | dropping line feeds works piece by piece: on `a + b` it gives the result for `a` followed by the result for `b`, so the kept characters stay in order |
| Text.StripNewlinesOne | controller.js:371-373 | a single line feed becomes empty text; any other single character is kept |
| Text.StripNewlinesCount | controller.js:371-373 | the result is shorter than the input by exactly its number of line feeds |
| Text.NewlinesToSpaces | controller.js:345 | each line feed becomes a space position by position; nothing else changes and the length is kept |
| Text.Lower | index.js:50-52 | lower-casing maps each character separately (ASCII letters only) and keeps the length |
| Surface.ClampOffset | controller.js:319 | an offset given to `setSelectionRange` ends inside the text, and an in-range offset is kept |
| Surface.DirectionArgument | index.js:431 | the direction argument is kept only when it is forward or backward; the result is never the empty direction |
| Surface.Selecting | controller.js:319 | `setSelectionRange` leaves a valid, ordered selection and keeps the text; an in-range ordered pair is taken exactly |
| Surface.Assign | controller.js:375 | assigning a different text moves the caret to its end; assigning the same text changes nothing |
| Surface.InsertText | controller.js:299 | the native insert replaces the selection by the text and puts the caret after it |
| Surface.Edit | controller.js:299-305 | the control ends holding the expected text in every case; the native path fires `input`, adds `change` when it missed, and the fallback fires only `change` |
| Surface.InferDirection | controller.js:114-127 | a reported direction is kept unless it is `none` on a range; then an unmoved selection keeps the previous guess, and otherwise forward iff the start stayed, backward iff it moved |
| Surface.EscapeTarget | controller.js:197-210 | a caret goes to the end unless it is there already (then nothing happens); a range collapses onto its start iff it was made backwards, onto its end otherwise |
| Drift.Expected | controller.js:291 | the expected text is the splice of the range when the range lies inside the text, and just the new text when the range covers it all |
| Drift.Clamped | controller.js:551-560 | a drifted position ends at or before the end of the new text iff it was at or before the old end; earlier positions never move right; non-negative stays non-negative |
| Drift.ClampedCases | controller.js:551-560 | the three branches of `drift`, exactly at their boundaries, including the position at the old end and the empty range |
| Drift.ClampedBounds | controller.js:551-560 | a position inside the old text lands inside the new text |
| Drift.ClampedMonotone | controller.js:313-314 | drifting keeps the order of two positions, so the drifted selection stays ordered |
| Drift.ClampedOverReplacedRange | controller.js:308-317 | drifting the replaced range's own ends gives exactly the inserted text's range for a non-empty range, and a caret after it for an empty one |
| Drift.ClampedKeepsContext | controller.js:551-560 | a position before the edit keeps the text before it, a position after the edit keeps the text after it, and a position inside the replaced range lands inside the inserted text |
| Drift.Interior | main.js:24-31 | older rule: positions strictly inside the range go to the end of the new text, positions at or before its start stay, non-negative stays non-negative |
| Drift.InteriorCases | main.js:24-31 | the three branches of the older `drift`, exactly at their boundaries |
| Drift.InteriorBounds | main.js:24-31 | a position inside the old text lands inside the new text under the older rule |
| Drift.InteriorMonotone | main.js:249-251 | the older rule keeps the order of two positions |
| Drift.InteriorOverReplacedRange | main.js:249-251 | under the older rule, replacing a non-empty range yields exactly the inserted text's range, and a caret ends after it |
| Drift.ClampedVersusInterior | main.js:24-31 | the two rules differ exactly on positions strictly inside the range and before the end of the inserted text; there the newer rule keeps them and the older one moves them |
| Drift.DriftedSelectionInside | controller.js:313-319 | both drifted selection ends stay ordered and inside the expected text |
| Autocomplete.Window | index.js:51-52 | the searched window runs from a suggestion's length before the caret to the end of the text, lower-cased |
| Autocomplete.FirstMatch | index.js:54-58 | the first index from which the suggestion starts with the window's rest, with no earlier such index; `None` iff there is none |
| Autocomplete.Overlap | index.js:43-62 | -1 with no suggestion; otherwise the length of the LONGEST window suffix the lower-cased suggestion starts with; with none, 0 iff the caret is at the end, else -1 |
| Autocomplete.AutocompleteSuffix | index.js:43-62 | the source's search loop computes exactly `Overlap` |
| Autocomplete.OverlapTypedPrefix | index.js:43-62 | with "wor" typed before the caret, "world" overlaps by 3 |
| Autocomplete.OverlapNothingTypedAtEnd | index.js:60-61 | an unmatched suggestion gives 0 at the end of the text and -1 before it |
| Autocomplete.Longest | main.js:48-53 | the length of the longest non-empty window suffix that the suggestion starts with, 0 when there is none |
| Autocomplete.Remainder | main.js:40-57 | `None` with no suggestion; otherwise the suggestion after its longest typed part (compared without lower-casing the suggestion); with no typed part, the whole suggestion at the end of the text and `None` before it |
| Autocomplete.AutocompleteRemainder | main.js:40-57 | the source's search loop computes exactly `Remainder` |
| Autocomplete.RevisionsAgree | main.js:40-57 | for a suggestion without capitals, the older remainder is exactly what the newer revision shows after its count |
| JsMaps.JsMap.Get | controller.js:405 | `get` finds exactly the stored keys and their values |
| JsMaps.JsMap.Set | controller.js:410 | `set` stores the value; a new key goes last and an existing key keeps its place; keys stay unique |
| JsMaps.JsMap.Delete | controller.js:412 | `delete` removes only that key, keeps the others in order, and changes nothing for an absent key |
| JsMaps.JsMap.Values | controller.js:167 | `values()` lists the values in key insertion order |
| JsMaps.Empty | controller.js:98 | `clear()` leaves no key and no entry |
| Frames.TypesOf | util.js:22-24 | the recorded types are exactly those of the signals that carried an event |
| Frames.TypesOfAppend | util.js:22-24 | one more signal adds exactly its own type |
| Frames.Dedup.constructor | util.js:12-13 | no frame requested and an empty set |
| Frames.Dedup.Signal | util.js:14-25 | the first signal while no frame is pending clears the set; every signal leaves a frame pending and adds its event's type |
| Frames.Dedup.Trigger | util.js:31 | the manual trigger records its type only when it is a non-empty string |
| Frames.Dedup.RunFrame | util.js:17-20 | the handler runs iff a frame was pending and receives the live set, which is not cleared |
| Frames.Listener.constructor | controller.js:516-519 | no frame requested and an empty set |
| Frames.Listener.Signal | controller.js:522-536 | an event adds its type, a manual trigger adds nothing, and a frame is left pending |
| Frames.Listener.RunFrame | controller.js:530-535 | the handler runs iff a frame was pending and receives a copy; the set is cleared |
| Frames.BlankListener.constructor | new/controller.js:352-355 | no frame requested and an empty set |
| Frames.BlankListener.Signal | new/controller.js:358-370 | every signal records its type, a manual one as the empty string, and a frame is left pending |
| Frames.BlankListener.RunFrame | new/controller.js:364-369 | the handler runs iff a frame was pending and receives a copy; the set is cleared |
| Frames.BlankTypesOf | new/controller.js:359 | the recorded types are those of the events, plus the empty string iff there was a manual trigger |
| Frames.BlankTypesOfAppend | new/controller.js:359 | one more signal adds exactly its recorded type |
| Frames.DedupBurst | util.js:14-25 | any burst of signals before a frame makes that frame run the handler exactly once with all their types, and the next frame runs nothing |
| Frames.ListenerBurst | controller.js:522-536 | the same for controller.js's coalescer |
| Frames.BlankListenerBurst | new/controller.js:358-370 | the same for new/controller.js's coalescer, where manual triggers appear as the empty type |
| Util.TokenLength | util.js:9 | the length of the leading run of non-space characters: all non-space, followed by a space or the end |
| Util.SplitEvents | util.js:8-10 | splitting on whitespace and dropping empty pieces gives only non-empty, space-free names |
| Util.TokenLengthOfName | util.js:9 | a name followed by a space or the end is read as one whole token |
| Util.SplitJoin | util.js:8-10 | splitting a space-separated list of names gives back exactly those names |
| Util.DragStarter | util.js:73-81 | a type starting with "mouse" picks the mouse tracker iff, "touch" the touch tracker iff, and anything else is the "bad event type" error |
| Util.Checker.constructor | util.js:89-101 | creation runs the step once; a frame is pending iff the step asked to continue |
| Util.Checker.Kick | util.js:103-111 | the kick requests a frame only when none is pending and never runs the step itself |
| Util.Checker.RunFrame | util.js:92-99 | a pending frame runs the step once and re-requests a frame iff the step answers true; otherwise nothing changes |
| Util.FramesRun | util.js:92-99 | the number of frames run is at most the number of answers, and 0 when creation answered false |
| Util.FramesRunAppend | util.js:92-99 | one more frame runs the step iff every earlier answer was true |
| Util.FramesRunStopsAtFirstFalse | util.js:92-99 | the loop runs up to and including the first frame answering false |
| Util.FramesRunAllTrue | util.js:92-99 | with every answer true, every frame runs the step |
| Util.RunChecker | util.js:89-112 | driven through frames, the step runs once at creation plus `FramesRun` times, and a frame is still pending iff every answer was true |
| Controller.RenderAnnotation | controller.js:495-506 | a row is the text before the range, the span and the text after; without override text the span is the range's own text and the three pieces reassemble the text; the override text replaces the span |
| Controller.SelectionRow | controller.js:138-143 | the selection row is the text before the selection, the selected text and the text after it, whichever order the two ends are given in, and the three reassemble the text |
| Controller.Rows | controller.js:166-185 | one row per mark in insertion order, then, with a trailer, the whole text followed by a zero-width space and the trailer |
| Controller.UpdatedText | controller.js:285-289 | on a multi-line control the inserted text is exactly the handler's answer for the replaced text; on a single-line control it is that answer with its line feeds dropped, so it holds none |
| Controller.EscapeFollowsMovedEnd | controller.js:197-210 | a range made with the mouse (reported without direction) collapses on Escape onto the end that moved |
| Controller.InputController.constructor | controller.js:51-61 | empty control, snapshot with the impossible start -1, no marks, and one pass requested |
| Controller.InputController.RunFrame | controller.js:84-94 | a frame runs a pass iff the coalescer was pending, and consumes its set |
| Controller.InputController.StartPass | controller.js:87-145 | no pass without an edit, a selection move or owed work; otherwise `update` hears whether any value changed, an outside edit drops every mark, the snapshot copies the control with the inferred direction, and only the selection row is redrawn |
| Controller.InputController.DropStaleMarks | controller.js:95-112 | marks go on an outside edit (a trailer change alone keeps them); the owed value change is settled only here; the sizing text is redrawn |
| Controller.InputController.Record | controller.js:114-145 | the snapshot takes the control's values and the inferred direction; the first overlay row becomes the selection row |
| Controller.InputController.FinishTick | controller.js:150-185 | after `update`, a trailer set during it is drawn; after a value or markup change the overlay is the selection row, the marks in order and the trailer row, and is otherwise unchanged |
| Controller.InputController.HostEvent | controller.js:83-84 | the control takes the new state; only the ten content events reach the coalescer, which records the type and requests a frame; nothing else changes and nothing is redrawn |
| Controller.InputController.Find | controller.js:423-426 | a mark is found iff it is stored; what is found is the stored mark itself (start, end and part name `mark-` plus its name) |
| Controller.InputController.Mark | controller.js:403-421 | sets or removes only that mark; a new name goes last in the key order, a re-set one keeps its place, a removed one leaves the others in order; re-setting the same range or removing an absent name is a no-op; otherwise markup is owed and a pass requested unless one is running |
| Controller.InputController.ReplaceWith | controller.js:281-330 | the snapshot becomes the expected text with both ends drifted; replacing the selection selects the new text (a caret ends after it); the control agrees; every mark goes; the new text's range is returned |
| Controller.InputController.Settle | controller.js:306-327 | snapshot and control take the drifted ends, every mark goes, and a value change is owed |
| Controller.InputController.EditSurface | controller.js:293-305 | the target is selected first, and the control ends holding the expected text, firing only `input` and/or `change` |
| Controller.InputController.SignalAll | controller.js:299-305 | each dispatched event reaches the coalescer |
| Controller.InputController.SetValue | controller.js:370-385 | the text (without line feeds when single-line) goes to snapshot and control, the caret to its end, `change` is fired and every mark dropped |
| Controller.InputController.SetMultiline | controller.js:432-434 | only the flag changes |
| Controller.InputController.SetTrailer | controller.js:440-451 | an unchanged trailer is a no-op; a new one owes a sizing and a markup redraw and requests a pass unless one is running |
| Controller.InputController.SelectAll | controller.js:478-481 | the whole text is selected and a pass requested |
| Controller.InputController.KeyDown | controller.js:195-273 | the coalescer sees `keydown`; Escape moves the caret per `EscapeTarget` and is swallowed iff it moved it; Space is swallowed iff the callback says so; a vertical key is swallowed iff Shift is up and the nav decision is taken; Enter and every other key pass |
| Controller.InputController.Paste | controller.js:333-347 | a single-line paste with line feeds is swallowed and replayed over the selection with spaces: the snapshot becomes the splice with both selection ends drifted, the control shows it selected that way, and the marks are dropped; anything else passes through untouched; the pass, the owed work, the flags and the overlay stay as they were |
| Controller.IdleFrameIsQuiet | controller.js:87-94 | once settled, a frame in which nothing changed runs no pass |
| Controller.ReplaceKeepsReportingValueChange | controller.js:95-100 | after `replaceWith`, even a pass caused by a no-op click reports a value change, because only an outside edit or a trailer settles the owed one |
| Controller.OutsideEditDropsMarks | controller.js:95-99 | a mark survives the pass it requested and is gone after a pass that sees an outside edit |
| Controller.TrailerKeepsMarks | controller.js:95-99 | a trailer change in the same pass as a new mark keeps the mark |
| NewController.RenderAnnotation | new/controller.js:331-342 | for a range inside the text, a row is the text before the range and the range's text plus a zero-width space, nothing after; an empty or reversed range spans only the zero-width space |
| NewController.SelectionRow | new/controller.js:114-122 | the selection row is the text before the selection, then the selected text plus a zero-width space, nothing after, whichever order the two ends are given in |
| NewController.Rows | new/controller.js:124-133 | one row per mark in insertion order |
| NewController.InputController.constructor | new/controller.js:35-43 | empty control, snapshot with start -1, no overlay, and one pass requested by an empty-typed signal |
| NewController.InputController.RunFrame | new/controller.js:64-74 | a frame runs a pass iff the coalescer was pending, and consumes its set |
| NewController.InputController.StartPass | new/controller.js:64-112 | no pass without an edit, a selection move or owed markup; an edit redraws the sizing text and drops every mark before `update` hears of it; the snapshot copies the control |
| NewController.InputController.FinishTick | new/controller.js:114-141 | after an edit or owed markup the overlay is the selection row and the marks in order; otherwise only a shown selection row is replaced |
| NewController.InputController.HostEvent | new/controller.js:63-64 | only the ten content events reach the coalescer |
| NewController.InputController.Mark | new/controller.js:293-310 | the name `selection` is the error; otherwise the mark is set (even unchanged) or removed and markup owed; a new name goes last in the key order, a re-set one keeps its place, a removed one leaves the others in order; removing an absent name is a no-op |
| NewController.InputController.ReplaceWith | new/controller.js:222-244 | the control ends holding the snapshot's text with the range replaced by the handler's answer, line feeds included; snapshot and marks wait for the next pass |
| NewController.InputController.SignalAll | new/controller.js:235-241 | each dispatched event reaches the coalescer |
| NewController.InputController.SetValue | new/controller.js:270-275 | only the control's text changes, without line feeds when single-line; no pass is requested |
| NewController.InputController.SetMultiline | new/controller.js:316-318 | only the flag changes |
| NewController.InputController.KeyDown | new/controller.js:151-215 | the coalescer sees `keydown`; Escape as in controller.js; Enter is swallowed iff single-line; a vertical key is swallowed iff Shift is up, the snapshot's selection is a caret and the nav decision is taken; every other key passes |
| NewController.InputController.Paste | new/controller.js:247-261 | a single-line paste with line feeds is swallowed and replayed over the selection with spaces; otherwise the control is untouched; the snapshot, the marks, the pass, the owed markup, the flag and the overlay stay as they were |
| NewController.ReplaceIsSettledOnce | new/controller.js:67-85 | the pass after a replace reports the edit and drops the marks, and a later idle pass runs nothing |
| NewController.SetValueWaitsForAnEvent | new/controller.js:270-275 | after the setter no pass runs although the control differs from the snapshot |
| Upgrade.Current | index.js:179-184 | the kept keys are exactly those whose mark was made on the given text, in order |
| Upgrade.WithoutAppend | index.js:182 | deleting a key from a concatenation deletes it from both parts |
| Upgrade.CurrentStep | index.js:179-184 | one more walked key is kept iff its mark was made on the text |
| Upgrade.Unwalked | index.js:179 | among unique keys, the one being walked occurs nowhere else |
| Upgrade.PruneStep | index.js:182 | deleting the walked key removes only it |
| Upgrade.PrunedAtEnd | index.js:179-184 | having walked every key gives the pruned map |
| Upgrade.KeysStep | index.js:180-183 | after one step of the loop the keys are the kept walked keys followed by the unwalked ones |
| Upgrade.PruneKey | index.js:180-183 | one loop step deletes the key iff its mark is stale and keeps the loop invariant |
| Upgrade.Prune | index.js:177-185 | exactly the marks made on another text are deleted, the others keep their values and order |
| Upgrade.MarkSpans | index.js:202-208 | one span per mark in insertion order, with its start, length and class `_` plus the name |
| Upgrade.SpanRow | index.js:229-247 | an in-range span with positive length is the text before it, its own text and the text after it, which reassemble the text; a zero-length span is the text before its start, with neither text nor a rest |
| Upgrade.Rows | index.js:229-251 | one row per annotation in the same order |
| Upgrade.Shown | index.js:211-217 | a suggestion is drawn iff the selection is a caret and `found` is not -1, as a zero-width space and the untyped rest |
| Upgrade.Annotations | index.js:195-225 | the selection span first, then the marks in order, then for a caret with a non-zero `found` the trailer counted back from the end |
| Upgrade.EscapeCaret | index.js:329-340 | a caret goes to the end even when it is there already; a range collapses onto its start iff it was made backwards |
| Upgrade.EscapeRevisionsAgree | index.js:329-340 | the controllers' Escape and this one agree wherever the controllers move the caret; they differ only for a caret already at the end |
| Upgrade.Upgraded.constructor | index.js:65-77 | the snapshot holds the control's text, start and end -1 and the empty direction; a pass is requested with no type recorded |
| Upgrade.Upgraded.RunFrame | index.js:137-147 | a frame runs a pass iff the coalescer was pending |
| Upgrade.Upgraded.StartPass | index.js:137-190 | no pass without an edit or a selection move (a bare request cannot force one); the snapshot copies the control with the inferred direction, `data-selection` holds a range's text, and an edit prunes stale marks |
| Upgrade.Upgraded.FinishPass | index.js:192-251 | the render text is the snapshot's text plus the shown suggestion measured at the snapshot's caret, and the drawn annotations are `Annotations` of the control |
| Upgrade.Upgraded.HostEvent | index.js:136-137 | a content event leaves a frame requested |
| Upgrade.Upgraded.Mark | index.js:456-469 | stores the mark with the control's current text, or removes it; removing an absent name answers false and requests nothing; a new class name goes last in the key order, a re-set one keeps its place, a removed one leaves the others in order; other marks are untouched |
| Upgrade.Upgraded.AutocompleteMatch | index.js:475-480 | -1 for a range, otherwise the overlap at the control's caret |
| Upgrade.Upgraded.SetSuggest | index.js:485-488 | a missing suggestion is the empty one, and a pass is requested |
| Upgrade.Upgraded.Replace | index.js:412-433 | the control's current text gets the replacement, and its selection becomes the snapshot's ends drifted by the newer rule, in the snapshot's direction |
| Upgrade.Upgraded.SignalAll | index.js:417-423 | each dispatched event leaves a frame requested and records at most its type |
| Upgrade.Upgraded.KeyDown | index.js:325-379 | Escape moves the caret per `EscapeCaret` and is swallowed only for a range; a vertical key is swallowed iff focus left the control during the `nav` event; every other key passes and leaves the control |
| Upgrade.SuggestionShowsRemainder | index.js:210-225 | after "hello wor" with the suggestion "world" the pass draws "ld" and classes "wor" as the trailer |
| Upgrade.MarkWaitsForAChange | index.js:143-147 | a mark alone is stored but not drawn: the pass it requests sees no change and does nothing |
| Upgrade.EditDropsOlderMarks | index.js:177-185 | a mark made on one text is gone after the pass that sees the text edited |
| LegacyUpgrade.SelectionRow | main.js:136-154 | the selection row is the text before the selection and the selected text, nothing after |
| LegacyUpgrade.Shown | main.js:157-163 | a caret with a non-empty untyped rest shows exactly that rest |
| LegacyUpgrade.Legacy.constructor | main.js:60-68 | the snapshot holds the control's text, ends -1 and the empty direction; a pass is requested |
| LegacyUpgrade.Legacy.RunFrame | main.js:106-113 | a frame starts a pass only if the coalescer was pending and the control differs from the snapshot |
| LegacyUpgrade.Legacy.StartPass | main.js:106-131 | a pass runs iff the text or the bounds changed; the snapshot copies all four fields, the direction as reported; `data-selection` holds a range's text |
| LegacyUpgrade.Legacy.FinishPass | main.js:133-163 | the render text is the snapshot's text plus, for a caret, the shown remainder; the selection row is drawn |
| LegacyUpgrade.Legacy.HostEvent | main.js:105-106 | a content event leaves a frame requested |
| LegacyUpgrade.Legacy.SetSuggest | main.js:261-263 | a missing suggestion is the empty one; no pass is requested |
| LegacyUpgrade.Legacy.Replace | main.js:232-256 | the control gets the replacement of the target (its own selection by default); only the snapshot's ends are drifted, by the older rule, and its text is left stale |
| LegacyUpgrade.Legacy.SignalAll | main.js:241-247 | each dispatched event leaves a frame requested |
| LegacyUpgrade.ReplaceSelectionSpansText | main.js:249-251 | replacing the snapshot's non-empty selection makes it span exactly the new text; a caret ends after it |
| LegacyUpgrade.SuggestionShownAtEnd | main.js:157-163 | with the caret at the end, the first pass runs and shows the suggestion's remainder |
| LegacyUpgrade.RemainderTypedPrefix | main.js:40-57 | with "wor" typed, the remainder of "world" is "ld" |
| LegacyUpgrade.ReplaceIsSeenNextFrame | main.js:109-119 | after `replace` the next frame sees the edit and the snapshot takes the control's own selection, not the drifted one |
| Demo.LeftRun | new/demo.js:20 | the longest run of word characters the text ends with |
| Demo.RightRun | new/demo.js:21 | the longest run of word characters the text starts with |
| Demo.FindMark | new/demo.js:23-43 | nothing for a range; otherwise the maximal non-empty word run around the caret (word characters inside, non-word or the edge on both sides), or nothing iff the caret touches no word character |
| Demo.OnSelect | new/demo.js:45-50 | run from a pass of controller.js's controller, the `highlight` mark (stored under the part name `mark-highlight`) becomes the word `findMark` finds in the snapshot around its caret, or is removed when there is none; the other marks, the snapshot and the control are untouched, and no further frame is requested |

## Left out

- Layout and pixels. The overlay is modelled as rows of text (before, span,
  after). The following are not modelled:
  - the `rows` attribute and `minRows`;
  - zoom and translate;
  - `scrollLeft` and `viewportChangeHint`;
  - `cursor()`;
  - how the vertical-key `nav` decisions are reached, which depends on
    element geometry and on the `nav` callback. Only their outcome is
    modelled, as the `navTaken` and `focusLost` parameters; `nav`'s
    `stopPropagation` is not modelled.
- The real DOM ordering of the rows. index.js and main.js insert each row
  before the first child, which reverses their order. The model keeps the
  order in which the rows are created.
- The wiring of `checker` to the viewport step. `Util.Checker` is modelled
  on its own, with the step's answers given as arguments.
- Focus: `focus()`, `focusout`, main.js's `focusChangeHint` restoring the
  selection on focus, and index.js's `retainForBlur(undefined)` on
  `focusout`.
- index.js's replacement `setSelectionRange`. Its deferred synthetic
  `select` event and its replay on the real `select` are timing details;
  the model applies the selection at once.
- Mouse, touch and drag tracking (`duringDrag`, util.js `mousedown` and
  `touchstart`). Only `drag`'s dispatch on the event type is modelled.
  index.js and main.js call `util.drag(input, hint)`, but `drag` takes only
  its first argument and returns a dispatcher that they discard, so there
  it has no effect.
- The custom `space` and `nav` events, the `keyup` handler for key code
  229, and the `textInput` handler.
- UTF-16. JavaScript string lengths and offsets (`length`, `substr`,
  `selectionStart`, `input.value.length - found`) count UTF-16 code units.
  The model's `char` is a Unicode scalar value, so offsets differ from the
  source's for text outside the Basic Multilingual Plane. A JavaScript
  `substr` or selection end that splits a surrogate pair cannot be
  represented.
- Unicode. `toLowerCase` is modelled for ASCII letters only. The demo's
  `\p{Letter}\p{Number}\p{Punctuation}` class is the parameter `isWord`;
  its two-character alternatives (a surrogate pair and "Â¯") are not
  modelled.
- The undo stack, which is why the source prefers `execCommand`. The
  command's behaviour is modelled, not its history.
- Aliasing of the live `Set` that util.js hands to the handler. The model
  hands a copy of its value.
- The event names are a list (`Util.ContentEventNames`), not the source's
  space-separated string. `Util.SplitJoin` proves, for any list of names,
  that splitting the names joined by single spaces gives the list back. The
  instance for the source's own string is not stated as a lemma.
- A JavaScript `undefined` target for main.js `replace`. The source then
  reads its fields and throws; only `null` (the model's `None`) and a range
  are modelled.
- util.js exports only `dedup`, `drag` and `checker`. index.js calls
  `util.isActive` (line 93) and `util.hasFocus` (line 372), and main.js
  calls `new util.EventController()` (line 69), none of which util.js
  defines. As written, main.js's `upgrade` throws on line 69 before any
  state exists. index.js's `upgrade` throws too: `checker` runs the
  viewport step at once (util.js line 101), and that step calls
  `util.isActive` whenever `scrollLeft` is 0, as it is on a fresh control.
  index.js's vertical-key handler would throw on `util.hasFocus` as well.
  The model assumes these helpers exist and leaves their calls out. It
  models no `EventController` and no viewport step, and it takes the `nav`
  outcome as a parameter (see the layout item).
  `Upgrade.Upgraded.constructor` and `LegacyUpgrade.Legacy.constructor`
  therefore model an upgrade that finishes.
- Which element the demo loads. new/demo.js imports `eventNames` from
  `./element.js`, which resolves to new/element.js. That file exports no
  `eventNames` and has no `controller` getter, so as written the demo does
  not load. new/controller.js's controller also has no `cursor()`, which
  the handler calls before it marks. The API the demo uses is element.js's
  (`controller`, and `select` dispatched from `update`) over controller.js,
  so `Demo.OnSelect` is modelled against `Controller.InputController`. Its
  `cursor()` call only logs geometry and is left out.
- The `value`, `selectionStart`, `selectionEnd`, `selectionDirection`,
  `multiline`, `trailer` and `suggest` getters. Each returns a field the
  model holds.
- Controller.InputController.SelectAll: the whole-text selection is stated
  only for texts shorter than 2^32 characters, beyond which the WebIDL
  conversion wraps.
- Controller.InputController.ReplaceWith: the control's selection is stated
  equal to the drifted ends only when the range and the selection lie
  inside the text and the new text is shorter than 2^32. Otherwise it is
  the clamped `Selecting` of them.
- Upgrade.Upgraded.Replace: the same bound applies as for
  `Controller.InputController.ReplaceWith`.
- Upgrade.Upgraded.HostEvent: only that a content event leaves a frame
  pending is stated, not the exact set of recorded types.
- LegacyUpgrade.Legacy.HostEvent: the same as `Upgrade.Upgraded.HostEvent`.
- Upgrade.Upgraded.SignalAll: the recorded types are bounded by the events,
  not stated exactly, because util.js's coalescer clears its set on the
  first signal after a frame.
- LegacyUpgrade.Legacy.SignalAll: the same as `Upgrade.Upgraded.SignalAll`.
- Upgrade.Upgraded.constructor: always succeeds, although index.js as
  written throws on the missing `util.isActive` (see the util.js item).
- LegacyUpgrade.Legacy.constructor: always succeeds, although main.js as
  written throws on the missing `util.EventController` (see the util.js
  item).
