/**
 * index.js `upgrade`: decorates an existing control. Each pass copies the
 * control into the snapshot, drops marks made on an older text, tells the
 * page with a `select` event, and redraws: the selection, the marks, and as
 * much of the suggestion as the user has not typed yet.
 */
module Upgrade {
  import opened Wrappers
  import opened Text
  import opened Surface
  import opened Drift
  import opened JsMaps
  import opened Overlay
  import opened Autocomplete
  import Util
  import Frames

  /** A mark and the text it was made on (`rev`). */
  datatype Markup = Markup(start: int, end: int, rev: string)

  /** A drawn annotation: where it starts, how long it is, its class. */
  datatype Span = Span(start: int, length: int, className: string)

  /** The keys, in order, whose marks were made on `value`. */
  function Current(keys: seq<string>, entries: map<string, Markup>, value: string): (r: seq<string>)
    ensures forall k :: k in r <==> k in keys && k in entries && entries[k].rev == value
    ensures |r| <= |keys|
  {
    if keys == [] then []
    else
      var last := keys[|keys| - 1];
      Current(keys[..|keys| - 1], entries, value) + (if last in entries && entries[last].rev == value then [last] else [])
  }

  /** `after` is `before` with exactly the marks made on a text other than `value` deleted, the rest in order. */
  ghost predicate Pruned(before: JsMap<Markup>, after: JsMap<Markup>, value: string) {
    && after.keys == Current(before.keys, before.entries, value)
    && (forall k :: k in after.entries <==> k in before.entries && before.entries[k].rev == value)
    && (forall k :: k in after.entries ==> after.entries[k] == before.entries[k])
  }

  lemma {:induction false} WithoutAppend(a: seq<string>, b: seq<string>, k: string)
    ensures Without(a + b, k) == Without(a, k) + Without(b, k)
  {
    if a == [] {
      assert a + b == b;
    } else {
      assert (a + b)[0] == a[0] && (a + b)[1..] == a[1..] + b;
      WithoutAppend(a[1..], b, k);
    }
  }

  /** Walking one more key appends it to the current ones exactly when its mark was made on `value`. */
  lemma CurrentStep(keys: seq<string>, i: nat, entries: map<string, Markup>, value: string)
    requires i < |keys|
    ensures Current(keys[..i + 1], entries, value)
            == Current(keys[..i], entries, value) + (if keys[i] in entries && entries[keys[i]].rev == value then [keys[i]] else [])
  {
    var walked := keys[..i + 1];
    assert walked[..|walked| - 1] == keys[..i] && walked[|walked| - 1] == keys[i];
  }

  /** The key the loop is at occurs nowhere else among distinct keys. */
  lemma Unwalked(keys: seq<string>, i: nat)
    requires Distinct(keys) && i < |keys|
    ensures keys[i] !in keys[..i] && keys[i] !in keys[i + 1..]
    ensures keys[i..] == [keys[i]] + keys[i + 1..]
  {
    assert forall j :: 0 <= j < |keys| && j != i ==> keys[j] != keys[i];
  }

  /**
   * One step of the pruning loop: a kept key moves from the unwalked part to
   * the walked one unchanged, and deleting a stale key leaves the walked part
   * and the rest.
   */
  lemma PruneStep(walked: seq<string>, k: string, rest: seq<string>)
    requires k !in walked && k !in rest
    ensures walked + ([k] + rest) == (walked + [k]) + rest
    ensures Without(walked + ([k] + rest), k) == walked + rest
  {
    WithoutAppend(walked, [k] + rest, k);
    WithoutAppend([k], rest, k);
    WithoutAbsent(walked, k);
    WithoutAbsent(rest, k);
    assert Without([k], k) == [];
    assert [] + rest == rest;
  }

  /** What the pruning loop keeps true after walking the first `i` keys of `m`. */
  ghost predicate PrunedUpTo(m: JsMap<Markup>, r: JsMap<Markup>, value: string, i: nat)
    requires i <= |m.keys|
  {
    && r.Valid()
    && r.keys == Current(m.keys[..i], m.entries, value) + m.keys[i..]
    && forall k :: k in r.entries ==> k in m.entries && r.entries[k] == m.entries[k]
  }

  /** Having walked every key is the pruned map. */
  lemma PrunedAtEnd(m: JsMap<Markup>, r: JsMap<Markup>, value: string)
    requires m.Valid() && PrunedUpTo(m, r, value, |m.keys|)
    ensures Pruned(m, r, value)
  {
    assert m.keys[..|m.keys|] == m.keys && m.keys[|m.keys|..] == [];
    assert r.keys == Current(m.keys, m.entries, value);
  }

  /** The keys after one more step of the loop, whether the key it is at is kept or deleted. */
  lemma KeysStep(ks: seq<string>, entries: map<string, Markup>, keys: seq<string>, value: string, i: nat)
    requires i < |ks| && keys == Current(ks[..i], entries, value) + ks[i..]
    requires ks[i] !in ks[..i] && ks[i] !in ks[i + 1..]
    ensures ks[i] in keys
    ensures ks[i] in entries && entries[ks[i]].rev == value ==> keys == Current(ks[..i + 1], entries, value) + ks[i + 1..]
    ensures !(ks[i] in entries && entries[ks[i]].rev == value) ==> Without(keys, ks[i]) == Current(ks[..i + 1], entries, value) + ks[i + 1..]
  {
    var k := ks[i];
    var walked := Current(ks[..i], entries, value);
    var rest := ks[i + 1..];
    assert ks[i..] == [k] + rest;
    assert keys == walked + ([k] + rest);
    assert keys[|walked|] == k;
    CurrentStep(ks, i, entries, value);
    if k in entries && entries[k].rev == value {
      assert Current(ks[..i + 1], entries, value) == walked + [k];
      PruneStep(walked, k, rest);
    } else {
      assert Current(ks[..i + 1], entries, value) == walked + [];
      assert walked + [] == walked;
      PruneStep(walked, k, rest);
    }
  }

  /** The loop body: deletes the `i`th key when its mark is stale. */
  method PruneKey(m: JsMap<Markup>, r: JsMap<Markup>, value: string, i: nat) returns (r': JsMap<Markup>)
    requires m.Valid() && i < |m.keys| && PrunedUpTo(m, r, value, i)
    ensures PrunedUpTo(m, r', value, i + 1)
  {
    var k := m.keys[i];
    Unwalked(m.keys, i);
    KeysStep(m.keys, m.entries, r.keys, value, i);
    r' := r;
    if m.entries[k].rev != value {
      r' := r.Delete(k);
    }
  }

  /**
   * The pass's loop over the marks: every mark whose `rev` is not `value`
   * is deleted while the keys are walked in order.
   */
  method Prune(m: JsMap<Markup>, value: string) returns (r: JsMap<Markup>)
    requires m.Valid()
    ensures r.Valid()
    ensures Pruned(m, r, value)
  {
    r := m;
    var i := 0;
    assert m.keys[..0] == [] && m.keys[0..] == m.keys;
    while i < |m.keys|
      invariant 0 <= i <= |m.keys|
      invariant PrunedUpTo(m, r, value, i)
    {
      r := PruneKey(m, r, value, i);
      i := i + 1;
    }
    PrunedAtEnd(m, r, value);
  }

  /** The marks' spans in the order they were first set, each classed `_` and its name. */
  function MarkSpans(m: JsMap<Markup>): (spans: seq<Span>)
    requires m.Valid()
    ensures |spans| == |m.keys|
    ensures forall i :: 0 <= i < |spans| ==>
              spans[i] == Span(m.entries[m.keys[i]].start, m.entries[m.keys[i]].end - m.entries[m.keys[i]].start, "_" + m.keys[i])
  {
    seq(|m.keys|, i requires 0 <= i < |m.keys| && m.keys[i] in m.entries =>
      Span(m.entries[m.keys[i]].start, m.entries[m.keys[i]].end - m.entries[m.keys[i]].start, "_" + m.keys[i]))
  }

  /**
   * The row a span is drawn as over `value`: the text before it, its own
   * text, and the text after it unless its length is zero.
   */
  function SpanRow(value: string, s: Span): (p: Projection)
    ensures 0 <= s.start && 0 < s.length && s.start + s.length <= |value| ==>
              p == Projection(value[..s.start], value[s.start..s.start + s.length], value[s.start + s.length..])
    ensures 0 <= s.start && 0 < s.length && s.start + s.length <= |value| ==> p.prefix + p.span + p.suffix == value
    ensures s.length == 0 ==> p.span == "" && p.suffix == ""
    ensures 0 <= s.start <= |value| && s.length == 0 ==> p == Projection(value[..s.start], "", "")
  {
    Projection(Substr(value, 0, s.start), Substr(value, s.start, s.length),
               if s.length != 0 then SubstrFrom(value, s.start + s.length) else "")
  }

  /** The rows drawn for the spans over `value`, one per span in the same order. */
  function Rows(value: string, spans: seq<Span>): (rows: seq<Projection>)
    ensures |rows| == |spans|
    ensures forall i :: 0 <= i < |spans| ==> rows[i] == SpanRow(value, spans[i])
  {
    seq(|spans|, i requires 0 <= i < |spans| => SpanRow(value, spans[i]))
  }

  /**
   * What a pass draws after the text: nothing for a range or when the
   * suggestion does not match (`found` is -1); otherwise a zero-width space
   * and the part of the suggestion not typed yet.
   */
  function Shown(found: int, suggestion: string, range: bool): (r: Option<string>)
    ensures r.Some? <==> !range && found >= 0
    ensures r.Some? ==> r.value == [ZeroWidthSpace] + SubstrFrom(suggestion, found)
    ensures r.Some? && found <= |suggestion| ==> r.value[1..] == suggestion[found..]
  {
    if !range && found >= 0 then Some([ZeroWidthSpace] + SubstrFrom(suggestion, found)) else None
  }

  /**
   * The annotations of a pass, in the order they are made: the control's
   * selection, the marks in the order they were first set, and for a caret
   * with a non-zero `found` the trailer, counted back from the end of the
   * control's text.
   */
  function Annotations(s: Surface, marks: JsMap<Markup>, found: int, range: bool): (spans: seq<Span>)
    requires marks.Valid()
    ensures |spans| == 1 + |marks.keys| + (if !range && found != 0 then 1 else 0)
    ensures spans[0] == Span(s.selectionStart, s.selectionEnd - s.selectionStart, "selected")
    ensures spans[1..1 + |marks.keys|] == MarkSpans(marks)
    ensures !range && found != 0 ==> spans[|spans| - 1] == Span(|s.value| - found, found, "trailer")
  {
    [Span(s.selectionStart, s.selectionEnd - s.selectionStart, "selected")] + MarkSpans(marks)
      + (if !range && found != 0 then [Span(|s.value| - found, found, "trailer")] else [])
  }

  /**
   * Where Escape puts the caret: a caret goes to the end of the text
   * (even when it is there already), a range collapses onto its start when
   * it was made backwards and onto its end otherwise. Only a range swallows
   * the key.
   */
  function EscapeCaret(state: Snapshot, length: nat): (r: int)
    ensures state.selectionStart == state.selectionEnd ==> r == length
    ensures state.selectionStart != state.selectionEnd ==>
              (r == state.selectionStart <==> state.direction == Backward) &&
              (r == state.selectionEnd <==> state.direction != Backward)
  {
    if state.selectionStart == state.selectionEnd then length
    else if state.direction == Backward then state.selectionStart
    else state.selectionEnd
  }

  /**
   * The controllers' Escape and this one put the caret in the same place;
   * they differ only for a caret already at the end, which the controllers
   * leave alone.
   */
  lemma EscapeRevisionsAgree(state: Snapshot, length: nat)
    ensures EscapeTarget(state, length).Some? ==> EscapeTarget(state, length).value == EscapeCaret(state, length)
    ensures EscapeTarget(state, length).None? <==> state.selectionStart == state.selectionEnd == length
  {
  }

  class Upgraded {
    /** The upgraded `<input>` or `<textarea>`. */
    var surface: Surface
    /** `state`: the last copy of the control. */
    var state: Snapshot
    const multiline: bool
    /** `state.autocomplete`: the suggestion. */
    var autocomplete: string
    /** `state.markup`, keyed by class name. */
    var markup: JsMap<Markup>
    /** The pass in progress, if any, and whether its selection is a range. */
    var pass: Option<bool>
    /** The control's `data-selection` attribute. */
    var dataSelection: Option<string>
    /** The text of the render node: the snapshot's text, then the shown suggestion. */
    var rendered: string
    /** The suggestion drawn after the text, if any. */
    var shown: Option<string>
    /** The annotations drawn in the last redraw; their rows are `Rows(state.value, drawn)`. */
    var drawn: seq<Span>
    /** The coalescer of the content events. */
    const hint: Frames.Dedup

    ghost predicate Valid()
      reads this
    {
      surface.Valid() && markup.Valid()
    }

    predicate ValueChanged()
      reads this
    {
      state.value != surface.value
    }

    predicate SelectionChanged()
      reads this
    {
      state.selectionStart != surface.selectionStart || state.selectionEnd != surface.selectionEnd
    }

    /** `upgrade(input, render)`: the snapshot starts with the control's text, no selection and no direction; a pass is requested. */
    constructor (input: Surface, isTextarea: bool)
      requires input.Valid()
      ensures Valid() && fresh(hint)
      ensures surface == input && multiline == isTextarea
      ensures state == Snapshot(input.value, -1, -1, Blank)
      ensures autocomplete == "" && markup == Empty() && pass.None?
      ensures dataSelection.None? && rendered == "" && shown.None? && drawn == []
      ensures hint.pending && hint.seen == {}
    {
      surface := input;
      multiline := isTextarea;
      state := Snapshot(input.value, -1, -1, Blank);
      autocomplete := "";
      markup := Empty();
      pass := None;
      dataSelection := None;
      rendered := "";
      shown := None;
      drawn := [];
      hint := new Frames.Dedup();
      new;
      hint.Trigger(None);
    }

    /** A frame runs; when the coalescer was pending, its handler starts a pass. */
    method RunFrame() returns (update: Option<bool>)
      requires Valid() && pass.None?
      modifies this`state, this`dataSelection, this`markup, this`pass, hint
      ensures Valid()
      ensures !hint.pending && hint.seen == old(hint.seen)
      ensures !old(hint.pending) ==> update.None? && unchanged(this)
      ensures old(hint.pending) ==> Started(update)
    {
      var fired, events := hint.RunFrame();
      update := None;
      if fired {
        update := StartPass();
      }
    }

    /** What starting a pass did, compared with the state before it. */
    twostate predicate Started(new update: Option<bool>)
      reads this
    {
      && (!old(ValueChanged() || SelectionChanged()) ==> update.None? && unchanged(this))
      && (old(ValueChanged() || SelectionChanged()) ==>
            && update == Some(old(ValueChanged()))
            && pass == Some(surface.selectionStart < surface.selectionEnd)
            && state == Snapshot(surface.value, surface.selectionStart, surface.selectionEnd, InferDirection(old(state), surface))
            && dataSelection == (if surface.selectionStart < surface.selectionEnd
                                 then Some(Substring(surface.value, surface.selectionStart, surface.selectionEnd)) else None)
            && (old(ValueChanged()) ==> Pruned(old(markup), markup, surface.value))
            && (!old(ValueChanged()) ==> markup == old(markup)))
    }

    /**
     * The pass up to the `select` event: nothing happens unless the text or
     * the selection changed (the coalescer never records a request without
     * an event, so a request alone cannot force a pass); otherwise the
     * snapshot takes the control's values with the inferred direction,
     * `data-selection` follows a range, and a changed text drops every mark
     * made on another text.
     */
    method StartPass() returns (update: Option<bool>)
      requires Valid() && pass.None?
      modifies this`state, this`dataSelection, this`markup, this`pass
      ensures Valid()
      ensures Started(update)
    {
      var valueChange := ValueChanged();
      if !valueChange && !SelectionChanged() {
        return None;
      }
      var range := surface.selectionEnd > surface.selectionStart;
      var next := Snapshot(surface.value, surface.selectionStart, surface.selectionEnd, InferDirection(state, surface));
      var selection := if range then Some(Substring(next.value, next.selectionStart, next.selectionEnd)) else None;
      var marks := markup;
      if valueChange {
        marks := Prune(markup, next.value);
      }
      state, dataSelection, markup, pass := next, selection, marks, Some(range);
      update := Some(valueChange);
    }

    /**
     * The redraw after the `select` event: the render node gets the
     * snapshot's text and, for a caret, the untyped part of the suggestion
     * (how much is typed is measured at the snapshot's caret); then one row
     * per annotation.
     */
    method FinishPass()
      requires Valid() && pass.Some?
      modifies this`pass, this`shown, this`rendered, this`drawn
      ensures Valid() && pass.None?
      ensures var found := Overlap(state.value, state.selectionEnd, autocomplete);
              && shown == Shown(found, autocomplete, old(pass.value))
              && rendered == state.value + (if shown.Some? then shown.value else "")
              && drawn == Annotations(surface, markup, found, old(pass.value))
    {
      var range := pass.value;
      pass := None;
      var found := AutocompleteSuffix(state.value, state.selectionEnd, autocomplete);
      shown := Shown(found, autocomplete, range);
      rendered := state.value + (if shown.Some? then shown.value else "");
      drawn := Annotations(surface, markup, found, range);
    }

    /** The user or the host changes the control, and the event named `eventType` reaches it. */
    method HostEvent(s: Surface, eventType: string)
      requires Valid() && pass.None? && s.Valid()
      modifies this`surface, hint
      ensures Valid() && surface == s
      ensures eventType in Util.ContentEventNames ==> hint.pending
    {
      surface := s;
      if eventType in Util.ContentEventNames {
        hint.Signal(Some(eventType));
      }
    }

    /**
     * `mark(className, target)`: stores the mark with the control's current
     * text as its `rev`, or removes it; removing a name that is not there
     * answers false and requests nothing. Otherwise a pass is requested.
     */
    method Mark(className: string, target: Option<Range>) returns (r: Option<bool>)
      requires Valid()
      modifies this`markup, hint
      ensures Valid()
      ensures r == Some(false) <==> target.None? && className !in old(markup.entries)
      ensures r.None? || r == Some(false)
      ensures target.Some? ==> markup.Get(className) == Some(Markup(target.value.start, target.value.end, surface.value))
      ensures target.None? ==> markup.Get(className).None?
      ensures forall k :: k != className ==> markup.Get(k) == old(markup.Get(k))
      ensures target.Some? && className in old(markup.entries) ==> markup.keys == old(markup.keys)
      ensures target.Some? && className !in old(markup.entries) ==> markup.keys == old(markup.keys) + [className]
      ensures target.None? ==> markup.keys == Without(old(markup.keys), className)
      ensures r.None? ==> hint.pending && hint.seen == (if old(hint.pending) then old(hint.seen) else {})
      ensures r.Some? ==> markup == old(markup) && hint.pending == old(hint.pending) && hint.seen == old(hint.seen)
    {
      if target.Some? {
        markup := markup.Set(className, Markup(target.value.start, target.value.end, surface.value));
      } else if className in markup.entries {
        markup := markup.Delete(className);
      } else {
        WithoutAbsent(markup.keys, className);
        return Some(false);
      }
      hint.Trigger(None);
      r := None;
    }

    /** `autocompleteMatch(s)`: -1 for a range, otherwise how much of `s` is typed at the caret. */
    method AutocompleteMatch(s: string) returns (r: int)
      requires Valid()
      ensures surface.selectionStart != surface.selectionEnd ==> r == -1
      ensures surface.selectionStart == surface.selectionEnd ==> r == Overlap(surface.value, surface.selectionStart, s)
      ensures -1 <= r <= |s|
    {
      if surface.selectionStart != surface.selectionEnd {
        return -1;
      }
      r := AutocompleteSuffix(surface.value, surface.selectionStart, s);
    }

    /** The `suggest` setter: a missing suggestion is the empty one; a pass is requested. */
    method SetSuggest(v: Option<string>)
      modifies this`autocomplete, hint
      ensures autocomplete == (if v.Some? then v.value else "")
      ensures hint.pending && hint.seen == (if old(hint.pending) then old(hint.seen) else {})
    {
      autocomplete := if v.Some? then v.value else "";
      hint.Trigger(None);
    }

    /**
     * `replace(text, target)`: the target (the snapshot's selection when
     * none is given) of the control's CURRENT text is selected and replaced
     * by `text`; then the control's selection is set to the snapshot's ends
     * drifted through the edit, in the snapshot's direction.
     */
    method Replace(text: string, target: Option<Range>, nativeEdit: bool)
      requires Valid()
      modifies this`surface, hint
      ensures Valid()
      ensures var r := if target.Some? then target.value else Range(old(state.selectionStart), old(state.selectionEnd));
              var v := Expected(old(surface.value), r, text);
              && surface == Selecting(v, Clamped(r, text, old(state.selectionStart)), Clamped(r, text, old(state.selectionEnd)), old(state.direction))
              && (0 <= r.start <= r.end <= |old(surface.value)| && 0 <= old(state.selectionStart) <= old(state.selectionEnd) <= |old(surface.value)|
                  && |v| < TwoTo32 ==>
                    surface.selectionStart == Clamped(r, text, old(state.selectionStart)) &&
                    surface.selectionEnd == Clamped(r, text, old(state.selectionEnd)))
      ensures hint.pending && hint.seen <= old(hint.seen) + {"input", "change"}
    {
      var r := if target.Some? then target.value else Range(state.selectionStart, state.selectionEnd);
      var expected := Expected(surface.value, r, text);
      if 0 <= r.start <= r.end <= |surface.value| && 0 <= state.selectionStart <= state.selectionEnd <= |surface.value| {
        DriftedSelectionInside(surface.value, r, text, state.selectionStart, state.selectionEnd);
      }
      surface := Selecting(surface.value, r.start, r.end, NoDirection);
      var outcome := Edit(surface, text, expected, nativeEdit);
      SignalAll(outcome.events);
      var selectionStart := Clamped(r, text, state.selectionStart);
      var selectionEnd := Clamped(r, text, state.selectionEnd);
      surface := Selecting(outcome.surface.value, selectionStart, selectionEnd, state.direction);
    }

    /** Each of the events an edit dispatched reaches the coalescer. */
    method SignalAll(events: seq<string>)
      requires |events| > 0
      modifies hint
      ensures hint.pending && hint.seen <= old(hint.seen) + set e | e in events
    {
      var i := 0;
      while i < |events|
        invariant 0 <= i <= |events|
        invariant i > 0 ==> hint.pending
        invariant hint.seen <= old(hint.seen) + set e | e in events[..i]
      {
        hint.Signal(Some(events[i]));
        assert events[..i + 1] == events[..i] + [events[i]];
        i := i + 1;
      }
      assert events[..i] == events;
    }

    /**
     * A key press, seen first by the coalescer. Escape moves the caret where
     * `EscapeCaret` says, and is swallowed only for a range. A vertical key
     * is swallowed when `focusLost`: the `nav` event was dispatched (always
     * on a single-line control, and on a multi-line one when the caret is on
     * its first or last line) and focus left the control while it was
     * handled. The other keys pass through.
     */
    method KeyDown(key: string, focusLost: bool) returns (prevented: bool)
      requires Valid() && pass.None?
      modifies this`surface, hint
      ensures Valid()
      ensures hint.pending && "keydown" in hint.seen
      ensures key == "Escape" ==>
                var caret := EscapeCaret(old(state), |old(surface.value)|);
                && prevented == (old(state.selectionStart) != old(state.selectionEnd))
                && surface == Selecting(old(surface.value), caret, caret, NoDirection)
      ensures key in VerticalKeys ==> prevented == focusLost && surface == old(surface)
      ensures key != "Escape" && key !in VerticalKeys ==> !prevented && surface == old(surface)
    {
      hint.Signal(Some("keydown"));
      prevented := false;
      if key == "Escape" {
        var caret := EscapeCaret(state, |surface.value|);
        surface := Selecting(surface.value, caret, caret, NoDirection);
        prevented := state.selectionStart != state.selectionEnd;
      } else if key in VerticalKeys {
        prevented := focusLost;
      }
    }
  }

  /**
   * With the caret after "hello wor" and the suggestion "world", the pass
   * draws the untyped "ld" after the text and classes the typed "wor" as the
   * trailer.
   */
  method SuggestionShowsRemainder() returns (update: Option<bool>, rendered: string, trailer: Span)
    ensures update == Some(false)
    ensures rendered == "hello wor" + [ZeroWidthSpace] + "ld"
    ensures trailer == Span(6, 3, "trailer")
  {
    var c := new Upgraded(Surface("hello wor", 9, 9, NoDirection), false);
    c.SetSuggest(Some("world"));
    update := c.RunFrame();
    OverlapTypedPrefix();
    c.FinishPass();
    rendered := c.rendered;
    trailer := c.drawn[|c.drawn| - 1];
  }

  /**
   * `mark` requests a frame, but the pass it runs sees no change in the text
   * or the selection and draws nothing: the new mark is not drawn until the
   * control changes.
   */
  method MarkWaitsForAChange(className: string, range: Range) returns (update: Option<bool>, before: seq<Span>, after: seq<Span>, stored: bool)
    ensures update.None?
    ensures after == before
    ensures stored
  {
    var c := new Upgraded(Surface("abc", 3, 3, NoDirection), false);
    var settled := c.RunFrame();
    c.FinishPass();
    before := c.drawn;
    var answer := c.Mark(className, Some(range));
    update := c.RunFrame();
    after := c.drawn;
    stored := className in c.markup.entries;
  }

  /** A mark made on one text is gone after the pass that sees the text edited. */
  method EditDropsOlderMarks(className: string, range: Range, edited: Surface) returns (kept: bool)
    requires edited.Valid() && edited.value != "abc"
    ensures !kept
  {
    var c := new Upgraded(Surface("abc", 3, 3, NoDirection), false);
    var settled := c.RunFrame();
    c.FinishPass();
    var answer := c.Mark(className, Some(range));
    c.HostEvent(edited, "input");
    var update := c.RunFrame();
    kept := className in c.markup.entries;
  }
}
