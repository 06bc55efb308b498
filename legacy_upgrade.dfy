/**
 * main.js `upgrade`: the oldest revision of the decorated control. A pass
 * copies the control into the snapshot (direction as reported), tells the
 * page with a `select` event and redraws the selection and the untyped rest
 * of the suggestion; `replace` drifts the snapshot's selection with the
 * older rule.
 */
module LegacyUpgrade {
  import opened Wrappers
  import opened Text
  import opened Surface
  import opened Drift
  import opened Overlay
  import opened Autocomplete
  import Util
  import Frames

  /** The row drawn for the control's selection: the text before it and the selected text, nothing after. */
  function SelectionRow(value: string, start: int, end: int): (p: Projection)
    ensures 0 <= start <= end <= |value| ==>
              p.prefix == value[..start] && p.span == value[start..end] && p.prefix + p.span == value[..end]
    ensures p.suffix == ""
  {
    Projection(Substr(value, 0, start), Substr(value, start, end - start), "")
  }

  /**
   * What a pass draws after the text: for a caret, the suggestion's untyped
   * rest when there is one and it is not empty.
   */
  function Shown(rest: Option<string>, range: bool): (r: Option<string>)
    ensures r.Some? <==> !range && rest.Some? && rest.value != ""
    ensures r.Some? ==> r == rest
  {
    if !range && rest.Some? && rest.value != "" then rest else None
  }

  class Legacy {
    /** The upgraded `<input>`. */
    var surface: Surface
    /** `state`: the last copy of the control. */
    var state: Snapshot
    /** `state.autocomplete`: the suggestion. */
    var autocomplete: string
    /** The pass in progress, if any, and whether its selection is a range. */
    var pass: Option<bool>
    /** The control's `data-selection` attribute. */
    var dataSelection: Option<string>
    /** The text of the render node: the snapshot's text, then the shown suggestion. */
    var rendered: string
    /** The suggestion drawn after the text, if any. */
    var shown: Option<string>
    /** The row drawn for the selection, once a pass has drawn one. */
    var selectionRow: Option<Projection>
    /** The coalescer of the content events. */
    const hint: Frames.Dedup

    ghost predicate Valid()
      reads this
    {
      surface.Valid()
    }

    /** Whether the control's text or selection bounds differ from the snapshot. */
    predicate Changed()
      reads this
    {
      state.selectionStart != surface.selectionStart || state.selectionEnd != surface.selectionEnd || state.value != surface.value
    }

    /** `upgrade(input, render)`: the snapshot starts with the control's text and no selection; a pass is requested. */
    constructor (input: Surface)
      requires input.Valid()
      ensures Valid() && fresh(hint)
      ensures surface == input && state == Snapshot(input.value, -1, -1, Blank)
      ensures autocomplete == "" && pass.None? && dataSelection.None?
      ensures rendered == "" && shown.None? && selectionRow.None?
      ensures hint.pending && hint.seen == {}
    {
      surface := input;
      state := Snapshot(input.value, -1, -1, Blank);
      autocomplete := "";
      pass := None;
      dataSelection := None;
      rendered := "";
      shown := None;
      selectionRow := None;
      hint := new Frames.Dedup();
      new;
      hint.Trigger(None);
    }

    /** A frame runs; when the coalescer was pending, its handler starts a pass. */
    method RunFrame() returns (started: bool)
      requires Valid() && pass.None?
      modifies this`state, this`dataSelection, this`pass, hint
      ensures Valid()
      ensures !hint.pending && hint.seen == old(hint.seen)
      ensures started ==> old(hint.pending)
      ensures !old(hint.pending) ==> unchanged(this)
      ensures old(hint.pending) ==> Started(started)
    {
      var fired, events := hint.RunFrame();
      started := false;
      if fired {
        started := StartPass();
      }
    }

    /** What starting a pass did, compared with the state before it. */
    twostate predicate Started(new started: bool)
      reads this
    {
      && (started <==> old(Changed()))
      && (!started ==> unchanged(this))
      && (started ==>
            && pass == Some(surface.selectionStart < surface.selectionEnd)
            && state == Snapshot(surface.value, surface.selectionStart, surface.selectionEnd, surface.direction)
            && dataSelection == (if surface.selectionStart < surface.selectionEnd
                                 then Some(Substring(surface.value, surface.selectionStart, surface.selectionEnd)) else None))
    }

    /**
     * The pass up to the `select` event: nothing happens when the selection
     * bounds and the text equal the snapshot's (a change of direction alone
     * is not seen); otherwise the snapshot copies all four fields, the
     * direction as reported, and `data-selection` follows a range.
     */
    method StartPass() returns (started: bool)
      requires Valid() && pass.None?
      modifies this`state, this`dataSelection, this`pass
      ensures Valid()
      ensures Started(started)
    {
      if !Changed() {
        return false;
      }
      state := Snapshot(surface.value, surface.selectionStart, surface.selectionEnd, surface.direction);
      var range := state.selectionEnd > state.selectionStart;
      dataSelection := if range then Some(Substring(state.value, state.selectionStart, state.selectionEnd)) else None;
      pass := Some(range);
      started := true;
    }

    /**
     * The redraw after the `select` event: the render node gets the
     * snapshot's text and the selection's row, then, for a caret, the
     * suggestion's untyped rest measured at the snapshot's caret.
     */
    method FinishPass()
      requires Valid() && pass.Some?
      modifies this`pass, this`shown, this`rendered, this`selectionRow
      ensures Valid() && pass.None?
      ensures shown == Shown(Remainder(state.value, state.selectionEnd, autocomplete), old(pass.value))
      ensures rendered == state.value + (if shown.Some? then shown.value else "")
      ensures selectionRow == Some(SelectionRow(state.value, surface.selectionStart, surface.selectionEnd))
    {
      var range := pass.value;
      pass := None;
      selectionRow := Some(SelectionRow(state.value, surface.selectionStart, surface.selectionEnd));
      var rest := None;
      if !range {
        rest := AutocompleteRemainder(state.value, state.selectionEnd, autocomplete);
      }
      shown := Shown(rest, range);
      rendered := state.value + (if shown.Some? then shown.value else "");
    }

    /** The user or the host changes the control, and the event named `eventType` reaches it. */
    method HostEvent(s: Surface, eventType: string)
      requires Valid() && s.Valid()
      modifies this`surface, hint
      ensures Valid() && surface == s
      ensures eventType in Util.ContentEventNames ==> hint.pending
    {
      surface := s;
      if eventType in Util.ContentEventNames {
        hint.Signal(Some(eventType));
      }
    }

    /** The `suggest` setter: a missing suggestion is the empty one; unlike the later revision it requests no pass. */
    method SetSuggest(v: Option<string>)
      modifies this`autocomplete
      ensures autocomplete == (if v.Some? then v.value else "")
    {
      autocomplete := if v.Some? then v.value else "";
    }

    /**
     * `replace(text, target)`: the target (the control's selection when none
     * is given) is selected and replaced by `text`; the control is left where
     * the edit put it, and only the snapshot's selection ends are drifted,
     * with the older rule; the snapshot's text stays, so the next frame sees
     * the change.
     */
    method Replace(text: string, target: Option<Range>, nativeEdit: bool)
      requires Valid()
      modifies this`surface, this`state, hint
      ensures Valid()
      ensures var r := if target.Some? then target.value else Range(old(surface.selectionStart), old(surface.selectionEnd));
              && surface.value == Expected(old(surface.value), r, text)
              && state == old(state).(selectionStart := Interior(r.start, r.end, text, old(state.selectionStart)),
                                      selectionEnd := Interior(r.start, r.end, text, old(state.selectionEnd)))
      ensures hint.pending && hint.seen <= old(hint.seen) + {"input", "change"}
    {
      var r := if target.Some? then target.value else Range(surface.selectionStart, surface.selectionEnd);
      surface := Selecting(surface.value, r.start, r.end, NoDirection);
      var expected := Expected(surface.value, r, text);
      var outcome := Edit(surface, text, expected, nativeEdit);
      surface := outcome.surface;
      SignalAll(outcome.events);
      state := state.(selectionStart := Interior(r.start, r.end, text, state.selectionStart),
                      selectionEnd := Interior(r.start, r.end, text, state.selectionEnd));
    }

    /** Each of the events an edit dispatched reaches the coalescer. */
    method SignalAll(events: seq<string>)
      requires |events| > 0
      modifies hint
      ensures hint.pending && hint.seen <= old(hint.seen) + set e | e in events
    {
      var i := 0;
      while i < |events|
        invariant 0 <= i <= |events|
        invariant i > 0 ==> hint.pending
        invariant hint.seen <= old(hint.seen) + set e | e in events[..i]
      {
        hint.Signal(Some(events[i]));
        assert events[..i + 1] == events[..i] + [events[i]];
        i := i + 1;
      }
      assert events[..i] == events;
    }
  }

  /**
   * Replacing the snapshot's own non-empty selection leaves the snapshot
   * spanning exactly the inserted text, and a caret just after it, while the
   * snapshot's selection stays ordered.
   */
  lemma ReplaceSelectionSpansText(s: Snapshot, text: string)
    requires s.selectionStart <= s.selectionEnd
    ensures var a := Interior(s.selectionStart, s.selectionEnd, text, s.selectionStart);
            var b := Interior(s.selectionStart, s.selectionEnd, text, s.selectionEnd);
            && b == s.selectionStart + |text|
            && a == (if s.selectionStart < s.selectionEnd then s.selectionStart else b)
            && a <= b
  {
    InteriorOverReplacedRange(s.selectionStart, s.selectionEnd, text);
  }

  /**
   * A fresh control with the caret at the end of its text and a suggestion
   * set: the first frame runs a pass, which draws the suggestion's untyped
   * rest (so "ld" after "hello wor" for "world", by `RemainderTypedPrefix`).
   */
  method SuggestionShownAtEnd(value: string, suggestion: string) returns (started: bool, shown: Option<string>)
    ensures started
    ensures shown == Shown(Remainder(value, |value|, suggestion), false)
  {
    var c := new Legacy(Surface(value, |value|, |value|, NoDirection));
    c.SetSuggest(Some(suggestion));
    started := c.RunFrame();
    c.FinishPass();
    shown := c.shown;
  }

  /** The suggestion "world" with "wor" typed before the caret leaves "ld" to show. */
  lemma RemainderTypedPrefix()
    ensures Remainder("hello wor", 9, "world") == Some("ld")
  {
    var tail := Window("hello wor", 9, 5);
    assert tail == "o wor";
    assert !StartsWith("world", tail[0..]) by {
      assert "world"[..5][0] != tail[0..][0];
    }
    assert !StartsWith("world", tail[1..]);
    assert StartsWith("world", tail[2..]);
    assert FirstMatch(tail, "world", 0) == Some(2);
    assert Longest(tail, "world") == 3;
  }

  /**
   * After `replace` the snapshot's text is the old one, so the next frame
   * sees the change and copies the control: the snapshot ends up holding
   * the control's own selection, not the drifted one.
   */
  method ReplaceIsSeenNextFrame(text: string) returns (started: bool, settled: Snapshot, control: Surface)
    requires text != ""
    ensures started
    ensures settled.value == text && settled.selectionStart == control.selectionStart && settled.selectionEnd == control.selectionEnd
  {
    var c := new Legacy(Surface("", 0, 0, NoDirection));
    var first := c.RunFrame();
    c.FinishPass();
    c.Replace(text, None, false);
    started := c.RunFrame();
    settled := c.state;
    control := c.surface;
  }
}
