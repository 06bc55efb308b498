/**
 * controller.js: the controller `build` returns. It keeps a snapshot of the
 * host control, the client's marks, and flags for work still owed to the
 * overlay; a coalesced per-frame pass reconciles them with the control.
 */
module Controller {
  import opened Wrappers
  import opened Text
  import opened Surface
  import opened Drift
  import opened JsMaps
  import opened Overlay
  import Util
  import Frames

  /** `renderAnnotation(value, annotation, text)`: the row that aligns an annotation over the text. */
  function RenderAnnotation(value: string, a: Annotation, text: Option<string>): (p: Projection)
    ensures 0 <= a.start <= a.end <= |value| ==> p.prefix == value[..a.start] && p.suffix == value[a.end..]
    ensures 0 <= a.start <= a.end <= |value| && text.None? ==> p.span == value[a.start..a.end]
    ensures 0 <= a.start <= a.end <= |value| && text.None? ==> p.prefix + p.span + p.suffix == value
    ensures text.Some? ==> p.span == text.value
    ensures a.end <= a.start && text.None? ==> p.span == ""
  {
    var span := if text.Some? then text.value else Substr(value, a.start, a.end - a.start);
    Projection(Substr(value, 0, a.start), span, SubstrFrom(value, a.end))
  }

  /** The row of the `selected` annotation, which covers the selection whichever way its ends are given. */
  function SelectionRow(value: string, start: int, end: int): (p: Projection)
    ensures 0 <= start <= |value| && 0 <= end <= |value| ==> p.prefix + p.span + p.suffix == value
    ensures 0 <= start <= end <= |value| ==> p == Projection(value[..start], value[start..end], value[end..])
    ensures 0 <= end <= start <= |value| ==> p == Projection(value[..end], value[end..start], value[start..])
  {
    RenderAnnotation(value, Annotation("selected", if start < end then start else end, if start < end then end else start), None)
  }

  /**
   * The rows drawn for the marks, in the order they were first set, followed
   * by the trailer row when there is a trailer: the whole text, then a
   * zero-width space and the trailer, and nothing after.
   */
  function Rows(value: string, marks: seq<Annotation>, trailer: string): (rows: seq<Projection>)
    ensures |rows| == |marks| + (if trailer != "" then 1 else 0)
    ensures forall i :: 0 <= i < |marks| ==> rows[i] == RenderAnnotation(value, marks[i], None)
    ensures trailer != "" ==> rows[|marks|] == Projection(value, [ZeroWidthSpace] + trailer, "")
  {
    var rows := seq(|marks|, i requires 0 <= i < |marks| => RenderAnnotation(value, marks[i], None));
    if trailer == "" then rows
    else rows + [RenderAnnotation(value, Annotation("trailer", |value|, |value|), Some([ZeroWidthSpace] + trailer))]
  }

  /** The text `replaceWith` inserts: the handler's answer for the replaced text, without line feeds on a single-line control. */
  function UpdatedText(value: string, r: Range, handler: string -> string, multiline: bool): (t: string)
    ensures multiline ==> t == handler(Substr(value, r.start, r.end - r.start))
    ensures !multiline ==> t == StripNewlines(handler(Substr(value, r.start, r.end - r.start)))
    ensures !multiline ==> '\n' !in t
    ensures |t| <= |handler(Substr(value, r.start, r.end - r.start))|
  {
    var answer := handler(Substr(value, r.start, r.end - r.start));
    if multiline then answer else StripNewlines(answer)
  }

  /**
   * A range made with the mouse, which the host reports without a direction,
   * collapses on Escape onto the end that moved in the pass that recorded it.
   */
  lemma EscapeFollowsMovedEnd(prev: Snapshot, s: Surface)
    requires s.Valid() && s.direction == NoDirection && s.selectionStart < s.selectionEnd
    requires SelectionMoved(prev, s)
    ensures EscapeTarget(Snapshot(s.value, s.selectionStart, s.selectionEnd, InferDirection(prev, s)), |s.value|)
            == Some(if s.selectionStart == prev.selectionStart then s.selectionEnd else s.selectionStart)
  {
  }

  /** The state of a pass between the client's `update` callback and the redraw that follows it. */
  datatype Pass = Pass(anyValueChange: bool, selectionRow: Projection)

  class InputController {
    /** The host `<textarea>`. */
    var surface: Surface
    /** `state`: the last reconciled copy of the control. */
    var state: Snapshot
    var multiline: bool
    var trailer: string
    /** `userAnnotations`, keyed by the client's name; each is drawn as part `mark-` and that name. */
    var annotations: JsMap<Annotation>
    var pendingMarkup: bool
    var pendingTrailer: bool
    var pendingValue: bool
    /** The pass in progress, if any (`duringContentChangeHint`). */
    var pass: Option<Pass>
    /** The text of the sizing node: the control's text, a zero-width space, the trailer. */
    var rendered: string
    /** The overlay rows; the first is always the selection's. */
    var overlay: seq<Projection>
    /** The coalescer of the content events. */
    const hint: Frames.Listener

    ghost predicate Valid()
      reads this
    {
      && surface.Valid()
      && annotations.Valid()
      && |overlay| >= 1
      && (forall k :: k in annotations.entries ==> annotations.entries[k].name == "mark-" + k)
    }

    /** The control's text differs from the snapshot (an edit the controller did not make). */
    predicate ValueChanged()
      reads this
    {
      state.value != surface.value
    }

    predicate SelectionChanged()
      reads this
    {
      state.selectionStart != surface.selectionStart || state.selectionEnd != surface.selectionEnd
    }

    /** What a pass reports to `update`: an unexpected edit, or an edit or markup the controller made. */
    predicate AnyValueChange()
      reads this
    {
      ValueChanged() || pendingValue || pendingMarkup
    }

    /** `build`: an empty control, a snapshot with an impossible selection start, and one pass requested. */
    constructor ()
      ensures Valid() && fresh(hint)
      ensures surface == Surface("", 0, 0, NoDirection)
      ensures state == Snapshot("", -1, 0, NoDirection)
      ensures !multiline && trailer == "" && annotations == Empty()
      ensures !pendingMarkup && !pendingTrailer && !pendingValue && pass.None?
      ensures overlay == [Projection("", "", "")] && rendered == ""
      ensures hint.pending && hint.seen == {}
    {
      surface := Surface("", 0, 0, NoDirection);
      state := Snapshot("", -1, 0, NoDirection);
      multiline, trailer := false, "";
      annotations := Empty();
      pendingMarkup, pendingTrailer, pendingValue := false, false, false;
      pass := None;
      rendered := "";
      overlay := [Projection("", "", "")];
      hint := new Frames.Listener();
      new;
      hint.Signal(None);
    }

    /**
     * A frame runs; when the coalescer was pending, its handler starts a pass.
     */
    method RunFrame() returns (update: Option<bool>)
      requires Valid() && pass.None?
      modifies this, hint
      ensures Valid()
      ensures !hint.pending && hint.seen == (if old(hint.pending) then {} else old(hint.seen))
      ensures !old(hint.pending) ==> update.None? && unchanged(this)
      ensures old(hint.pending) ==> Started(update)
    {
      var fired, ignored := hint.RunFrame();
      update := None;
      if fired {
        update := StartPass();
      }
    }

    /** What starting a pass did, compared with the state before it. */
    twostate predicate Started(new update: Option<bool>)
      reads this
    {
      && (!old(AnyValueChange() || SelectionChanged()) ==> update.None? && unchanged(this))
      && (old(AnyValueChange() || SelectionChanged()) ==>
            && update == Some(old(AnyValueChange()))
            && state == Snapshot(surface.value, surface.selectionStart, surface.selectionEnd, InferDirection(old(state), surface))
            && annotations == (if old(ValueChanged()) then Empty() else old(annotations))
            && pendingValue == (old(pendingValue) && !old(ValueChanged()) && !old(pendingTrailer))
            && !pendingTrailer
            && rendered == (if old(ValueChanged() || pendingTrailer) then surface.value + [ZeroWidthSpace] + trailer else old(rendered))
            && pass == Some(Pass(old(AnyValueChange()), SelectionRow(surface.value, surface.selectionStart, surface.selectionEnd)))
            && |overlay| == |old(overlay)| >= 1 && overlay[1..] == old(overlay)[1..]
            && overlay[0] == SelectionRow(surface.value, surface.selectionStart, surface.selectionEnd)
            && surface == old(surface) && multiline == old(multiline) && trailer == old(trailer)
            && pendingMarkup == old(pendingMarkup))
    }

    /**
     * The pass up to the client's `update` callback: nothing happens unless
     * the text, the selection or pending work changed; otherwise marks go when
     * the text was edited from outside, the snapshot takes the control's
     * values with the inferred direction, and the selection row is redrawn.
     */
    method StartPass() returns (update: Option<bool>)
      requires Valid() && pass.None?
      modifies this
      ensures Valid()
      ensures Started(update)
    {
      var any := AnyValueChange();
      if !any && !SelectionChanged() {
        return None;
      }
      ghost var before := state;
      DropStaleMarks();
      Record(any, before);
      update := Some(any);
    }

    /**
     * The part of a pass that runs when the text was edited from outside or a
     * trailer is owed: an outside edit drops every mark, the owed value change
     * is settled, and the sizing text is redrawn.
     */
    method DropStaleMarks()
      requires Valid()
      modifies this
      ensures Valid()
      ensures annotations == (if old(ValueChanged()) then Empty() else old(annotations))
      ensures pendingValue == (old(pendingValue) && !old(ValueChanged()) && !old(pendingTrailer))
      ensures !pendingTrailer
      ensures rendered == (if old(ValueChanged() || pendingTrailer) then surface.value + [ZeroWidthSpace] + trailer else old(rendered))
      ensures state == old(state) && surface == old(surface) && pass == old(pass) && overlay == old(overlay)
      ensures pendingMarkup == old(pendingMarkup) && multiline == old(multiline) && trailer == old(trailer)
    {
      var unexpected := ValueChanged();
      if unexpected || pendingTrailer {
        if unexpected || (!pendingValue && !pendingTrailer) {
          annotations := Empty();
        }
        pendingValue := false;
        rendered := surface.value + [ZeroWidthSpace] + trailer;
        pendingTrailer := false;
      }
    }

    /** The snapshot takes the control's values and the inferred direction; the selection row is redrawn. */
    method Record(any: bool, ghost before: Snapshot)
      requires Valid() && state == before
      modifies this
      ensures Valid()
      ensures state == Snapshot(surface.value, surface.selectionStart, surface.selectionEnd, InferDirection(before, surface))
      ensures pass == Some(Pass(any, SelectionRow(surface.value, surface.selectionStart, surface.selectionEnd)))
      ensures |overlay| == |old(overlay)| && overlay[1..] == old(overlay)[1..]
      ensures overlay[0] == SelectionRow(surface.value, surface.selectionStart, surface.selectionEnd)
      ensures surface == old(surface) && annotations == old(annotations) && rendered == old(rendered)
      ensures pendingValue == old(pendingValue) && pendingMarkup == old(pendingMarkup) && pendingTrailer == old(pendingTrailer)
      ensures multiline == old(multiline) && trailer == old(trailer)
    {
      var row := SelectionRow(surface.value, surface.selectionStart, surface.selectionEnd);
      var redrawn := overlay[0 := row];
      assert redrawn[1..] == overlay[1..];
      state, overlay, pass :=
        Snapshot(surface.value, surface.selectionStart, surface.selectionEnd, InferDirection(state, surface)),
        redrawn, Some(Pass(any, row));
    }

    /**
     * The rest of the pass, after `update` returned: a trailer set during the
     * callback is drawn; when the text or the markup changed, the overlay is
     * rebuilt from the selection row, the marks and the trailer row.
     */
    method FinishTick()
      requires Valid() && pass.Some?
      modifies this
      ensures Valid() && pass.None?
      ensures !pendingTrailer && !pendingMarkup
      ensures rendered == if old(pendingTrailer) then surface.value + [ZeroWidthSpace] + trailer else old(rendered)
      ensures old(pass.value.anyValueChange || pendingMarkup) ==>
                overlay == [old(pass.value.selectionRow)] + Rows(state.value, annotations.Values(), trailer)
      ensures !old(pass.value.anyValueChange || pendingMarkup) ==> overlay == old(overlay)
      ensures surface == old(surface) && state == old(state) && annotations == old(annotations)
      ensures pendingValue == old(pendingValue) && multiline == old(multiline) && trailer == old(trailer)
    {
      var p := pass.value;
      pass := None;
      if pendingTrailer {
        rendered := surface.value + [ZeroWidthSpace] + trailer;
        pendingTrailer := false;
      }
      if !p.anyValueChange && !pendingMarkup {
        return;
      }
      pendingMarkup := false;
      overlay := [p.selectionRow] + Rows(state.value, annotations.Values(), trailer);
    }

    /** The user or the host changes the control, and the event named `eventType` reaches it. */
    method HostEvent(s: Surface, eventType: string)
      requires Valid() && pass.None? && s.Valid()
      modifies this, hint
      ensures Valid() && surface == s
      ensures eventType in Util.ContentEventNames ==> hint.pending && hint.seen == old(hint.seen) + {eventType}
      ensures eventType !in Util.ContentEventNames ==> hint.pending == old(hint.pending) && hint.seen == old(hint.seen)
      ensures state == old(state) && annotations == old(annotations) && pass == old(pass)
      ensures pendingValue == old(pendingValue) && pendingMarkup == old(pendingMarkup) && pendingTrailer == old(pendingTrailer)
      ensures multiline == old(multiline) && trailer == old(trailer) && rendered == old(rendered) && overlay == old(overlay)
    {
      surface := s;
      if eventType in Util.ContentEventNames {
        hint.Signal(Some(eventType));
      }
    }

    /** `find(name)`: a copy of the stored mark. */
    function Find(name: string): (r: Option<Annotation>)
      requires Valid()
      reads this
      ensures r.Some? <==> name in annotations.entries
      ensures r.Some? ==> r.value == annotations.entries[name]
      ensures r.Some? ==> r.value.name == "mark-" + name
    {
      annotations.Get(name)
    }

    /**
     * `mark(name, range)`: stores or removes a mark. Setting the range it
     * already has, or removing a name that is not there, changes nothing and
     * requests no pass; otherwise markup is owed, and a pass is requested
     * unless one is in progress.
     */
    method Mark(name: string, range: Option<Range>)
      requires Valid()
      modifies this, hint
      ensures Valid()
      ensures range.Some? ==> Find(name) == Some(Annotation("mark-" + name, range.value.start, range.value.end))
      ensures range.None? ==> Find(name).None?
      ensures range.Some? && name !in old(annotations.entries) ==> annotations.keys == old(annotations.keys) + [name]
      ensures range.Some? && name in old(annotations.entries) ==> annotations.keys == old(annotations.keys)
      ensures range.None? ==> annotations.keys == Without(old(annotations.keys), name)
      ensures forall k :: k != name ==> annotations.Get(k) == old(annotations.Get(k))
      ensures var noop := if range.Some? then old(Find(name)).Some? && old(Find(name)).value.start == range.value.start && old(Find(name)).value.end == range.value.end
                          else old(Find(name)).None?;
              && (noop ==> (annotations == old(annotations) && pendingMarkup == old(pendingMarkup)
                    && hint.pending == old(hint.pending) && hint.seen == old(hint.seen)))
              && (!noop ==> (pendingMarkup
                    && (old(pass).None? ==> hint.pending && hint.seen == old(hint.seen))
                    && (old(pass).Some? ==> hint.pending == old(hint.pending) && hint.seen == old(hint.seen))))
      ensures surface == old(surface) && state == old(state) && pass == old(pass) && overlay == old(overlay)
      ensures pendingValue == old(pendingValue) && pendingTrailer == old(pendingTrailer)
      ensures multiline == old(multiline) && trailer == old(trailer) && rendered == old(rendered)
    {
      if range.Some? {
        var prev := annotations.Get(name);
        if prev.Some? && prev.value.start == range.value.start && prev.value.end == range.value.end {
          return;
        }
        annotations := annotations.Set(name, Annotation("mark-" + name, range.value.start, range.value.end));
      } else if name in annotations.entries {
        annotations := annotations.Delete(name);
      } else {
        WithoutAbsent(annotations.keys, name);
        return;
      }
      pendingMarkup := true;
      if pass.None? {
        hint.Signal(None);
      }
    }

    /**
     * `replaceWith(handler, range)`: replaces the range (the selection when
     * none is given) by the handler's answer, drifts both selection ends
     * through the edit, drops every mark, and returns where the new text lies.
     */
    method ReplaceWith(handler: string -> string, range: Option<Range>, nativeEdit: bool) returns (updated: Range)
      requires Valid()
      modifies this, hint
      ensures Valid()
      ensures var r := if range.Some? then range.value else Range(old(state.selectionStart), old(state.selectionEnd));
              var t := UpdatedText(old(state.value), r, handler, old(multiline));
              && updated == Range(r.start, r.start + |t|)
              && state == Snapshot(Expected(old(state.value), r, t), Clamped(r, t, old(state.selectionStart)),
                                   Clamped(r, t, old(state.selectionEnd)), old(state.direction))
              && (range.None? && 0 <= old(state.selectionStart) <= old(state.selectionEnd) ==>
                    state.selectionEnd == old(state.selectionStart) + |t| &&
                    state.selectionStart == (if old(state.selectionStart) < old(state.selectionEnd) then old(state.selectionStart) else state.selectionEnd))
              && (0 <= r.start <= r.end <= |old(state.value)| && 0 <= old(state.selectionStart) <= old(state.selectionEnd) <= |old(state.value)|
                  && |state.value| < TwoTo32 ==>
                    surface.selectionStart == state.selectionStart && surface.selectionEnd == state.selectionEnd)
      ensures surface == Selecting(state.value, state.selectionStart, state.selectionEnd, NoDirection)
      ensures annotations == Empty() && pendingValue
      ensures hint.pending && old(hint.seen) <= hint.seen <= old(hint.seen) + {"input", "change"}
      ensures pendingMarkup == old(pendingMarkup) && pendingTrailer == old(pendingTrailer) && pass == old(pass)
      ensures multiline == old(multiline) && trailer == old(trailer) && rendered == old(rendered) && overlay == old(overlay)
    {
      var r := if range.Some? then range.value else Range(state.selectionStart, state.selectionEnd);
      var t := UpdatedText(state.value, r, handler, multiline);
      var expected := Expected(state.value, r, t);
      EditSurface(if range.Some? then Some(r) else None, t, expected, nativeEdit);
      var ds := Clamped(r, t, state.selectionStart);
      var de := Clamped(r, t, state.selectionEnd);
      if range.None? && 0 <= state.selectionStart <= state.selectionEnd {
        ClampedOverReplacedRange(state.selectionStart, state.selectionEnd, t);
      }
      if 0 <= r.start <= r.end <= |state.value| && 0 <= state.selectionStart <= state.selectionEnd <= |state.value| {
        DriftedSelectionInside(state.value, r, t, state.selectionStart, state.selectionEnd);
      }
      Settle(expected, ds, de);
      updated := Range(r.start, r.start + |t|);
    }

    /** After an edit to `expected`: the snapshot and the control's selection take the drifted ends, and every mark goes. */
    method Settle(expected: string, selectionStart: int, selectionEnd: int)
      requires Valid() && surface.value == expected
      modifies this
      ensures Valid()
      ensures state == Snapshot(expected, selectionStart, selectionEnd, old(state.direction))
      ensures surface == Selecting(expected, selectionStart, selectionEnd, NoDirection)
      ensures annotations == Empty() && pendingValue
      ensures pendingMarkup == old(pendingMarkup) && pendingTrailer == old(pendingTrailer) && pass == old(pass)
      ensures multiline == old(multiline) && trailer == old(trailer) && rendered == old(rendered) && overlay == old(overlay)
    {
      state := Snapshot(expected, selectionStart, selectionEnd, state.direction);
      surface := Selecting(surface.value, selectionStart, selectionEnd, NoDirection);
      pendingValue := true;
      annotations := Empty();
    }

    /**
     * The edit itself: the target range selected when one was given, then the
     * native command or the fallback assignment, whose events reach the
     * coalescer.
     */
    method EditSurface(target: Option<Range>, t: string, expected: string, nativeEdit: bool)
      requires Valid()
      modifies this, hint
      ensures Valid() && surface.value == expected
      ensures hint.pending && old(hint.seen) <= hint.seen <= old(hint.seen) + {"input", "change"}
      ensures state == old(state) && annotations == old(annotations) && pass == old(pass)
      ensures pendingValue == old(pendingValue) && pendingMarkup == old(pendingMarkup) && pendingTrailer == old(pendingTrailer)
      ensures multiline == old(multiline) && trailer == old(trailer) && rendered == old(rendered) && overlay == old(overlay)
    {
      if target.Some? {
        surface := Selecting(surface.value, target.value.start, target.value.end, NoDirection);
      }
      var outcome := Edit(surface, t, expected, nativeEdit);
      surface := outcome.surface;
      SignalAll(outcome.events);
    }

    /** Each of the events an edit dispatched reaches the coalescer. */
    method SignalAll(events: seq<string>)
      requires |events| > 0
      modifies hint
      ensures hint.pending && hint.seen == old(hint.seen) + set e | e in events
    {
      var i := 0;
      while i < |events|
        invariant 0 <= i <= |events|
        invariant i > 0 ==> hint.pending
        invariant hint.seen == old(hint.seen) + set e | e in events[..i]
      {
        hint.Signal(Some(events[i]));
        assert events[..i + 1] == events[..i] + [events[i]];
        i := i + 1;
      }
      assert events[..i] == events;
    }

    /**
     * The `value` setter: line feeds dropped on a single-line control, the
     * text assigned with a `change` event, the caret put at the end, and
     * every mark dropped.
     */
    method SetValue(v: string)
      requires Valid()
      modifies this, hint
      ensures Valid()
      ensures var t := if old(multiline) then v else StripNewlines(v);
              && state == Snapshot(t, |t|, |t|, old(state.direction))
              && surface == Selecting(t, |t|, |t|, NoDirection)
              && (|t| < TwoTo32 ==> surface == Surface(t, |t|, |t|, NoDirection))
      ensures annotations == Empty() && pendingValue
      ensures hint.pending && hint.seen == old(hint.seen) + {"change"}
      ensures pendingMarkup == old(pendingMarkup) && pendingTrailer == old(pendingTrailer) && pass == old(pass)
      ensures multiline == old(multiline) && trailer == old(trailer) && rendered == old(rendered) && overlay == old(overlay)
    {
      var t := if multiline then v else StripNewlines(v);
      state := state.(value := t);
      surface := Assign(surface, t);
      hint.Signal(Some("change"));
      pendingValue := true;
      surface := Selecting(surface.value, |t|, |t|, NoDirection);
      state := state.(selectionStart := |t|, selectionEnd := |t|);
      annotations := Empty();
    }

    method SetMultiline(v: bool)
      modifies this
      ensures multiline == v
      ensures surface == old(surface) && state == old(state) && annotations == old(annotations) && pass == old(pass)
      ensures pendingValue == old(pendingValue) && pendingMarkup == old(pendingMarkup) && pendingTrailer == old(pendingTrailer)
      ensures trailer == old(trailer) && rendered == old(rendered) && overlay == old(overlay)
    {
      multiline := v;
    }

    /**
     * The `trailer` setter: a new trailer owes both a redraw of the sizing
     * text and of the markup, and requests a pass unless one is in progress.
     */
    method SetTrailer(v: string)
      requires Valid()
      modifies this, hint
      ensures Valid() && trailer == v
      ensures v == old(trailer) ==> (pendingTrailer == old(pendingTrailer) && pendingMarkup == old(pendingMarkup)
                && hint.pending == old(hint.pending) && hint.seen == old(hint.seen))
      ensures v != old(trailer) ==> (pendingTrailer && pendingMarkup && hint.seen == old(hint.seen)
                && (old(pass).None? ==> hint.pending) && (old(pass).Some? ==> hint.pending == old(hint.pending)))
      ensures surface == old(surface) && state == old(state) && annotations == old(annotations) && pass == old(pass)
      ensures pendingValue == old(pendingValue) && multiline == old(multiline)
      ensures rendered == old(rendered) && overlay == old(overlay)
    {
      if trailer == v {
        return;
      }
      trailer := v;
      pendingTrailer := true;
      pendingMarkup := true;
      if pass.None? {
        hint.Signal(None);
      }
    }

    /** `selectAll()`: the whole text selected, and a pass requested. */
    method SelectAll()
      requires Valid()
      modifies this, hint
      ensures Valid()
      ensures surface == Surface(old(surface.value), 0, |old(surface.value)|, NoDirection) || |old(surface.value)| >= TwoTo32
      ensures surface.value == old(surface.value)
      ensures hint.pending && hint.seen == old(hint.seen)
      ensures state == old(state) && annotations == old(annotations) && pass == old(pass)
      ensures pendingValue == old(pendingValue) && pendingMarkup == old(pendingMarkup) && pendingTrailer == old(pendingTrailer)
      ensures multiline == old(multiline) && trailer == old(trailer) && rendered == old(rendered) && overlay == old(overlay)
    {
      surface := Selecting(surface.value, 0, |surface.value|, NoDirection);
      hint.Signal(None);
    }

    /**
     * A key press. The coalescer sees the `keydown` first. Escape collapses
     * the selection where `EscapeTarget` says and is then swallowed; Space is
     * swallowed when the client's `spaceKey` callback answers true. A
     * vertical key without Shift is swallowed when `navTaken`, which stands
     * for the rest of the nav decision: a selection row is drawn, a `nav`
     * callback is given, the caret is on the first line (up) or the last
     * (down) by the overlay's geometry, and the callback answers true.
     * Enter and the other keys pass through.
     */
    method KeyDown(key: string, shift: bool, spaceHandled: bool, navTaken: bool) returns (prevented: bool)
      requires Valid() && pass.None?
      modifies this, hint
      ensures Valid()
      ensures hint.pending && hint.seen == old(hint.seen) + {"keydown"}
      ensures key == "Escape" ==>
                var target := EscapeTarget(old(state), |old(surface.value)|);
                && prevented == target.Some?
                && surface == (if target.Some? then Selecting(old(surface.value), target.value, target.value, NoDirection) else old(surface))
      ensures key == " " ==> prevented == spaceHandled && surface == old(surface)
      ensures key in VerticalKeys ==> prevented == (!shift && navTaken) && surface == old(surface)
      ensures key != "Escape" && key != " " && key !in VerticalKeys ==> !prevented && surface == old(surface)
      ensures state == old(state) && annotations == old(annotations) && pass == old(pass)
      ensures pendingValue == old(pendingValue) && pendingMarkup == old(pendingMarkup) && pendingTrailer == old(pendingTrailer)
      ensures multiline == old(multiline) && trailer == old(trailer) && rendered == old(rendered) && overlay == old(overlay)
    {
      hint.Signal(Some("keydown"));
      prevented := false;
      if key == "Escape" {
        var target := EscapeTarget(state, |surface.value|);
        if target.Some? {
          surface := Selecting(surface.value, target.value, target.value, NoDirection);
          prevented := true;
        }
      } else if key == " " {
        prevented := spaceHandled;
      } else if key in VerticalKeys {
        prevented := !shift && navTaken;
      }
    }

    /**
     * A paste of `clipboard` (`None` when the clipboard holds no text). On a
     * single-line control a paste holding line feeds is swallowed and
     * replayed over the selection with each line feed turned into a space.
     */
    method Paste(clipboard: Option<string>, nativeEdit: bool) returns (prevented: bool)
      requires Valid()
      modifies this, hint
      ensures Valid()
      ensures var text := if clipboard.Some? then clipboard.value else "";
              && prevented == (!old(multiline) && '\n' in text)
              && (prevented ==>
                    var r, spaced := Range(old(state.selectionStart), old(state.selectionEnd)), NewlinesToSpaces(text);
                    && state == Snapshot(Expected(old(state.value), r, spaced), Clamped(r, spaced, old(state.selectionStart)),
                                         Clamped(r, spaced, old(state.selectionEnd)), old(state.direction))
                    && surface == Selecting(state.value, state.selectionStart, state.selectionEnd, NoDirection)
                    && annotations == Empty() && pendingValue
                    && old(hint.seen) + {"paste"} <= hint.seen <= old(hint.seen) + {"paste", "input", "change"})
              && (!prevented ==> (state == old(state) && surface == old(surface) && annotations == old(annotations)
                    && pendingValue == old(pendingValue) && hint.seen == old(hint.seen) + {"paste"}))
      ensures hint.pending && "paste" in hint.seen
      ensures pendingMarkup == old(pendingMarkup) && pendingTrailer == old(pendingTrailer) && pass == old(pass)
      ensures multiline == old(multiline) && trailer == old(trailer) && rendered == old(rendered) && overlay == old(overlay)
    {
      hint.Signal(Some("paste"));
      if multiline {
        return false;
      }
      var text := if clipboard.Some? then clipboard.value else "";
      if '\n' !in text {
        return false;
      }
      prevented := true;
      var spaced := NewlinesToSpaces(text);
      var previous := Substr(state.value, state.selectionStart, state.selectionEnd - state.selectionStart);
      assert StripNewlines(((was: string) => spaced)(previous)) == spaced;
      var range := ReplaceWith((was: string) => spaced, None, nativeEdit);
    }
  }

  /**
   * After a fresh controller has settled, a frame in which nothing changed
   * (a click that moved nothing) runs no pass and calls no `update`.
   */
  method IdleFrameIsQuiet() returns (settled: Option<bool>, idle: Option<bool>)
    ensures settled == Some(false)
    ensures idle.None?
  {
    var c := new InputController();
    settled := c.RunFrame();
    c.FinishTick();
    c.HostEvent(c.surface, "click");
    idle := c.RunFrame();
  }

  /**
   * The owed value change that `replaceWith` records is settled only by a
   * pass that also sees an outside edit or an owed trailer, so every later
   * pass, even one caused by a click that changed nothing, reports a value
   * change to `update`.
   */
  method ReplaceKeepsReportingValueChange(text: string, nativeEdit: bool) returns (first: Option<bool>, second: Option<bool>)
    ensures first == Some(true)
    ensures second == Some(true)
  {
    var c := new InputController();
    var settled := c.RunFrame();
    c.FinishTick();
    var range := c.ReplaceWith((was: string) => text, None, nativeEdit);
    first := c.RunFrame();
    c.FinishTick();
    c.HostEvent(c.surface, "click");
    second := c.RunFrame();
  }

  /** A mark survives the pass it requested, and is dropped by the pass that sees an outside edit. */
  method OutsideEditDropsMarks(name: string, range: Range, edited: Surface) returns (before: Option<Annotation>, after: Option<Annotation>)
    requires edited.Valid() && edited.value != ""
    ensures before == Some(Annotation("mark-" + name, range.start, range.end))
    ensures after.None?
  {
    var c := new InputController();
    var settled := c.RunFrame();
    c.FinishTick();
    c.Mark(name, Some(range));
    var marked := c.RunFrame();
    c.FinishTick();
    before := c.Find(name);
    c.HostEvent(edited, "input");
    var edit := c.RunFrame();
    after := c.Find(name);
  }

  /**
   * A trailer change owes a redraw but is no edit: the pass it shares with a
   * new mark keeps the mark.
   */
  method TrailerKeepsMarks(name: string, range: Range, trailer: string) returns (after: Option<Annotation>)
    requires trailer != ""
    ensures after == Some(Annotation("mark-" + name, range.start, range.end))
  {
    var c := new InputController();
    c.Mark(name, Some(range));
    c.SetTrailer(trailer);
    var update := c.RunFrame();
    c.FinishTick();
    after := c.Find(name);
  }
}
