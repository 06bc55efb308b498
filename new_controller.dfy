/**
 * new/controller.js: the later controller. Its pass also runs for owed
 * markup, drops the marks as soon as it sees a value change, and redraws
 * after the client's `update` callback; `replaceWith` and the `value` setter
 * only edit the control and leave the rest to the next pass.
 */
module NewController {
  import opened Wrappers
  import opened Text
  import opened Surface
  import opened Drift
  import opened JsMaps
  import opened Overlay
  import Util
  import Frames

  /**
   * `renderAnnotation(value, annotation)`: the row holds the text before the
   * range and, as the span, the range's text followed by a zero-width space;
   * nothing follows the span.
   */
  function RenderAnnotation(value: string, a: Annotation): (p: Projection)
    ensures p.suffix == "" && |p.span| >= 1 && p.span[|p.span| - 1] == ZeroWidthSpace
    ensures 0 <= a.start <= a.end <= |value| ==>
              p.prefix == value[..a.start] && p.span == value[a.start..a.end] + [ZeroWidthSpace]
    ensures 0 <= a.start <= a.end <= |value| ==> p.prefix + p.span == value[..a.end] + [ZeroWidthSpace]
    ensures a.end <= a.start ==> p.span == [ZeroWidthSpace]
  {
    Projection(Substr(value, 0, a.start), Substr(value, a.start, a.end - a.start) + [ZeroWidthSpace], "")
  }

  /** The `selected` row, which covers the selection whichever way its ends are given. */
  function SelectionRow(value: string, start: int, end: int): (p: Projection)
    ensures 0 <= start <= end <= |value| ==>
              p == Projection(value[..start], value[start..end] + [ZeroWidthSpace], "")
    ensures 0 <= end <= start <= |value| ==>
              p == Projection(value[..end], value[end..start] + [ZeroWidthSpace], "")
  {
    RenderAnnotation(value, Annotation("selected", if start < end then start else end, if start < end then end else start))
  }

  /** The rows drawn for the marks, in the order they were first set. */
  function Rows(value: string, marks: seq<Annotation>): (rows: seq<Projection>)
    ensures |rows| == |marks|
    ensures forall i :: 0 <= i < |marks| ==> rows[i] == RenderAnnotation(value, marks[i])
  {
    seq(|marks|, i requires 0 <= i < |marks| => RenderAnnotation(value, marks[i]))
  }

  /** The name `mark` refuses, and what it throws. */
  const Reserved: string := "selection"
  const ReservedError: string := "can't update 'selection'"

  class InputController {
    /** The host `<textarea>`. */
    var surface: Surface
    /** `state`: the last reconciled copy of the control. */
    var state: Snapshot
    var multiline: bool
    /** `userAnnotations`, keyed by the client's name, which is also the part name. */
    var annotations: JsMap<Annotation>
    var pendingMarkup: bool
    /** The pass in progress and its value change, if any (`duringContentChangeHint`). */
    var pass: Option<bool>
    /** The text of the sizing node. */
    var rendered: string
    /** The overlay rows; when there are any, the first is the selection's. */
    var overlay: seq<Projection>
    /** The coalescer of the content events; a manual request records the empty type. */
    const hint: Frames.BlankListener

    ghost predicate Valid()
      reads this
    {
      && surface.Valid()
      && annotations.Valid()
      && (forall k :: k in annotations.entries ==> annotations.entries[k].name == k)
    }

    predicate ValueChanged()
      reads this
    {
      state.value != surface.value
    }

    predicate SelectionChanged()
      reads this
    {
      state.selectionStart != surface.selectionStart || state.selectionEnd != surface.selectionEnd
    }

    /** Whether a pass has anything to do: an edit, a selection move, or owed markup. */
    predicate AnyChange()
      reads this
    {
      ValueChanged() || SelectionChanged() || pendingMarkup
    }

    /** `build`: an empty control, an impossible snapshot, no overlay, and one pass requested. */
    constructor ()
      ensures Valid() && fresh(hint)
      ensures surface == Surface("", 0, 0, NoDirection)
      ensures state == Snapshot("", -1, 0, NoDirection)
      ensures !multiline && annotations == Empty() && !pendingMarkup && pass.None?
      ensures overlay == [] && rendered == ""
      ensures hint.pending && hint.seen == {""}
    {
      surface := Surface("", 0, 0, NoDirection);
      state := Snapshot("", -1, 0, NoDirection);
      multiline := false;
      annotations := Empty();
      pendingMarkup := false;
      pass := None;
      rendered := "";
      overlay := [];
      hint := new Frames.BlankListener();
      new;
      hint.Signal(None);
    }

    /** A frame runs; when the coalescer was pending, its handler starts a pass. */
    method RunFrame() returns (update: Option<bool>)
      requires Valid() && pass.None?
      modifies this, hint
      ensures Valid()
      ensures !hint.pending && hint.seen == (if old(hint.pending) then {} else old(hint.seen))
      ensures !old(hint.pending) ==> update.None? && unchanged(this)
      ensures old(hint.pending) ==> Started(update)
    {
      var fired, ignored := hint.RunFrame();
      update := None;
      if fired {
        update := StartPass();
      }
    }

    /** What starting a pass did, compared with the state before it. */
    twostate predicate Started(new update: Option<bool>)
      reads this
    {
      && (!old(AnyChange()) ==> update.None? && unchanged(this))
      && (old(AnyChange()) ==>
            && update == Some(old(ValueChanged()))
            && pass == update
            && state == Snapshot(surface.value, surface.selectionStart, surface.selectionEnd, InferDirection(old(state), surface))
            && annotations == (if old(ValueChanged()) then Empty() else old(annotations))
            && rendered == (if old(ValueChanged()) then surface.value else old(rendered))
            && surface == old(surface) && multiline == old(multiline) && overlay == old(overlay)
            && pendingMarkup == old(pendingMarkup))
    }

    /**
     * The pass up to the client's `update` callback: nothing happens unless
     * the text, the selection or the markup changed; an edit redraws the
     * sizing text and drops every mark before `update` hears of it; the
     * snapshot takes the control's values with the inferred direction.
     */
    method StartPass() returns (update: Option<bool>)
      requires Valid() && pass.None?
      modifies this
      ensures Valid()
      ensures Started(update)
    {
      var valueChange := ValueChanged();
      if !AnyChange() {
        return None;
      }
      if valueChange {
        rendered := surface.value;
        annotations := Empty();
      }
      var direction := InferDirection(state, surface);
      state := Snapshot(surface.value, surface.selectionStart, surface.selectionEnd, direction);
      pass := Some(valueChange);
      update := Some(valueChange);
    }

    /**
     * The rest of the pass, after `update` returned: after an edit or owed
     * markup the overlay is rebuilt from the selection row and the marks;
     * otherwise only the selection row is replaced, when it is on show.
     */
    method FinishTick()
      requires Valid() && pass.Some?
      modifies this
      ensures Valid() && pass.None? && !pendingMarkup
      ensures var row := SelectionRow(state.value, state.selectionStart, state.selectionEnd);
              && (old(pass.value || pendingMarkup) ==> overlay == [row] + Rows(state.value, annotations.Values()))
              && (!old(pass.value || pendingMarkup) && old(overlay) != [] ==> overlay == old(overlay)[0 := row])
              && (!old(pass.value || pendingMarkup) && old(overlay) == [] ==> overlay == [])
      ensures surface == old(surface) && state == old(state) && annotations == old(annotations)
      ensures multiline == old(multiline) && rendered == old(rendered)
    {
      var valueChange := pass.value;
      pass := None;
      var row := SelectionRow(state.value, state.selectionStart, state.selectionEnd);
      if valueChange || pendingMarkup {
        overlay := [row] + Rows(state.value, annotations.Values());
        pendingMarkup := false;
      } else if overlay != [] {
        overlay := overlay[0 := row];
      }
    }

    /** The user or the host changes the control, and the event named `eventType` reaches it. */
    method HostEvent(s: Surface, eventType: string)
      requires Valid() && pass.None? && s.Valid()
      modifies this, hint
      ensures Valid() && surface == s
      ensures eventType in Util.ContentEventNames ==> hint.pending && hint.seen == old(hint.seen) + {eventType}
      ensures eventType !in Util.ContentEventNames ==> hint.pending == old(hint.pending) && hint.seen == old(hint.seen)
      ensures state == old(state) && annotations == old(annotations) && pass == old(pass)
      ensures pendingMarkup == old(pendingMarkup) && multiline == old(multiline)
      ensures rendered == old(rendered) && overlay == old(overlay)
    {
      surface := s;
      if eventType in Util.ContentEventNames {
        hint.Signal(Some(eventType));
      }
    }

    /**
     * `mark(name, annotation)`: the name `selection` throws; otherwise the
     * mark is stored (even with the range it already had) or removed, and
     * markup is owed, with a pass requested unless one is in progress.
     * Removing a name that is not there changes nothing.
     */
    method Mark(name: string, range: Option<Range>) returns (outcome: Result<(), string>)
      requires Valid()
      modifies this, hint
      ensures Valid()
      ensures outcome.Err? <==> name == Reserved
      ensures outcome.Err? ==> outcome.error == ReservedError
      ensures outcome.Ok? && range.Some? ==> annotations.Get(name) == Some(Annotation(name, range.value.start, range.value.end))
      ensures outcome.Ok? && range.None? ==> annotations.Get(name).None?
      ensures forall k :: k != name ==> annotations.Get(k) == old(annotations.Get(k))
      ensures outcome.Ok? && range.Some? && name in old(annotations.entries) ==> annotations.keys == old(annotations.keys)
      ensures outcome.Ok? && range.Some? && name !in old(annotations.entries) ==> annotations.keys == old(annotations.keys) + [name]
      ensures outcome.Ok? && range.None? ==> annotations.keys == Without(old(annotations.keys), name)
      ensures var changed := outcome.Ok? && (range.Some? || name in old(annotations.entries));
              && (!changed ==> (annotations == old(annotations) && pendingMarkup == old(pendingMarkup)
                    && hint.pending == old(hint.pending) && hint.seen == old(hint.seen)))
              && (changed ==> (pendingMarkup
                    && (old(pass).None? ==> hint.pending && hint.seen == old(hint.seen) + {""})
                    && (old(pass).Some? ==> hint.pending == old(hint.pending) && hint.seen == old(hint.seen))))
      ensures surface == old(surface) && state == old(state) && pass == old(pass)
      ensures multiline == old(multiline) && rendered == old(rendered) && overlay == old(overlay)
    {
      if name == Reserved {
        return Err(ReservedError);
      }
      outcome := Ok(());
      if range.Some? {
        annotations := annotations.Set(name, Annotation(name, range.value.start, range.value.end));
      } else if name in annotations.entries {
        annotations := annotations.Delete(name);
      } else {
        WithoutAbsent(annotations.keys, name);
        return;
      }
      pendingMarkup := true;
      if pass.None? {
        hint.Signal(None);
      }
    }

    /**
     * `replaceWith(handler, range)`: the range (the snapshot's selection when
     * none is given) is replaced on the control by the handler's answer,
     * line feeds and all; the snapshot, the marks and the selection are left
     * for the next pass.
     */
    method ReplaceWith(handler: string -> string, range: Option<Range>, nativeEdit: bool)
      requires Valid()
      modifies this, hint
      ensures Valid()
      ensures var r := if range.Some? then range.value else Range(old(state.selectionStart), old(state.selectionEnd));
              surface.value == Expected(old(state.value), r, handler(Substr(old(state.value), r.start, r.end - r.start)))
      ensures hint.pending && old(hint.seen) <= hint.seen <= old(hint.seen) + {"input", "change"}
      ensures state == old(state) && annotations == old(annotations) && pass == old(pass)
      ensures pendingMarkup == old(pendingMarkup) && multiline == old(multiline)
      ensures rendered == old(rendered) && overlay == old(overlay)
    {
      var r := if range.Some? then range.value else Range(state.selectionStart, state.selectionEnd);
      var t := handler(Substr(state.value, r.start, r.end - r.start));
      var expected := Expected(state.value, r, t);
      if range.Some? {
        surface := Selecting(surface.value, r.start, r.end, NoDirection);
      }
      var outcome := Edit(surface, t, expected, nativeEdit);
      surface := outcome.surface;
      SignalAll(outcome.events);
    }

    /** Each of the events an edit dispatched reaches the coalescer. */
    method SignalAll(events: seq<string>)
      requires |events| > 0
      modifies hint
      ensures hint.pending && hint.seen == old(hint.seen) + set e | e in events
    {
      var i := 0;
      while i < |events|
        invariant 0 <= i <= |events|
        invariant i > 0 ==> hint.pending
        invariant hint.seen == old(hint.seen) + set e | e in events[..i]
      {
        hint.Signal(Some(events[i]));
        assert events[..i + 1] == events[..i] + [events[i]];
        i := i + 1;
      }
      assert events[..i] == events;
    }

    /**
     * The `value` setter: the control's text is assigned, without line feeds
     * on a single-line control. No event is dispatched, so no pass is
     * requested, and the snapshot and the marks stay as they were.
     */
    method SetValue(v: string)
      requires Valid()
      modifies this
      ensures Valid()
      ensures surface == Assign(old(surface), if old(multiline) then v else StripNewlines(v))
      ensures state == old(state) && annotations == old(annotations) && pass == old(pass)
      ensures pendingMarkup == old(pendingMarkup) && multiline == old(multiline)
      ensures rendered == old(rendered) && overlay == old(overlay)
    {
      surface := Assign(surface, if multiline then v else StripNewlines(v));
    }

    method SetMultiline(v: bool)
      modifies this
      ensures multiline == v
      ensures surface == old(surface) && state == old(state) && annotations == old(annotations) && pass == old(pass)
      ensures pendingMarkup == old(pendingMarkup) && rendered == old(rendered) && overlay == old(overlay)
    {
      multiline := v;
    }

    /**
     * A key press, seen first by the coalescer. Escape collapses the
     * selection where `EscapeTarget` says and is swallowed; Enter is
     * swallowed on a single-line control. A vertical key without Shift, on
     * a snapshot whose selection is a caret, is swallowed when `navTaken`:
     * a selection row is drawn, the caret is on the first line (up) or the
     * last (down) by the overlay's geometry, and the `nav` callback answers
     * true. The other keys pass through.
     */
    method KeyDown(key: string, shift: bool, navTaken: bool) returns (prevented: bool)
      requires Valid() && pass.None?
      modifies this, hint
      ensures Valid()
      ensures hint.pending && hint.seen == old(hint.seen) + {"keydown"}
      ensures key == "Escape" ==>
                var target := EscapeTarget(old(state), |old(surface.value)|);
                && prevented == target.Some?
                && surface == (if target.Some? then Selecting(old(surface.value), target.value, target.value, NoDirection) else old(surface))
      ensures key == "Enter" ==> prevented == !old(multiline) && surface == old(surface)
      ensures key in VerticalKeys ==>
                prevented == (!shift && old(state.selectionStart) == old(state.selectionEnd) && navTaken)
                && surface == old(surface)
      ensures key != "Escape" && key != "Enter" && key !in VerticalKeys ==> !prevented && surface == old(surface)
      ensures state == old(state) && annotations == old(annotations) && pass == old(pass)
      ensures pendingMarkup == old(pendingMarkup) && multiline == old(multiline)
      ensures rendered == old(rendered) && overlay == old(overlay)
    {
      hint.Signal(Some("keydown"));
      prevented := false;
      if key == "Escape" {
        var target := EscapeTarget(state, |surface.value|);
        if target.Some? {
          surface := Selecting(surface.value, target.value, target.value, NoDirection);
          prevented := true;
        }
      } else if key == "Enter" {
        prevented := !multiline;
      } else if key in VerticalKeys {
        prevented := !shift && state.selectionStart == state.selectionEnd && navTaken;
      }
    }

    /**
     * A paste of `clipboard` (`None` when it holds no text). On a single-line
     * control a paste holding line feeds is swallowed and replayed over the
     * snapshot's selection with each line feed turned into a space.
     */
    method Paste(clipboard: Option<string>, nativeEdit: bool) returns (prevented: bool)
      requires Valid()
      modifies this, hint
      ensures Valid()
      ensures var text := if clipboard.Some? then clipboard.value else "";
              && prevented == (!old(multiline) && '\n' in text)
              && (prevented ==>
                    surface.value == Expected(old(state.value), Range(old(state.selectionStart), old(state.selectionEnd)), NewlinesToSpaces(text)))
              && (!prevented ==> surface == old(surface))
      ensures hint.pending && "paste" in hint.seen
      ensures state == old(state) && annotations == old(annotations)
      ensures pass == old(pass) && pendingMarkup == old(pendingMarkup) && multiline == old(multiline)
      ensures rendered == old(rendered) && overlay == old(overlay)
    {
      hint.Signal(Some("paste"));
      if multiline {
        return false;
      }
      var text := if clipboard.Some? then clipboard.value else "";
      if '\n' !in text {
        return false;
      }
      prevented := true;
      var spaced := NewlinesToSpaces(text);
      ReplaceWith((was: string) => spaced, None, nativeEdit);
    }
  }

  /**
   * A replace owes nothing: the pass after it sees the edit, drops the marks
   * and reports a value change, and a later pass over an unchanged control
   * runs nothing.
   */
  method ReplaceIsSettledOnce(name: string, range: Range, text: string, nativeEdit: bool)
      returns (first: Option<bool>, mark: Option<Annotation>, second: Option<bool>)
    requires text != "" && name != Reserved
    ensures first == Some(true)
    ensures mark.None?
    ensures second.None?
  {
    var c := new InputController();
    var marked := c.Mark(name, Some(range));
    c.ReplaceWith((was: string) => text, None, nativeEdit);
    first := c.RunFrame();
    c.FinishTick();
    mark := c.annotations.Get(name);
    c.HostEvent(c.surface, "click");
    second := c.RunFrame();
  }

  /**
   * The `value` setter requests no pass: a frame after it runs nothing, even
   * though the control's text now differs from the snapshot.
   */
  method SetValueWaitsForAnEvent(v: string) returns (settled: Option<bool>, idle: Option<bool>, stale: bool)
    requires v != "" && '\n' !in v
    ensures settled == Some(false)
    ensures idle.None?
    ensures stale
  {
    var c := new InputController();
    settled := c.RunFrame();
    c.FinishTick();
    c.SetValue(v);
    idle := c.RunFrame();
    stale := c.ValueChanged();
  }
}
