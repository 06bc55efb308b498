/**
 * The host's editable text control (an `<input>` or `<textarea>`) as an
 * abstract record that the environment may change between frames, the
 * controllers' snapshot of it, and the selection-direction inference the
 * three controller revisions share.
 */
module Surface {
  import opened Wrappers

  /** `selectionDirection`. `Blank` is the empty string that index.js and main.js start their snapshot with. */
  datatype Direction = Blank | NoDirection | Forward | Backward

  /** `{start, end}` as clients pass it; nothing forces `start <= end`. */
  datatype Range = Range(start: int, end: int)

  /** What the host control holds: its text, its selection and the direction it reports. */
  datatype Surface = Surface(value: string, selectionStart: nat, selectionEnd: nat, direction: Direction) {
    /** The host keeps its selection ordered and inside the text, and never reports `''`. */
    predicate Valid() {
      selectionStart <= selectionEnd <= |value| && direction != Blank
    }
  }

  const TwoTo32: int := 0x1_0000_0000

  /** The WebIDL `unsigned long` conversion of an offset, then the clamp to the text's length. */
  function ClampOffset(x: int, len: nat): (k: nat)
    ensures k <= len
    ensures 0 <= x <= len && x < TwoTo32 ==> k == x
  {
    var u := x % TwoTo32;
    if u > len then len else u
  }

  /** The direction argument of `setSelectionRange`: anything but forward/backward means none. */
  function DirectionArgument(d: Direction): (r: Direction)
    ensures r != Blank
    ensures d == Forward || d == Backward ==> r == d
  {
    if d == Forward || d == Backward then d else NoDirection
  }

  /** `el.setSelectionRange(start, end, dir)` on a control holding `value`. */
  function Selecting(value: string, start: int, end: int, dir: Direction): (s: Surface)
    ensures s.Valid() && s.value == value
    ensures 0 <= start <= end <= |value| && end < TwoTo32 ==>
              s.selectionStart == start && s.selectionEnd == end
  {
    var e := ClampOffset(end, |value|);
    var b := ClampOffset(start, |value|);
    Surface(value, if b > e then e else b, e, DirectionArgument(dir))
  }

  /** `el.value = v`: when the text changes, the caret moves to its end. */
  function Assign(s: Surface, v: string): (r: Surface)
    requires s.Valid()
    ensures r.Valid() && r.value == v
    ensures v != s.value ==> r.selectionStart == r.selectionEnd == |v|
    ensures v == s.value ==> r == s
  {
    if v == s.value then s else Surface(v, |v|, |v|, NoDirection)
  }

  /**
   * `execCommand('insertText', false, text)` where the host supports it on
   * the control: the selection is replaced by `text` and the caret follows it.
   */
  function InsertText(s: Surface, text: string): (r: Surface)
    requires s.Valid()
    ensures r.Valid()
    ensures r.value == s.value[..s.selectionStart] + text + s.value[s.selectionEnd..]
    ensures r.selectionStart == r.selectionEnd == s.selectionStart + |text|
  {
    Surface(s.value[..s.selectionStart] + text + s.value[s.selectionEnd..],
            s.selectionStart + |text|, s.selectionStart + |text|, NoDirection)
  }

  /** The control after an edit, and the events the edit dispatched, in order. */
  datatype EditOutcome = EditOutcome(surface: Surface, events: seq<string>)

  /**
   * The controllers' edit of the control towards `expected`: the native
   * command (which fires `input`) when it is supported, then, unless that
   * produced `expected`, an assignment of `expected` and a dispatched `change`.
   */
  function Edit(s: Surface, text: string, expected: string, nativeEdit: bool): (o: EditOutcome)
    requires s.Valid()
    ensures o.surface.Valid() && o.surface.value == expected
    ensures nativeEdit && InsertText(s, text).value == expected ==>
              o.surface == InsertText(s, text) && o.events == ["input"]
    ensures nativeEdit && InsertText(s, text).value != expected ==> o.events == ["input", "change"]
    ensures !nativeEdit ==> o.surface == Assign(s, expected) && o.events == ["change"]
  {
    if !nativeEdit then EditOutcome(Assign(s, expected), ["change"])
    else
      var native := InsertText(s, text);
      if native.value == expected then EditOutcome(native, ["input"])
      else EditOutcome(Assign(native, expected), ["input", "change"])
  }

  /** A controller's last reconciled copy of the surface (`state`). */
  datatype Snapshot = Snapshot(value: string, selectionStart: int, selectionEnd: int, direction: Direction)

  /** Whether either selection bound differs from the snapshot. */
  predicate SelectionMoved(prev: Snapshot, s: Surface) {
    prev.selectionStart != s.selectionStart || prev.selectionEnd != s.selectionEnd
  }

  /**
   * The direction a tick records. Browsers report `none` for a range made
   * with the mouse; then the previous guess is kept when the bounds did not
   * move, and otherwise the end that moved decides.
   */
  function InferDirection(prev: Snapshot, s: Surface): (d: Direction)
    ensures s.direction != NoDirection || s.selectionStart >= s.selectionEnd ==> d == s.direction
    ensures s.direction != Blank ==> d != Blank
    ensures s.direction == NoDirection && s.selectionStart < s.selectionEnd && SelectionMoved(prev, s) ==>
              (d == Forward <==> s.selectionStart == prev.selectionStart) &&
              (d == Backward <==> s.selectionStart != prev.selectionStart)
    ensures s.direction == NoDirection && s.selectionStart < s.selectionEnd && !SelectionMoved(prev, s) ==>
              d == if prev.direction == Blank then NoDirection else prev.direction
  {
    if s.direction == NoDirection && s.selectionEnd > s.selectionStart then
      if !SelectionMoved(prev, s) then
        (if prev.direction != Blank then prev.direction else s.direction)
      else if s.selectionStart == prev.selectionStart then Forward
      else Backward
    else s.direction
  }

  /** The keys that may hand focus to a neighbouring control (`verticalKeys`). */
  const VerticalKeys: set<string> := {"ArrowUp", "Up", "ArrowDown", "Down"}

  /**
   * Where Escape puts the caret, or `None` when it leaves the key alone: a
   * caret goes to the end of the text unless it is there already; a range
   * collapses onto its start when it was made backwards and onto its end
   * otherwise.
   */
  function EscapeTarget(state: Snapshot, length: nat): (r: Option<int>)
    ensures state.selectionStart == state.selectionEnd ==> (r.None? <==> state.selectionEnd == length)
    ensures state.selectionStart == state.selectionEnd && r.Some? ==> r.value == length
    ensures state.selectionStart != state.selectionEnd ==>
              r.Some? && (r.value == state.selectionStart <==> state.direction == Backward) &&
              (r.value == state.selectionEnd <==> state.direction != Backward)
  {
    if state.selectionStart == state.selectionEnd then
      if state.selectionEnd == length then None else Some(length)
    else if state.direction == Backward then Some(state.selectionStart)
    else Some(state.selectionEnd)
  }
}
