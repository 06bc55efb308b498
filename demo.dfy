/**
 * new/demo.js `findMark`: the word around the caret, which the demo page
 * marks as `highlight` whenever the element dispatches `select`. The
 * element (element.js) does so from the controller's `update` callback, so
 * the handler runs inside a pass of controller.js's controller. What counts
 * as a word character is a parameter.
 */
module Demo {
  import opened Wrappers
  import opened Text
  import opened Surface
  import opened Overlay
  import Controller

  /** The length of the longest run of word characters that `s` ends with. */
  function LeftRun(s: string, isWord: char -> bool): (n: nat)
    ensures n <= |s|
    ensures forall i :: |s| - n <= i < |s| ==> isWord(s[i])
    ensures n < |s| ==> !isWord(s[|s| - n - 1])
  {
    if s == [] || !isWord(s[|s| - 1]) then 0
    else 1 + LeftRun(s[..|s| - 1], isWord)
  }

  /** The length of the longest run of word characters that `s` starts with. */
  function RightRun(s: string, isWord: char -> bool): (n: nat)
    ensures n <= |s|
    ensures forall i :: 0 <= i < n ==> isWord(s[i])
    ensures n < |s| ==> !isWord(s[n])
  {
    if s == [] || !isWord(s[0]) then 0
    else 1 + RightRun(s[1..], isWord)
  }

  /**
   * `findMark()`: nothing for a range; otherwise the maximal run of word
   * characters around the caret, or nothing when the caret touches none.
   */
  function FindMark(value: string, selectionStart: int, selectionEnd: int, isWord: char -> bool): (r: Option<Range>)
    ensures selectionStart != selectionEnd ==> r.None?
    ensures r.Some? && 0 <= selectionStart <= |value| ==>
              && 0 <= r.value.start <= selectionStart <= r.value.end <= |value|
              && r.value.start < r.value.end
              && (forall i :: r.value.start <= i < r.value.end ==> isWord(value[i]))
              && (r.value.start == 0 || !isWord(value[r.value.start - 1]))
              && (r.value.end == |value| || !isWord(value[r.value.end]))
    ensures r.None? && selectionStart == selectionEnd && 0 <= selectionStart <= |value| ==>
              && (selectionStart == 0 || !isWord(value[selectionStart - 1]))
              && (selectionStart == |value| || !isWord(value[selectionStart]))
  {
    if selectionStart != selectionEnd then None
    else
      var anchor := selectionStart;
      var left := Substr(value, 0, anchor);
      var right := SubstrFrom(value, anchor);
      var start := anchor - LeftRun(left, isWord);
      var end := anchor + RightRun(right, isWord);
      if 0 <= anchor <= |value| then
        assert left == value[..anchor] && right == value[anchor..];
        assert forall i :: start <= i < anchor ==> value[i] == left[i];
        assert forall i :: anchor <= i < end ==> value[i] == right[i - anchor];
        if start == end then None else Some(Range(start, end))
      else
        if start == end then None else Some(Range(start, end))
  }

  /**
   * The demo page's `select` handler, run from `update` during a pass: it
   * reads the controller's snapshot (`value`, `selectionStart` and
   * `selectionEnd` are the snapshot's) and marks the word around the caret
   * as `highlight`, or removes the mark when there is no word there. Inside
   * the pass the mark requests no further frame.
   */
  method OnSelect(c: Controller.InputController, isWord: char -> bool)
    requires c.Valid() && c.pass.Some?
    modifies c, c.hint
    ensures c.Valid()
    ensures var found := FindMark(old(c.state.value), old(c.state.selectionStart), old(c.state.selectionEnd), isWord);
            && (found.Some? ==> c.Find("highlight") == Some(Annotation("mark-highlight", found.value.start, found.value.end)))
            && (found.None? ==> c.Find("highlight").None?)
    ensures forall k :: k != "highlight" ==> c.annotations.Get(k) == old(c.annotations.Get(k))
    ensures c.hint.pending == old(c.hint.pending) && c.hint.seen == old(c.hint.seen)
    ensures c.state == old(c.state) && c.surface == old(c.surface) && c.pass == old(c.pass)
  {
    var found := FindMark(c.state.value, c.state.selectionStart, c.state.selectionEnd, isWord);
    c.Mark("highlight", found);
    assert "mark-" + "highlight" == "mark-highlight";
  }
}
