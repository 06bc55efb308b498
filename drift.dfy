/**
 * Where a stored offset goes after `[start, end)` is replaced by `text`.
 * `Clamped` is the rule of controller.js and index.js; `Interior` is the
 * older rule of main.js.
 */
module Drift {
  import opened Surface
  import opened Text

  /** The text after replacing `[start, end)` of `value` by `text`. */
  function Splice(value: string, start: nat, end: nat, text: string): (v: string)
    requires start <= end <= |value|
    ensures |v| == |value| - (end - start) + |text|
  {
    value[..start] + text + value[end..]
  }

  /** The text a replace expects: `value.substr(0, start) + t + value.substr(end)`, which is the splice for a range inside the text. */
  function Expected(value: string, r: Range, t: string): (v: string)
    ensures 0 <= r.start <= r.end <= |value| ==> v == Splice(value, r.start, r.end, t)
    ensures r.start <= 0 && r.end >= |value| ==> v == t
  {
    Substr(value, 0, r.start) + t + SubstrFrom(value, r.end)
  }

  /**
   * `drift(range, text, where)`: positions at or after the old end shift by
   * the change in length; earlier positions stay, except that a position
   * beyond the end of the inserted text is pulled back to that end.
   */
  function Clamped(range: Range, text: string, where: int): (r: int)
    ensures range.start <= range.end ==> (r <= range.start + |text| <==> where <= range.end)
    ensures where < range.end ==> r <= where
    ensures 0 <= range.start <= range.end && 0 <= where ==> 0 <= r
  {
    if where >= range.end then where - (range.end - range.start) + |text|
    else if where <= range.start + |text| then where
    else range.start + |text|
  }

  /** The three cases, exactly at their boundaries. */
  lemma ClampedCases(range: Range, text: string, where: int)
    ensures where >= range.end ==> Clamped(range, text, where) == where - (range.end - range.start) + |text|
    ensures where < range.end && where <= range.start + |text| ==> Clamped(range, text, where) == where
    ensures range.start + |text| < where < range.end ==> Clamped(range, text, where) == range.start + |text|
    ensures where == range.end ==> Clamped(range, text, where) == range.start + |text|
    ensures range.start == range.end == where ==> Clamped(range, text, where) == where + |text|
  {
  }

  /** A position inside a text of length `n` stays inside the edited text. */
  lemma ClampedBounds(range: Range, text: string, where: int, n: nat)
    requires 0 <= range.start <= range.end <= n && 0 <= where <= n
    ensures 0 <= Clamped(range, text, where) <= n - (range.end - range.start) + |text|
  {
  }

  /** Drifting keeps the order of two positions, so a selection stays ordered. */
  lemma ClampedMonotone(range: Range, text: string, a: int, b: int)
    requires range.start <= range.end && a <= b
    ensures Clamped(range, text, a) <= Clamped(range, text, b)
  {
  }

  /**
   * Drifting the bounds of the replaced range itself: a non-empty range ends
   * up spanning exactly the inserted text, and a caret ends just after it.
   */
  lemma ClampedOverReplacedRange(start: int, end: int, text: string)
    requires start <= end
    ensures Clamped(Range(start, end), text, end) == start + |text|
    ensures Clamped(Range(start, end), text, start) == if start < end then start else start + |text|
  {
  }

  /**
   * What `Clamped` means for the text: a position before the edit still has
   * the same text before it, a position after the edit still has the same
   * text after it, and a position inside the replaced range lands inside the
   * inserted text.
   */
  lemma {:induction false} ClampedKeepsContext(value: string, start: nat, end: nat, text: string, where: nat)
    requires start <= end <= |value| && where <= |value|
    ensures var r := Clamped(Range(start, end), text, where);
            var v := Splice(value, start, end, text);
            && 0 <= r <= |v|
            && (where <= start && where < end ==> r == where && v[..r] == value[..where])
            && (where >= end ==> v[r..] == value[where..])
            && (start < where < end ==> start <= r <= start + |text|)
  {
    var r := Clamped(Range(start, end), text, where);
    var v := Splice(value, start, end, text);
    if where <= start && where < end {
      assert v[..r] == value[..where] by {
        assert v[..start] == value[..start];
        assert v[..where] == v[..start][..where];
      }
    }
    if where >= end {
      assert r == start + |text| + (where - end);
      assert v[start + |text|..] == value[end..];
      assert v[r..] == v[start + |text|..][where - end..];
    }
  }

  /**
   * main.js `drift(low, high, text, where)`: positions at or after `high`
   * shift, positions strictly inside `(low, high)` go to the end of the
   * inserted text, positions at or before `low` stay.
   */
  function Interior(low: int, high: int, text: string, where: int): (r: int)
    ensures low <= high && where > low ==> r >= low + |text|
    ensures where <= low && where < high ==> r == where
    ensures 0 <= low <= high && 0 <= where ==> 0 <= r
  {
    if where >= high then where - (high - low) + |text|
    else if where > low then low + |text|
    else where
  }

  lemma InteriorCases(low: int, high: int, text: string, where: int)
    ensures where >= high ==> Interior(low, high, text, where) == where - (high - low) + |text|
    ensures low < where < high ==> Interior(low, high, text, where) == low + |text|
    ensures where <= low && where < high ==> Interior(low, high, text, where) == where
  {
  }

  lemma InteriorBounds(low: int, high: int, text: string, where: int, n: nat)
    requires 0 <= low <= high <= n && 0 <= where <= n
    ensures 0 <= Interior(low, high, text, where) <= n - (high - low) + |text|
  {
  }

  /** The older rule also keeps the order of two positions. */
  lemma InteriorMonotone(low: int, high: int, text: string, a: int, b: int)
    requires low <= high && a <= b
    ensures Interior(low, high, text, a) <= Interior(low, high, text, b)
  {
  }

  /**
   * The older rule on the bounds of the replaced range itself: as with
   * `Clamped`, a non-empty range ends up spanning exactly the inserted text
   * and a caret ends just after it.
   */
  lemma InteriorOverReplacedRange(start: int, end: int, text: string)
    requires start <= end
    ensures Interior(start, end, text, end) == start + |text|
    ensures Interior(start, end, text, start) == if start < end then start else start + |text|
  {
  }

  /**
   * The two revisions disagree exactly on positions strictly inside the
   * replaced range that the inserted text would still cover: the newer rule
   * keeps them, the older one moves them to the end of the inserted text.
   */
  lemma ClampedVersusInterior(low: int, high: int, text: string, where: int)
    requires low <= high
    ensures Clamped(Range(low, high), text, where) != Interior(low, high, text, where)
            <==> low < where < high && where < low + |text|
    ensures low < where < high && where < low + |text| ==>
              Clamped(Range(low, high), text, where) == where &&
              Interior(low, high, text, where) == low + |text|
  {
  }

  /**
   * Both selection ends drifted through a replacement inside the text stay
   * ordered and inside the new text.
   */
  lemma DriftedSelectionInside(value: string, r: Range, t: string, selectionStart: int, selectionEnd: int)
    requires 0 <= r.start <= r.end <= |value| && 0 <= selectionStart <= selectionEnd <= |value|
    ensures 0 <= Clamped(r, t, selectionStart) <= Clamped(r, t, selectionEnd) <= |Expected(value, r, t)|
  {
    ClampedBounds(r, t, selectionStart, |value|);
    ClampedBounds(r, t, selectionEnd, |value|);
    ClampedMonotone(r, t, selectionStart, selectionEnd);
  }
}
