/**
 * The inline-suggestion matcher: how much of a suggestion the user has
 * already typed just before the caret. `Overlap` is index.js's rule (a
 * count), `Remainder` is main.js's (the untyped rest of the suggestion).
 */
module Autocomplete {
  import opened Wrappers
  import opened Text

  /**
   * The window the matcher searches: the text from `|suggestion|` characters
   * before the caret to the END of the value (not to the caret), lower-cased.
   */
  function Window(value: string, from: int, suggestionLength: nat): (tail: string)
    ensures |tail| <= |value|
    ensures 0 <= from - suggestionLength <= |value| ==> tail == Lower(value[from - suggestionLength..])
  {
    Lower(SubstrFrom(value, if from - suggestionLength > 0 then from - suggestionLength else 0))
  }

  /** The smallest `i >= k` such that `check` starts with `tail[i..]`, if any. */
  function FirstMatch(tail: string, check: string, k: nat): (r: Option<nat>)
    requires k <= |tail|
    decreases |tail| - k
    ensures r.Some? ==> k <= r.value < |tail| && StartsWith(check, tail[r.value..])
    ensures r.Some? ==> forall j :: k <= j < r.value ==> !StartsWith(check, tail[j..])
    ensures r.None? ==> forall j :: k <= j < |tail| ==> !StartsWith(check, tail[j..])
  {
    if k == |tail| then None
    else if StartsWith(check, tail[k..]) then Some(k)
    else FirstMatch(tail, check, k + 1)
  }

  /** A non-empty suffix of `tail` of length `n` that `check` starts with. */
  predicate SuffixMatches(tail: string, check: string, n: int) {
    0 < n <= |tail| && StartsWith(check, tail[|tail| - n..])
  }

  /**
   * index.js `autocompleteSuffix`: -1 for no suggestion; otherwise the length
   * of the longest suffix of the window that the lower-cased suggestion starts
   * with; with no such suffix, 0 at the end of the text and -1 before it.
   */
  function Overlap(value: string, from: int, suggestion: string): (r: int)
    ensures suggestion == "" ==> r == -1
    ensures -1 <= r <= |suggestion|
    ensures var tail := Window(value, from, |suggestion|);
            && (r > 0 ==> SuffixMatches(tail, Lower(suggestion), r))
            && (r > 0 ==> forall n :: r < n <= |tail| ==> !SuffixMatches(tail, Lower(suggestion), n))
            && (suggestion != "" && r <= 0 ==>
                  (forall n :: 0 < n <= |tail| ==> !SuffixMatches(tail, Lower(suggestion), n)) &&
                  (r == 0 <==> from >= |value|))
  {
    if suggestion == "" then -1
    else
      var tail := Window(value, from, |suggestion|);
      match FirstMatch(tail, Lower(suggestion), 0)
      case Some(i) =>
        assert forall n :: |tail| - i < n <= |tail| ==> !SuffixMatches(tail, Lower(suggestion), n) by {
          forall n | |tail| - i < n <= |tail| ensures !SuffixMatches(tail, Lower(suggestion), n) {
            assert 0 <= |tail| - n < i;
          }
        }
        |tail| - i
      case None =>
        assert forall n :: 0 < n <= |tail| ==> !SuffixMatches(tail, Lower(suggestion), n) by {
          forall n | 0 < n <= |tail| ensures !SuffixMatches(tail, Lower(suggestion), n) {
            assert 0 <= |tail| - n < |tail|;
          }
        }
        if from < |value| then -1 else 0
  }

  /** index.js `autocompleteSuffix`: the search loop over the window. */
  method AutocompleteSuffix(value: string, from: int, suggestion: string) returns (r: int)
    ensures r == Overlap(value, from, suggestion)
  {
    if suggestion == "" {
      return -1;
    }
    var check := Lower(suggestion);
    var min := if from - |suggestion| > 0 then from - |suggestion| else 0;
    var tail := Lower(SubstrFrom(value, min));
    var i := 0;
    while i < |tail|
      invariant 0 <= i <= |tail|
      invariant FirstMatch(tail, check, 0) == FirstMatch(tail, check, i)
    {
      if StartsWith(check, tail[i..]) {
        return |tail| - i;
      }
      i := i + 1;
    }
    return if from < |value| then -1 else 0;
  }

  lemma OverlapTypedPrefix()
    ensures Overlap("hello wor", 9, "world") == 3
  {
    assert Lower("world") == "world";
    var tail := Window("hello wor", 9, 5);
    assert tail == "o wor";
    assert !StartsWith("world", tail[0..]) by {
      assert "world"[..5][0] != tail[0..][0];
    }
    assert !StartsWith("world", tail[1..]);
    assert StartsWith("world", tail[2..]);
    assert FirstMatch(tail, "world", 0) == Some(2);
  }

  lemma OverlapNothingTypedAtEnd()
    ensures Overlap("hello", 5, "xyz") == 0
    ensures Overlap("hello", 4, "xyz") == -1
  {
    assert Lower("xyz") == "xyz";
    assert Window("hello", 5, 3) == "llo";
    assert Window("hello", 4, 3) == "ello";
    assert FirstMatch("llo", "xyz", 0) == None by {
      assert !StartsWith("xyz", "llo"[0..]) by {
        assert "xyz"[..3][0] != "llo"[0];
      }
      assert !StartsWith("xyz", "llo"[1..]);
      assert !StartsWith("xyz", "llo"[2..]);
    }
    assert FirstMatch("ello", "xyz", 0) == None by {
      assert !StartsWith("xyz", "ello"[0..]);
      assert !StartsWith("xyz", "ello"[1..]) by {
        assert "xyz"[..3][0] != "ello"[1..][0];
      }
      assert !StartsWith("xyz", "ello"[1..]);
      assert !StartsWith("xyz", "ello"[2..]);
      assert !StartsWith("xyz", "ello"[3..]);
    }
  }

  /**
   * The length of the longest non-empty suffix of `tail` that `check` starts
   * with, or 0 when there is none.
   */
  function Longest(tail: string, check: string): (n: nat)
    ensures n <= |tail|
    ensures n > 0 ==> SuffixMatches(tail, check, n)
    ensures forall m :: n < m <= |tail| ==> !SuffixMatches(tail, check, m)
  {
    match FirstMatch(tail, check, 0)
    case Some(i) =>
      assert forall m :: |tail| - i < m <= |tail| ==> !SuffixMatches(tail, check, m) by {
        forall m | |tail| - i < m <= |tail| ensures !SuffixMatches(tail, check, m) {
          assert 0 <= |tail| - m < i;
        }
      }
      |tail| - i
    case None =>
      assert forall m :: 0 < m <= |tail| ==> !SuffixMatches(tail, check, m) by {
        forall m | 0 < m <= |tail| ensures !SuffixMatches(tail, check, m) {
          assert 0 <= |tail| - m < |tail|;
        }
      }
      0
  }

  /**
   * main.js `autocompleteSuffix`: `None` for no suggestion; otherwise the part
   * of the suggestion after the longest suffix of the window it starts with
   * (compared WITHOUT lower-casing the suggestion); with no such suffix, the
   * whole suggestion at the end of the text and `None` before it.
   */
  function Remainder(value: string, from: int, suggestion: string): (r: Option<string>)
    ensures suggestion == "" ==> r.None?
    ensures r.Some? ==> |r.value| <= |suggestion| && r.value == suggestion[|suggestion| - |r.value|..]
    ensures var n := Longest(Window(value, from, |suggestion|), suggestion);
            && (suggestion != "" && n > 0 ==> r == Some(suggestion[n..]))
            && (suggestion != "" && n == 0 ==> r == if from < |value| then None else Some(suggestion))
  {
    if suggestion == "" then None
    else
      var n := Longest(Window(value, from, |suggestion|), suggestion);
      if n > 0 then
        assert |suggestion[n..]| <= |suggestion|;
        Some(suggestion[n..])
      else if from < |value| then None
      else Some(suggestion)
  }

  /** main.js `autocompleteSuffix`: the search loop over the window. */
  method AutocompleteRemainder(value: string, from: int, suggestion: string) returns (r: Option<string>)
    ensures r == Remainder(value, from, suggestion)
  {
    if suggestion == "" {
      return None;
    }
    var min := if from - |suggestion| > 0 then from - |suggestion| else 0;
    var tail := Lower(SubstrFrom(value, min));
    var i := 0;
    while i < |tail|
      invariant 0 <= i <= |tail|
      invariant FirstMatch(tail, suggestion, 0) == FirstMatch(tail, suggestion, i)
    {
      if StartsWith(suggestion, tail[i..]) {
        var displayFrom := |tail| - i;
        return Some(SubstrFrom(suggestion, displayFrom));
      }
      i := i + 1;
    }
    return if from < |value| then None else Some(suggestion);
  }

  /**
   * For a suggestion without upper-case letters the two revisions show the
   * same thing: main.js's remainder is what index.js renders after its count.
   */
  lemma {:induction false} RevisionsAgree(value: string, from: int, suggestion: string)
    requires Lower(suggestion) == suggestion
    ensures var n := Overlap(value, from, suggestion);
            Remainder(value, from, suggestion) == if n >= 0 then Some(suggestion[n..]) else None
  {
    if suggestion != "" {
      var tail := Window(value, from, |suggestion|);
      var n := Overlap(value, from, suggestion);
      if n > 0 {
        assert suggestion[n..] == SubstrFrom(suggestion, n);
      }
    }
  }
}
