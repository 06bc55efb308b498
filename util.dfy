/**
 * util.js: splitting an event-name list, dispatching a drag start by event
 * type, and the self-rescheduling `checker` loop.
 */
module Util {
  import opened Wrappers
  import opened Text

  /** A character the regular-expression class `\s` matches. */
  predicate IsSpace(c: char) {
    || c == '\t' || c == '\n' || c == '\U{000B}' || c == '\U{000C}' || c == '\r' || c == ' '
    || c == '\U{00A0}' || c == '\U{1680}' || ('\U{2000}' <= c <= '\U{200A}')
    || c == '\U{2028}' || c == '\U{2029}' || c == '\U{202F}' || c == '\U{205F}'
    || c == '\U{3000}' || c == '\U{FEFF}'
  }

  /** A non-empty event name without whitespace. */
  predicate IsName(w: string) {
    w != "" && forall i :: 0 <= i < |w| ==> !IsSpace(w[i])
  }

  /** The length of the run of non-space characters `s` starts with. */
  function TokenLength(s: string): (n: nat)
    ensures n <= |s|
    ensures forall i :: 0 <= i < n ==> !IsSpace(s[i])
    ensures n < |s| ==> IsSpace(s[n])
  {
    if s == [] || IsSpace(s[0]) then 0 else 1 + TokenLength(s[1..])
  }

  /** `events.split(/\s+/).filter(Boolean)`: the whitespace-separated names, empty ones dropped. */
  function SplitEvents(s: string): (names: seq<string>)
    decreases |s|
    ensures forall i :: 0 <= i < |names| ==> IsName(names[i])
  {
    if s == [] then []
    else if IsSpace(s[0]) then SplitEvents(s[1..])
    else
      var n := TokenLength(s);
      [s[..n]] + SplitEvents(s[n..])
  }

  /** Names written out separated by single spaces. */
  function JoinNames(names: seq<string>): string {
    if names == [] then ""
    else if |names| == 1 then names[0]
    else names[0] + " " + JoinNames(names[1..])
  }

  lemma {:induction false} TokenLengthOfName(w: string, rest: string)
    requires IsName(w)
    requires rest == [] || IsSpace(rest[0])
    ensures TokenLength(w + rest) == |w|
  {
    if |w| > 1 {
      assert (w + rest)[1..] == w[1..] + rest;
      TokenLengthOfName(w[1..], rest);
    } else {
      assert (w + rest)[1..] == rest;
    }
  }

  /** Splitting a space-separated list of names gives the names back. */
  lemma {:induction false} SplitJoin(names: seq<string>)
    requires forall i :: 0 <= i < |names| ==> IsName(names[i])
    ensures SplitEvents(JoinNames(names)) == names
  {
    if names == [] {
    } else if |names| == 1 {
      var w := names[0];
      TokenLengthOfName(w, "");
      assert w + "" == w;
      assert w[|w|..] == [];
    } else {
      var w := names[0];
      var rest := " " + JoinNames(names[1..]);
      var s := w + rest;
      assert JoinNames(names) == s;
      TokenLengthOfName(w, rest);
      assert s[..|w|] == w;
      assert s[|w|..] == rest;
      assert rest[1..] == JoinNames(names[1..]);
      SplitJoin(names[1..]);
      assert SplitEvents(rest) == SplitEvents(JoinNames(names[1..]));
      assert names == [w] + names[1..];
    }
  }

  /** The names in the space-separated list of signals both controllers and both `upgrade` revisions coalesce. */
  const ContentEventNames: seq<string> :=
    ["change", "keydown", "keypress", "input", "value", "select", "click", "contextmenu", "mousedown", "touchstart"]

  /** Which drag tracker a press starts. */
  datatype Starter = Mouse | Touch

  /** `drag`'s dispatch on the first five characters of the event type; anything else throws. */
  function DragStarter(eventType: string): (r: Result<Starter, string>)
    ensures r == Ok(Mouse) <==> StartsWith(eventType, "mouse")
    ensures r == Ok(Touch) <==> StartsWith(eventType, "touch")
    ensures r.Err? <==> !StartsWith(eventType, "mouse") && !StartsWith(eventType, "touch")
    ensures r.Err? ==> r.error == "bad event type: " + eventType
  {
    var start := Substr(eventType, 0, 5);
    assert |eventType| < 5 ==> start == eventType;
    if start == "mouse" then Ok(Mouse)
    else if start == "touch" then Ok(Touch)
    else Err("bad event type: " + eventType)
  }

  /**
   * `checker(fn)`: runs `fn` once at creation and again every frame for as
   * long as it returns true. `fn` is an outside step whose answers are given
   * as arguments; `handle` is the `rAF` variable and `queued` counts this
   * checker's callbacks the host still holds.
   */
  class Checker {
    var handle: nat
    var queued: nat
    var nextId: nat
    var runs: nat

    /** At most one frame is ever requested, and `handle` says whether one is. */
    ghost predicate Valid()
      reads this
    {
      nextId > 0 && queued <= 1 && (queued == 1 <==> handle != 0)
    }

    /** Creation runs the step at once (its answer is `keepGoing`). */
    constructor (keepGoing: bool)
      ensures Valid() && runs == 1
      ensures queued == 1 <==> keepGoing
    {
      runs, nextId, queued, handle := 1, 1, 0, 0;
      new;
      if keepGoing {
        handle, nextId, queued := nextId, nextId + 1, queued + 1;
      }
    }

    /** The returned kick: requests a frame only when none is pending. */
    method Kick()
      requires Valid()
      modifies this
      ensures Valid() && queued == 1 && runs == old(runs)
      ensures old(handle) != 0 ==> handle == old(handle) && nextId == old(nextId)
    {
      if handle == 0 {
        handle, nextId, queued := nextId, nextId + 1, queued + 1;
      }
    }

    /** The host runs a frame; if this checker's callback was pending, the step runs and answers `keepGoing`. */
    method RunFrame(keepGoing: bool) returns (ran: bool)
      requires Valid()
      modifies this
      ensures Valid()
      ensures ran == (old(queued) == 1)
      ensures ran ==> runs == old(runs) + 1 && (queued == 1 <==> keepGoing)
      ensures !ran ==> unchanged(this)
    {
      ran := queued == 1;
      if ran {
        queued := 0;
        runs := runs + 1;
        if keepGoing {
          handle, nextId, queued := nextId, nextId + 1, 1;
        } else {
          handle := 0;
        }
      }
    }
  }

  /** How many of the frames with answers `later` run after creation answered `first`. */
  function FramesRun(first: bool, later: seq<bool>): (n: nat)
    ensures n <= |later|
    ensures !first ==> n == 0
  {
    if !first || later == [] then 0 else 1 + FramesRun(later[0], later[1..])
  }

  /** Whether a frame is still requested after creation answered `first` and the frames answered `later`. */
  predicate StillScheduled(first: bool, later: seq<bool>) {
    first && forall i :: 0 <= i < |later| ==> later[i]
  }

  lemma {:induction false} FramesRunAppend(first: bool, later: seq<bool>, x: bool)
    ensures FramesRun(first, later + [x]) == FramesRun(first, later) + (if StillScheduled(first, later) then 1 else 0)
  {
    if first && later != [] {
      assert (later + [x])[1..] == later[1..] + [x];
      FramesRunAppend(later[0], later[1..], x);
      assert StillScheduled(first, later) == StillScheduled(later[0], later[1..]);
    }
  }

  /**
   * The loop stops at the first frame whose step answers false: with every
   * answer true it runs every frame, otherwise it runs up to and including
   * the first false one.
   */
  lemma {:induction false} FramesRunStopsAtFirstFalse(first: bool, later: seq<bool>, k: nat)
    requires first && k < |later| && !later[k] && forall j :: 0 <= j < k ==> later[j]
    ensures FramesRun(first, later) == k + 1
  {
    if k > 0 {
      FramesRunStopsAtFirstFalse(later[0], later[1..], k - 1);
    }
  }

  lemma {:induction false} FramesRunAllTrue(first: bool, later: seq<bool>)
    requires StillScheduled(first, later)
    ensures FramesRun(first, later) == |later|
  {
    if later != [] {
      FramesRunAllTrue(later[0], later[1..]);
    }
  }

  /**
   * A checker driven through frames with the step answering `later`: the
   * step runs once at creation and then exactly `FramesRun` more times, and
   * at the end a frame is pending exactly when every answer was true.
   */
  method RunChecker(first: bool, later: seq<bool>) returns (runs: nat, pending: bool)
    ensures runs == 1 + FramesRun(first, later)
    ensures pending <==> StillScheduled(first, later)
  {
    var c := new Checker(first);
    var i := 0;
    while i < |later|
      invariant 0 <= i <= |later|
      invariant c.Valid()
      invariant c.runs == 1 + FramesRun(first, later[..i])
      invariant c.queued == 1 <==> StillScheduled(first, later[..i])
    {
      var ran := c.RunFrame(later[i]);
      FramesRunAppend(first, later[..i], later[i]);
      assert later[..i + 1] == later[..i] + [later[i]];
      i := i + 1;
    }
    assert later[..i] == later;
    runs, pending := c.runs, c.queued == 1;
  }
}
