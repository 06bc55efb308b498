/**
 * The three copies of the frame coalescer. Every raw signal adds its event
 * type to a set and asks for an animation frame unless one is already
 * pending; `RunFrame` stands for the browser running that frame, and hands
 * the accumulated types to the handler. The copies differ in when the set is
 * cleared and in what a manual trigger (no event) records.
 */
module Frames {
  import opened Wrappers

  /** The event types a run of signals records when a missing event records nothing. */
  function TypesOf(events: seq<Option<string>>): (types: set<string>)
    ensures forall t :: t in types <==> Some(t) in events
  {
    if events == [] then {}
    else (if events[0].Some? then {events[0].value} else {}) + TypesOf(events[1..])
  }

  /** util.js `dedup`. */
  class Dedup {
    /** `frame != 0`: an animation frame is requested and has not run. */
    var pending: bool
    /** `seenEvents`: the live set the handler also receives. */
    var seen: set<string>

    constructor ()
      ensures !pending && seen == {}
    {
      pending, seen := false, {};
    }

    /**
     * A signal: the first one while no frame is pending clears the set and
     * requests the frame; every signal with an event adds its type.
     */
    method Signal(event: Option<string>)
      modifies this
      ensures pending
      ensures seen == (if old(pending) then old(seen) else {}) + (if event.Some? then {event.value} else {})
    {
      if !pending {
        seen := {};
        pending := true;
      }
      if event.Some? {
        seen := seen + {event.value};
      }
    }

    /** The returned trigger `(type) => eventHandler(type ? {type} : null)`: an empty type records nothing. */
    method Trigger(eventType: Option<string>)
      modifies this
      ensures pending
      ensures seen == (if old(pending) then old(seen) else {}) +
                      (if eventType.Some? && eventType.value != "" then {eventType.value} else {})
    {
      Signal(if eventType.Some? && eventType.value != "" then eventType else None);
    }

    /**
     * The requested frame runs: the handler is called once with the set
     * itself, which is not cleared until the next first signal.
     */
    method RunFrame() returns (fired: bool, events: set<string>)
      modifies this
      ensures fired == old(pending) && !pending
      ensures seen == old(seen)
      ensures fired ==> events == seen
    {
      fired := pending;
      events := {};
      if pending {
        pending := false;
        events := seen;
      }
    }
  }

  /** controller.js `dedupListener`. */
  class Listener {
    var pending: bool
    var seen: set<string>

    constructor ()
      ensures !pending && seen == {}
    {
      pending, seen := false, {};
    }

    /** A signal: an event adds its type, a manual trigger adds nothing; a frame is requested once. */
    method Signal(event: Option<string>)
      modifies this
      ensures pending
      ensures seen == old(seen) + (if event.Some? then {event.value} else {})
    {
      if event.Some? {
        seen := seen + {event.value};
      }
      if !pending {
        pending := true;
      }
    }

    /** The requested frame runs: the handler gets a copy of the set, which is cleared first. */
    method RunFrame() returns (fired: bool, events: set<string>)
      modifies this
      ensures fired == old(pending) && !pending
      ensures fired ==> events == old(seen) && seen == {}
      ensures !fired ==> seen == old(seen)
    {
      fired := pending;
      events := {};
      if pending {
        pending := false;
        events := seen;
        seen := {};
      }
    }
  }

  /** new/controller.js `dedupListener`: a manual trigger records the empty type. */
  class BlankListener {
    var pending: bool
    var seen: set<string>

    constructor ()
      ensures !pending && seen == {}
    {
      pending, seen := false, {};
    }

    /** `seenEvents.add(event?.type ?? '')`, then a frame is requested once. */
    method Signal(event: Option<string>)
      modifies this
      ensures pending
      ensures seen == old(seen) + {if event.Some? then event.value else ""}
    {
      seen := seen + {if event.Some? then event.value else ""};
      if !pending {
        pending := true;
      }
    }

    method RunFrame() returns (fired: bool, events: set<string>)
      modifies this
      ensures fired == old(pending) && !pending
      ensures fired ==> events == old(seen) && seen == {}
      ensures !fired ==> seen == old(seen)
    {
      fired := pending;
      events := {};
      if pending {
        pending := false;
        events := seen;
        seen := {};
      }
    }
  }

  /** What `BlankListener` records for a run of signals. */
  function BlankTypesOf(events: seq<Option<string>>): (types: set<string>)
    ensures forall t :: t in types <==> Some(t) in events || (t == "" && None in events)
  {
    if events == [] then {}
    else {if events[0].Some? then events[0].value else ""} + BlankTypesOf(events[1..])
  }

  /**
   * Any number of signals before a frame runs (util.js): the frame calls the
   * handler exactly once, with the types of all of them, and the next frame
   * calls nothing.
   */
  method DedupBurst(events: seq<Option<string>>) returns (first: bool, delivered: set<string>, second: bool)
    ensures first <==> |events| > 0
    ensures first ==> delivered == TypesOf(events)
    ensures !second
  {
    var d := new Dedup();
    var i := 0;
    while i < |events|
      invariant 0 <= i <= |events|
      invariant d.pending <==> i > 0
      invariant d.seen == TypesOf(events[..i])
    {
      d.Signal(events[i]);
      assert events[..i + 1] == events[..i] + [events[i]];
      TypesOfAppend(events[..i], events[i]);
      i := i + 1;
    }
    assert events[..i] == events;
    first, delivered := d.RunFrame();
    var ignored;
    second, ignored := d.RunFrame();
  }

  /** The same for controller.js's listener. */
  method ListenerBurst(events: seq<Option<string>>) returns (first: bool, delivered: set<string>, second: bool)
    ensures first <==> |events| > 0
    ensures first ==> delivered == TypesOf(events)
    ensures !second
  {
    var l := new Listener();
    var i := 0;
    while i < |events|
      invariant 0 <= i <= |events|
      invariant l.pending <==> i > 0
      invariant l.seen == TypesOf(events[..i])
    {
      l.Signal(events[i]);
      assert events[..i + 1] == events[..i] + [events[i]];
      TypesOfAppend(events[..i], events[i]);
      i := i + 1;
    }
    assert events[..i] == events;
    first, delivered := l.RunFrame();
    var ignored;
    second, ignored := l.RunFrame();
  }

  /** The same for new/controller.js's listener, where manual triggers show up as `''`. */
  method BlankListenerBurst(events: seq<Option<string>>) returns (first: bool, delivered: set<string>, second: bool)
    ensures first <==> |events| > 0
    ensures first ==> delivered == BlankTypesOf(events)
    ensures !second
  {
    var l := new BlankListener();
    var i := 0;
    while i < |events|
      invariant 0 <= i <= |events|
      invariant l.pending <==> i > 0
      invariant l.seen == BlankTypesOf(events[..i])
    {
      l.Signal(events[i]);
      assert events[..i + 1] == events[..i] + [events[i]];
      BlankTypesOfAppend(events[..i], events[i]);
      i := i + 1;
    }
    assert events[..i] == events;
    first, delivered := l.RunFrame();
    var ignored;
    second, ignored := l.RunFrame();
  }

  lemma {:induction false} TypesOfAppend(events: seq<Option<string>>, e: Option<string>)
    ensures TypesOf(events + [e]) == TypesOf(events) + (if e.Some? then {e.value} else {})
  {
    if events != [] {
      assert (events + [e])[1..] == events[1..] + [e];
      TypesOfAppend(events[1..], e);
    }
  }

  lemma {:induction false} BlankTypesOfAppend(events: seq<Option<string>>, e: Option<string>)
    ensures BlankTypesOf(events + [e]) == BlankTypesOf(events) + {if e.Some? then e.value else ""}
  {
    if events != [] {
      assert (events + [e])[1..] == events[1..] + [e];
      BlankTypesOfAppend(events[1..], e);
    }
  }
}
