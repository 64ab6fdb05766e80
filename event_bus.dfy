/**
 * The publish/subscribe bus: a record from event name to the ordered list of
 * handlers registered for it. Handlers are opaque values compared by identity
 * (`H`); invoking one is modelled by recording it in the delivery sequence,
 * and whether it throws is the caller-supplied predicate `throws`.
 */
module Events {

  /** `filter(cb => cb !== callback)`: every other handler, in order. */
  function RemoveAll<H(==,!new)>(hs: seq<H>, cb: H): (r: seq<H>)
    ensures cb !in r
    ensures forall h :: h != cb ==> multiset(r)[h] == multiset(hs)[h]
    ensures cb !in hs ==> r == hs
  {
    if hs == [] then []
    else
      var last := hs[|hs| - 1];
      assert hs == hs[..|hs| - 1] + [last];
      RemoveAll(hs[..|hs| - 1], cb) + (if last == cb then [] else [last])
  }

  /** Removing handlers commutes with concatenation, so the survivors keep their order. */
  lemma {:induction false} RemoveAllAppend<H(!new)>(a: seq<H>, b: seq<H>, cb: H)
    ensures RemoveAll(a + b, cb) == RemoveAll(a, cb) + RemoveAll(b, cb)
  {
    if b == [] {
      assert a + b == a;
    } else {
      assert (a + b)[..|a + b| - 1] == a + b[..|b| - 1];
      RemoveAllAppend(a, b[..|b| - 1], cb);
    }
  }

  /** The handlers of `event`; an event never registered has none. */
  function Handlers<H>(events: map<string, seq<H>>, event: string): seq<H> {
    if event in events then events[event] else []
  }

  /** The registry after `on(event, cb)`: the list is created if missing, then `cb` is pushed. */
  function WithHandler<H>(events: map<string, seq<H>>, event: string, cb: H): (r: map<string, seq<H>>)
    ensures r.Keys == events.Keys + {event}
    ensures r[event] == Handlers(events, event) + [cb]
    ensures forall e :: e in events && e != event ==> r[e] == events[e]
  {
    events[event := Handlers(events, event) + [cb]]
  }

  /** The registry after `off(event, cb)`: nothing for an unknown event, else every `cb` filtered out. */
  function WithoutHandler<H(==,!new)>(events: map<string, seq<H>>, event: string, cb: H): (r: map<string, seq<H>>)
    ensures event !in events ==> r == events
    ensures r.Keys == events.Keys
    ensures event in events ==> r[event] == RemoveAll(events[event], cb)
    ensures forall e :: e in events && e != event ==> r[e] == events[e]
  {
    if event !in events then events else events[event := RemoveAll(events[event], cb)]
  }

  /** The handlers among `hs` that throw, in invocation order: each such failure is reported. */
  function Throwing<H(!new)>(hs: seq<H>, throws: H -> bool): (r: seq<H>)
    ensures |r| <= |hs|
    ensures forall h :: h in r <==> h in hs && throws(h)
  {
    if hs == [] then []
    else Throwing(hs[..|hs| - 1], throws) + (if throws(hs[|hs| - 1]) then [hs[|hs| - 1]] else [])
  }

  /** `on` does not deduplicate: registering a handler twice lists it twice. */
  lemma OnTwiceListsTwice<H>(events: map<string, seq<H>>, event: string, cb: H)
    ensures Handlers(WithHandler(WithHandler(events, event, cb), event, cb), event)
         == Handlers(events, event) + [cb, cb]
  {
  }

  /** `off` after `on` leaves exactly the other handlers, in their order. */
  lemma {:induction false} OffUndoesOn<H(!new)>(events: map<string, seq<H>>, event: string, cb: H)
    ensures Handlers(WithoutHandler(WithHandler(events, event, cb), event, cb), event)
         == RemoveAll(Handlers(events, event), cb)
  {
    var hs := Handlers(events, event);
    RemoveAllAppend(hs, [cb], cb);
    assert RemoveAll([cb], cb) == [] by {
      assert [cb][..0] == [];
    }
  }

  class EventBus<H(==,!new)> {
    var events: map<string, seq<H>>

    constructor ()
      ensures events == map[]
    {
      events := map[];
    }

    method On(event: string, callback: H)
      modifies this
      ensures events == WithHandler(old(events), event, callback)
    {
      if event !in events {
        events := events[event := []];
      }
      events := events[event := events[event] + [callback]];
    }

    method Off(event: string, callback: H)
      modifies this
      ensures events == WithoutHandler(old(events), event, callback)
    {
      if event !in events {
        return;
      }
      events := events[event := RemoveAll(events[event], callback)];
    }

    /**
     * Calls every handler of `event` once, in registration order. A handler
     * that throws is caught and reported in `failed`; the later ones still
     * run. The registry is not changed (the method modifies nothing).
     */
    method Emit(event: string, throws: H -> bool) returns (delivered: seq<H>, failed: seq<H>)
      ensures delivered == Handlers(events, event)
      ensures failed == Throwing(delivered, throws)
    {
      delivered, failed := [], [];
      if event !in events {
        return;
      }
      var handlers := events[event];
      var i := 0;
      while i < |handlers|
        invariant 0 <= i <= |handlers|
        invariant delivered == handlers[..i]
        invariant failed == Throwing(delivered, throws)
      {
        var callback := handlers[i];
        assert handlers[..i + 1] == delivered + [callback];
        delivered := delivered + [callback];
        if throws(callback) {
          failed := failed + [callback];
        }
        i := i + 1;
      }
    }
  }
}
