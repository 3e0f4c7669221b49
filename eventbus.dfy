/** The event manager: handler lists per event type and a queue of emitted events that
    is delivered on Dispatch. Event types are the integer enumeration of the game's
    events; payloads are opaque. Dispatch returns the calls it makes. */
module EventBus {
  import opened Delivery

  type EventType = int

  class EventManager<P> {
    var handlers: map<EventType, seq<HandlerId>>
    var queue: seq<Event<EventType, P>>

    /** NewEventManager: no handlers and an empty queue. */
    constructor ()
      ensures handlers == map[] && queue == []
    {
      handlers := map[];
      queue := [];
    }

    /** Subscribe: append the handler to its type's list; the queue is untouched. */
    method Subscribe(t: EventType, h: HandlerId)
      modifies this
      ensures handlers == Delivery.Subscribe(old(handlers), t, h) && queue == old(queue)
    {
      var hs := if t in handlers then handlers[t] else [];
      handlers := handlers[t := hs + [h]];
    }

    /** Emit: append the event to the queue; no handler runs. */
    method Emit(e: Event<EventType, P>)
      modifies this
      ensures queue == old(queue) + [e] && handlers == old(handlers)
    {
      queue := queue + [e];
    }

    /** Dispatch: for each queued event in order, call each handler of its type in order;
        then empty the queue, so a second Dispatch calls nothing. */
    method Dispatch() returns (trace: seq<Call<EventType, P>>)
      modifies this
      ensures trace == Deliveries(old(handlers), old(queue))
      ensures queue == [] && handlers == old(handlers)
    {
      trace := [];
      var i := 0;
      while i < |queue|
        invariant 0 <= i <= |queue|
        invariant trace == Deliveries(handlers, queue[..i])
      {
        var e := queue[i];
        var hs := if e.kind in handlers then handlers[e.kind] else [];
        var j := 0;
        while j < |hs|
          invariant 0 <= j <= |hs|
          invariant trace == Deliveries(handlers, queue[..i]) + CallsFor(handlers, e)[..j]
        {
          trace := trace + [Call(hs[j], e)];
          j := j + 1;
        }
        assert queue[..i + 1][..i] == queue[..i];
        i := i + 1;
      }
      assert queue[..|queue|] == queue;
      queue := [];
    }
  }
}
