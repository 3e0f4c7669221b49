/** Deferred event delivery, shared by both event buses: handlers are registered per event
    kind, events wait in a queue, and dispatching calls, for each queued event in order,
    each handler of its kind in registration order. Handlers are identified by number and
    a call is recorded as the pair (handler, event). */
module Delivery {

  type HandlerId = nat

  /** An event: its kind and an opaque payload. */
  datatype Event<K, P> = Event(kind: K, payload: P)

  /** One handler call. */
  datatype Call<K, P> = Call(handler: HandlerId, event: Event<K, P>)

  /** The handlers registered for a kind; a kind nobody subscribed to has none. */
  function Subscribers<K>(handlers: map<K, seq<HandlerId>>, kind: K): seq<HandlerId>
  {
    if kind in handlers then handlers[kind] else []
  }

  /** Subscribe: add a handler at the end of its kind's list. */
  function Subscribe<K(!new)>(handlers: map<K, seq<HandlerId>>, kind: K, h: HandlerId): (r: map<K, seq<HandlerId>>)
    ensures Subscribers(r, kind) == Subscribers(handlers, kind) + [h]
    ensures forall k :: k != kind ==> Subscribers(r, k) == Subscribers(handlers, k)
  {
    handlers[kind := Subscribers(handlers, kind) + [h]]
  }

  /** The calls one event causes: each handler of its kind, in registration order. */
  function CallsFor<K, P>(handlers: map<K, seq<HandlerId>>, e: Event<K, P>): (r: seq<Call<K, P>>)
    ensures |r| == |Subscribers(handlers, e.kind)|
    ensures forall i :: 0 <= i < |r| ==> r[i] == Call(Subscribers(handlers, e.kind)[i], e)
  {
    var hs := Subscribers(handlers, e.kind);
    seq(|hs|, i requires 0 <= i < |hs| => Call(hs[i], e))
  }

  /** The calls a dispatch of the queue makes, event by event in queue order. */
  function Deliveries<K, P>(handlers: map<K, seq<HandlerId>>, queue: seq<Event<K, P>>): seq<Call<K, P>>
  {
    if |queue| == 0 then []
    else Deliveries(handlers, queue[..|queue| - 1]) + CallsFor(handlers, queue[|queue| - 1])
  }

  /** Events are delivered in emission order: dispatching a queue delivers its first part
      completely before any call for its second part. */
  lemma {:induction false} DeliveriesAppend<K, P>(handlers: map<K, seq<HandlerId>>,
                                                  a: seq<Event<K, P>>, b: seq<Event<K, P>>)
    ensures Deliveries(handlers, a + b) == Deliveries(handlers, a) + Deliveries(handlers, b)
    decreases |b|
  {
    if |b| == 0 {
      assert a + b == a;
    } else {
      var b' := b[..|b| - 1];
      assert (a + b)[..|a + b| - 1] == a + b';
      assert (a + b)[|a + b| - 1] == b[|b| - 1];
      DeliveriesAppend(handlers, a, b');
    }
  }

  /** A handler is called with an event exactly when the event was queued and the handler
      is subscribed to the event's kind. */
  lemma {:induction false} DeliveredIff<K, P>(handlers: map<K, seq<HandlerId>>,
                                             queue: seq<Event<K, P>>, h: HandlerId, e: Event<K, P>)
    ensures Call(h, e) in Deliveries(handlers, queue)
      <==> e in queue && h in Subscribers(handlers, e.kind)
  {
    if |queue| > 0 {
      var front := queue[..|queue| - 1];
      var last := queue[|queue| - 1];
      DeliveredIff(handlers, front, h, e);
      assert queue == front + [last];
      var calls := CallsFor(handlers, last);
      if Call(h, e) in calls {
        var i :| 0 <= i < |calls| && calls[i] == Call(h, e);
        assert Subscribers(handlers, e.kind)[i] == h;
      }
      if e == last && h in Subscribers(handlers, e.kind) {
        var i :| 0 <= i < |Subscribers(handlers, e.kind)| && Subscribers(handlers, e.kind)[i] == h;
        assert calls[i] == Call(h, e);
      }
    }
  }

  /** Events of kinds without handlers are skipped: if no queued event has a handler,
      dispatching calls nothing. */
  lemma {:induction false} UnhandledSkipped<K, P>(handlers: map<K, seq<HandlerId>>, queue: seq<Event<K, P>>)
    requires forall i :: 0 <= i < |queue| ==> Subscribers(handlers, queue[i].kind) == []
    ensures Deliveries(handlers, queue) == []
  {
    if |queue| > 0 {
      UnhandledSkipped(handlers, queue[..|queue| - 1]);
    }
  }
}
