/**
 * The publish/subscribe event queue (src/game/events/EventManager.ts).
 *
 * The manager keeps, per event type, the set of listeners subscribed to it
 * (a JavaScript `Set`, iterated in insertion order, so a duplicate-free
 * sequence here) and a FIFO queue of emitted events. Listeners are opaque
 * objects in the source; here they are identified by number, and what a
 * listener does when it handles an event is given by a `Reaction`: whether it
 * throws, and which events it emits while handling.
 */
module Events {
  import opened KeyboardEvents
  import opened Seqs

  /** The events that travel through the queue: keyboard events, and any other kind by its type name. */
  datatype Event = Keyboard(k: KeyboardEvent) | Other(name: string) {
    function Type(): string {
      match this
      case Keyboard(k) => k.eventType
      case Other(n) => n
    }
  }

  type ListenerId = nat

  /** How the listeners behave: whether `handleEvent` throws, and the events it emits meanwhile. */
  datatype Reaction = Reaction(throws: (ListenerId, Event) -> bool, emits: (ListenerId, Event) -> seq<Event>)

  /** One call of a listener's `handleEvent`, and whether that call threw. */
  datatype Delivery = Delivery(listener: ListenerId, event: Event, failed: bool)

  type Registry = map<string, seq<ListenerId>>

  /** Every registered type has at least one listener, and no listener twice. */
  predicate RegistryValid(reg: Registry) {
    forall t :: t in reg ==> |reg[t]| > 0 && NoDups(reg[t])
  }

  function ListenersOf(reg: Registry, t: string): seq<ListenerId> {
    if t in reg then reg[t] else []
  }

  /** `subscribe`: the listener joins the type's set; the entry is created on first use. */
  function Subscribed(reg: Registry, t: string, l: ListenerId): (r: Registry)
    ensures RegistryValid(reg) ==> RegistryValid(r)
    ensures l in ListenersOf(r, t)
    ensures forall u :: u != t ==> ListenersOf(r, u) == ListenersOf(reg, u)
    ensures l in ListenersOf(reg, t) ==> r == reg
  {
    if t in reg && l in reg[t] then reg else reg[t := AddUnique(ListenersOf(reg, t), l)]
  }

  /** `unsubscribe`: the listener leaves the type's set, and the entry goes once it is empty. */
  function Unsubscribed(reg: Registry, t: string, l: ListenerId): (r: Registry)
    requires RegistryValid(reg)
    ensures RegistryValid(r)
    ensures l !in ListenersOf(r, t)
    ensures forall u :: u != t ==> ListenersOf(r, u) == ListenersOf(reg, u)
    ensures forall m :: m in ListenersOf(reg, t) && m != l ==> m in ListenersOf(r, t)
    ensures t in r ==> t in reg
  {
    if t !in reg then reg
    else
      var rest := RemoveFirst(reg[t], l);
      RemoveFirstNoDups(reg[t], l);
      RemoveFirstMembers(reg[t], l);
      if |rest| == 0 then reg - {t} else reg[t := rest]
  }

  /** `getListenerCount`: the number of distinct listeners of the type, 0 when it has none. */
  function ListenerCount(reg: Registry, t: string): nat {
    |ListenersOf(reg, t)|
  }

  /** `hasListeners` holds exactly when the count is positive, that is, when the type is registered. */
  lemma HasListenersIffRegistered(reg: Registry, t: string)
    requires RegistryValid(reg)
    ensures ListenerCount(reg, t) > 0 <==> t in reg
  {
  }

  /** Subscribing twice counts once; subscribing a new listener raises the count by one. */
  lemma SubscribeCount(reg: Registry, t: string, l: ListenerId)
    requires RegistryValid(reg)
    ensures Subscribed(Subscribed(reg, t, l), t, l) == Subscribed(reg, t, l)
    ensures l in ListenersOf(reg, t) ==> ListenerCount(Subscribed(reg, t, l), t) == ListenerCount(reg, t)
    ensures l !in ListenersOf(reg, t) ==> ListenerCount(Subscribed(reg, t, l), t) == ListenerCount(reg, t) + 1
  {
  }

  /** Unsubscribing the only listener of a type leaves the type without listeners. */
  lemma UnsubscribeLast(reg: Registry, t: string, l: ListenerId)
    requires RegistryValid(reg) && ListenersOf(reg, t) == [l]
    ensures t !in Unsubscribed(reg, t, l)
    ensures ListenerCount(Unsubscribed(reg, t, l), t) == 0
  {
    assert RemoveFirst([l], l) == [];
  }

  /**
   * `processEvent`: each listener of the event's type, in subscription order,
   * handles the event; a throw is caught and the next listener still runs.
   * The result is the calls made and the events emitted meanwhile, in order.
   */
  function Dispatch(ls: seq<ListenerId>, e: Event, react: Reaction): (r: (seq<Delivery>, seq<Event>))
    ensures |r.0| == |ls|
    ensures forall i :: 0 <= i < |ls| ==> r.0[i] == Delivery(ls[i], e, react.throws(ls[i], e))
  {
    if |ls| == 0 then ([], [])
    else
      var (d, em) := Dispatch(ls[..|ls| - 1], e, react);
      var l := ls[|ls| - 1];
      (d + [Delivery(l, e, react.throws(l, e))], em + react.emits(l, e))
  }

  /**
   * `processEvents` on a queue, one event at a time from the front; the
   * events a listener emits join the back of the queue. `fuel` bounds the
   * number of events handled.
   */
  function Drain(q: seq<Event>, reg: Registry, react: Reaction, fuel: nat): (r: (seq<Delivery>, seq<Event>))
    ensures fuel == 0 || |q| == 0 ==> r == ([], q)
    decreases fuel
  {
    if fuel == 0 || |q| == 0 then ([], q)
    else
      var (d, em) := Dispatch(ListenersOf(reg, q[0].Type()), q[0], react);
      var (d', rest) := Drain(q[1..] + em, reg, react, fuel - 1);
      (d + d', rest)
  }

  /** A reaction in which no listener emits anything. */
  ghost predicate Quiet(react: Reaction) {
    forall l, e :: react.emits(l, e) == []
  }

  /** The calls an event receives, event after event, when no listener emits. */
  function DeliveriesInOrder(q: seq<Event>, reg: Registry, react: Reaction): seq<Delivery> {
    if |q| == 0 then []
    else Dispatch(ListenersOf(reg, q[0].Type()), q[0], react).0 + DeliveriesInOrder(q[1..], reg, react)
  }

  lemma {:induction false} DispatchQuiet(ls: seq<ListenerId>, e: Event, react: Reaction)
    requires Quiet(react)
    ensures Dispatch(ls, e, react).1 == []
  {
    if |ls| > 0 {
      DispatchQuiet(ls[..|ls| - 1], e, react);
    }
  }

  /**
   * With no emitting listener, draining a queue with enough fuel delivers
   * its events in FIFO order, each to all the listeners of its type, and
   * leaves the queue empty.
   */
  lemma {:induction false} DrainQuietIsFifo(q: seq<Event>, reg: Registry, react: Reaction, fuel: nat)
    requires Quiet(react) && fuel >= |q|
    ensures Drain(q, reg, react, fuel) == (DeliveriesInOrder(q, reg, react), [])
  {
    if |q| > 0 {
      DispatchQuiet(ListenersOf(reg, q[0].Type()), q[0], react);
      assert q[1..] + [] == q[1..];
      DrainQuietIsFifo(q[1..], reg, react, fuel - 1);
    }
  }

  class EventManager {
    var listeners: Registry
    var queue: seq<Event>

    ghost predicate Valid()
      reads this
    {
      RegistryValid(listeners)
    }

    constructor()
      ensures Valid() && listeners == map[] && queue == []
    {
      listeners := map[];
      queue := [];
    }

    method Subscribe(t: string, l: ListenerId)
      requires Valid()
      modifies this
      ensures Valid()
      ensures listeners == Subscribed(old(listeners), t, l) && queue == old(queue)
    {
      if t !in listeners {
        listeners := listeners[t := []];
      }
      if l !in listeners[t] {
        listeners := listeners[t := listeners[t] + [l]];
      }
    }

    method Unsubscribe(t: string, l: ListenerId)
      requires Valid()
      modifies this
      ensures Valid()
      ensures listeners == Unsubscribed(old(listeners), t, l) && queue == old(queue)
    {
      var reg := listeners;
      if t in reg {
        var rest := RemoveFirst(reg[t], l);
        if |rest| == 0 {
          listeners := reg - {t};
        } else {
          listeners := reg[t := rest];
        }
        assert listeners == Unsubscribed(reg, t, l);
      }
    }

    /** `emit` only appends to the queue; no listener runs. */
    method Emit(e: Event)
      modifies this
      ensures queue == old(queue) + [e] && listeners == old(listeners)
    {
      queue := queue + [e];
    }

    /** `processEvent`: the listeners of the event's type run in order; throws are caught. */
    method ProcessEvent(e: Event, react: Reaction) returns (delivered: seq<Delivery>)
      modifies this
      ensures delivered == Dispatch(ListenersOf(listeners, e.Type()), e, react).0
      ensures queue == old(queue) + Dispatch(ListenersOf(listeners, e.Type()), e, react).1
      ensures listeners == old(listeners)
    {
      var ls := ListenersOf(listeners, e.Type());
      delivered := [];
      var i := 0;
      while i < |ls|
        invariant 0 <= i <= |ls| && listeners == old(listeners)
        invariant delivered == Dispatch(ls[..i], e, react).0
        invariant queue == old(queue) + Dispatch(ls[..i], e, react).1
      {
        assert ls[..i + 1][..i] == ls[..i];
        var failed := react.throws(ls[i], e);
        delivered := delivered + [Delivery(ls[i], e, failed)];
        queue := queue + react.emits(ls[i], e);
        i := i + 1;
      }
      assert ls[..i] == ls;
    }

    /** `emitImmediate` dispatches at once; only what the listeners emit reaches the queue. */
    method EmitImmediate(e: Event, react: Reaction) returns (delivered: seq<Delivery>)
      modifies this
      ensures delivered == Dispatch(ListenersOf(listeners, e.Type()), e, react).0
      ensures queue == old(queue) + Dispatch(ListenersOf(listeners, e.Type()), e, react).1
      ensures listeners == old(listeners)
    {
      delivered := ProcessEvent(e, react);
    }

    /** `processEvents`: shift and handle events until the queue is empty (or `fuel` events were handled). */
    method ProcessEvents(react: Reaction, fuel: nat) returns (delivered: seq<Delivery>)
      modifies this
      ensures (delivered, queue) == Drain(old(queue), listeners, react, fuel)
      ensures listeners == old(listeners)
    {
      delivered := [];
      var left: nat := fuel;
      assert delivered + Drain(queue, listeners, react, left).0 == Drain(queue, listeners, react, left).0;
      while |queue| > 0 && left > 0
        invariant listeners == old(listeners)
        invariant Drain(old(queue), listeners, react, fuel)
          == (delivered + Drain(queue, listeners, react, left).0, Drain(queue, listeners, react, left).1)
        decreases left
      {
        ghost var before := Drain(queue, listeners, react, left);
        ghost var q0, d0 := queue, delivered;
        var e := queue[0];
        ghost var first := Dispatch(ListenersOf(listeners, e.Type()), e, react);
        queue := queue[1..];
        var d := ProcessEvent(e, react);
        assert d == first.0 && queue == q0[1..] + first.1;
        delivered := delivered + d;
        left := left - 1;
        ghost var after := Drain(queue, listeners, react, left);
        assert before == (first.0 + after.0, after.1);
        assert d0 + before.0 == delivered + after.0;
      }
      assert delivered + [] == delivered;
    }

    /** `clear` empties the registry and the queue. */
    method Clear()
      modifies this
      ensures Valid() && listeners == map[] && queue == []
    {
      listeners := map[];
      queue := [];
    }

    function GetListenerCount(t: string): (n: nat)
      reads this
      ensures n == ListenerCount(listeners, t)
    {
      if t in listeners then |listeners[t]| else 0
    }

    function HasListeners(t: string): (b: bool)
      reads this
      requires Valid()
      ensures b <==> t in listeners
    {
      HasListenersIffRegistered(listeners, t);
      GetListenerCount(t) > 0
    }
  }
}
