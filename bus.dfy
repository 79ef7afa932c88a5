/**
 * One bus: a registry of subscribers and a delay buffer, changed in place by
 * `addSubscriber`, `removeSubcriber` and `queue`.
 *
 * The functions over `BusState` say what each operation makes of the state as
 * a value; the class `Bus` performs the operations step by step and is proved
 * to produce exactly that. The invariant tying the two parts together is that
 * no type some record lists has events waiting in the buffer.
 */
module EventBus {
  import opened Collections
  import opened TypeSets
  import opened Registry
  import opened Dispatcher

  /** The state of one bus as a value: its records and its delay buffer. */
  datatype BusState = BusState(subscribers: seq<Record>, buffer: Buffer)

  /** No type that some record lists has events waiting in the buffer. */
  predicate NothingWaitingForListed(s: BusState)
  {
    forall i, t :: 0 <= i < |s.subscribers| && t in s.subscribers[i].types ==> t !in s.buffer
  }

  /** What every bus keeps: one record per target, a tidy buffer, and the link between them. */
  predicate Invariant(s: BusState)
  {
    Unique(s.subscribers) && WellFormed(s.buffer) && NothingWaitingForListed(s)
  }

  /** `if (!types || types.constructor !== Array) types = []`: None is a missing or non-array argument. */
  function Normalize(types: Option<seq<EventType>>): (ts: seq<EventType>)
    ensures types.None? ==> ts == []
    ensures types.Some? ==> ts == types.value
  {
    match types
    case None => []
    case Some(ts) => ts
  }

  /** The state after `addSubscriber(el, ts)`. */
  function AfterRegister(s: BusState, el: Element, ts: seq<EventType>): (r: BusState)
    ensures TypesOf(r.subscribers, el).Some?
    ensures r.buffer.Keys <= s.buffer.Keys
    ensures forall t :: t in r.buffer ==> r.buffer[t] == s.buffer[t]
  {
    BusState(Registered(s.subscribers, el, ts), s.buffer - Elems(Polled(s.subscribers, el, ts)))
  }

  /** The deliveries `addSubscriber(el, ts)` makes: the buffered events it polls. */
  function RegisterDeliveries(s: BusState, el: Element, ts: seq<EventType>): seq<Delivery>
  {
    Replay(el, s.buffer, Polled(s.subscribers, el, ts))
  }

  /** The state after `removeSubcriber(el, ts)`; the buffer is untouched. */
  function AfterUnregister(s: BusState, el: Element, ts: seq<EventType>): (r: BusState)
    ensures r.buffer == s.buffer
    ensures |r.subscribers| <= |s.subscribers|
  {
    BusState(Unregistered(s.subscribers, el, ts), s.buffer)
  }

  /** Whether `removeSubcriber(el, ts)` leaves the bus without subscribers and so destroys it. */
  predicate Destroys(s: BusState, el: Element, ts: seq<EventType>)
    ensures Destroys(s, el, ts) ==> TypesOf(s.subscribers, el).Some?
    ensures Destroys(s, el, ts) ==> AfterUnregister(s, el, ts).subscribers == []
  {
    Removes(s.subscribers, el, ts) && Unregistered(s.subscribers, el, ts) == []
  }

  /** The state after `queue(e)`. */
  function AfterQueue(s: BusState, e: Event): (r: BusState)
    ensures r.subscribers == s.subscribers
    ensures forall t :: t != e.eventType ==> Pending(r.buffer, t) == Pending(s.buffer, t)
    ensures Pending(r.buffer, e.eventType) == Pending(s.buffer, e.eventType)
      || Pending(r.buffer, e.eventType) == Pending(s.buffer, e.eventType) + [e]
  {
    if Dispatch(s.subscribers, e, true) == [] then BusState(s.subscribers, Enqueued(s.buffer, e)) else s
  }

  // ---------------------------------------------------------------------------
  // The invariant is kept by every operation

  /** `addSubscriber`'s three paths: a new record, a grown record, or no change. */
  lemma RegisterPaths(s: BusState, el: Element, ts: seq<EventType>)
    ensures Find(s.subscribers, el).None? ==>
      && AfterRegister(s, el, ts) == BusState([Record(el, ts)] + s.subscribers, s.buffer - Elems(ts))
      && RegisterDeliveries(s, el, ts) == Replay(el, s.buffer, ts)
    ensures Find(s.subscribers, el).Some? ==>
      var i := Find(s.subscribers, el).value;
      var union := Union(s.subscribers[i].types, ts);
      if |union| > |s.subscribers[i].types| then
        && AfterRegister(s, el, ts) == BusState(s.subscribers[i := Record(el, union)], s.buffer - Elems(ts))
        && RegisterDeliveries(s, el, ts) == Replay(el, s.buffer, ts)
      else
        AfterRegister(s, el, ts) == s && RegisterDeliveries(s, el, ts) == []
  {
    assert Elems<EventType>([]) == {};
  }

  lemma RegisterPreservesInvariant(s: BusState, el: Element, ts: seq<EventType>)
    requires Invariant(s)
    ensures Invariant(AfterRegister(s, el, ts))
  {
    var rs, b := s.subscribers, s.buffer;
    var s' := AfterRegister(s, el, ts);
    RegisterKeepsUnique(rs, el, ts);
    assert Elems<EventType>([]) == {};
    forall i, t | 0 <= i < |s'.subscribers| && t in s'.subscribers[i].types
      ensures t !in s'.buffer
    {
      match Find(rs, el)
      case None =>
        if i == 0 {
          assert t in Elems(ts);
        } else {
          assert s'.subscribers[i] == rs[i - 1];
        }
      case Some(k) =>
        if Grows(rs, el, ts) && i == k {
          var u := Union(rs[k].types, ts);
          assert t in Elems(u);
          if t in Elems(ts) {
          } else {
            assert t in rs[k].types;
          }
        } else {
          assert s'.subscribers[i] == rs[i];
        }
    }
  }

  lemma UnregisterPreservesInvariant(s: BusState, el: Element, ts: seq<EventType>)
    requires Invariant(s)
    ensures Invariant(AfterUnregister(s, el, ts))
  {
    UnregisterKeepsUnique(s.subscribers, el, ts);
    var rs := Unregistered(s.subscribers, el, ts);
    forall i, t | 0 <= i < |rs| && t in rs[i].types ensures t !in s.buffer {
      UnregisterShrinks(s.subscribers, el, ts, i, t);
    }
  }

  lemma QueuePreservesInvariant(s: BusState, e: Event)
    requires Invariant(s)
    ensures Invariant(AfterQueue(s, e))
  {
    RestrictedSilence(s.subscribers, e);
  }

  /**
   * `queue(e)` buffers `e`, after the events already waiting for its type,
   * exactly when no record lists its type; otherwise the bus is unchanged.
   */
  lemma QueueBuffersIff(s: BusState, e: Event)
    ensures AfterQueue(s, e).subscribers == s.subscribers
    ensures (forall i :: 0 <= i < |s.subscribers| ==> e.eventType !in s.subscribers[i].types) ==>
      Pending(AfterQueue(s, e).buffer, e.eventType) == Pending(s.buffer, e.eventType) + [e]
    ensures (exists i :: 0 <= i < |s.subscribers| && e.eventType in s.subscribers[i].types) ==>
      AfterQueue(s, e) == s
  {
    RestrictedSilence(s.subscribers, e);
  }

  /**
   * A delayed event that nobody listens for is buffered; the next element to
   * register for its type receives it, after the events of that type already
   * waiting; any later registration for that type receives nothing.
   */
  lemma DelayedEventReplayedOnce(s: BusState, e: Event, first: Element, later: Element)
    requires Invariant(s)
    requires forall i :: 0 <= i < |s.subscribers| ==> e.eventType !in s.subscribers[i].types
    requires TypesOf(s.subscribers, first).None?
    ensures Dispatch(s.subscribers, e, true) == []
    ensures RegisterDeliveries(AfterQueue(s, e), first, [e.eventType])
      == Deliveries(first, Pending(s.buffer, e.eventType) + [e])
    ensures RegisterDeliveries(AfterRegister(AfterQueue(s, e), first, [e.eventType]), later, [e.eventType]) == []
  {
    var t := e.eventType;
    RestrictedSilence(s.subscribers, e);
    var s1 := AfterQueue(s, e);
    assert s1.buffer == Enqueued(s.buffer, e);
    assert Polled(s1.subscribers, first, [t]) == [t];
    assert [t][1..] == [];
    assert Pending(s1.buffer, t) == Pending(s.buffer, t) + [e];
    assert Replay(first, s1.buffer, [t]) == Deliveries(first, Pending(s1.buffer, t)) + [];
    var s2 := AfterRegister(s1, first, [t]);
    assert Elems([t]) == {t};
    assert t !in s2.buffer;
    ReplayNothingPending(later, s2.buffer, Polled(s2.subscribers, later, [t]));
  }

  /**
   * When the last subscriber leaves, by an empty type list or by removing all
   * of its listed types, the bus is destroyed.
   */
  lemma LastSubscriberLeaves(s: BusState, el: Element, types: seq<EventType>, ts: seq<EventType>)
    requires s.subscribers == [Record(el, types)]
    requires ts == [] || (types != [] && Elems(types) <= Elems(ts))
    ensures Destroys(s, el, ts)
  {
    UnregisterOutcome(s.subscribers, el, ts);
    assert Find(s.subscribers, el) == Some(0);
    assert Unregistered(s.subscribers, el, ts) == Without(s.subscribers, el);
  }

  // ---------------------------------------------------------------------------
  // The bus object

  class Bus {
    /** The bus's `name` attribute, by which the directory finds it. */
    const name: string
    /** Registered subscribers, most recently added first. */
    var subscribers: seq<Record>
    /** Events waiting for a subscriber of their type. */
    var buffer: Buffer

    ghost function State(): BusState
      reads this
    {
      BusState(subscribers, buffer)
    }

    ghost predicate Valid()
      reads this
    {
      Invariant(State())
    }

    constructor (name: string)
      ensures this.name == name && State() == BusState([], map[]) && Valid()
    {
      this.name := name;
      subscribers := [];
      buffer := map[];
    }

    /**
     * `emit(event, restricted)`: deliver `event` to every matching record in
     * list order and count the deliveries.
     */
    method Emit(event: Event, restricted: bool) returns (count: nat, sent: seq<Delivery>)
      ensures sent == Dispatch(subscribers, event, restricted)
      ensures count == |sent|
    {
      count, sent := 0, [];
      var i := 0;
      while i < |subscribers|
        invariant 0 <= i <= |subscribers|
        invariant sent == Dispatch(subscribers[..i], event, restricted)
        invariant count == |sent|
      {
        var item := subscribers[i];
        if (!restricted && item.types == []) || event.eventType in item.types {
          sent := sent + [Delivery(item.target, event)];
          count := count + 1;
        }
        assert subscribers[..i + 1][..i] == subscribers[..i];
        i := i + 1;
      }
      assert subscribers[..i] == subscribers;
    }

    /** `_enqueue(event)`: append `event` to the list of its type. */
    method Enqueue(event: Event)
      modifies this
      ensures subscribers == old(subscribers)
      ensures buffer == Enqueued(old(buffer), event)
    {
      var items := if event.eventType in buffer then buffer[event.eventType] else [];
      items := items + [event];
      buffer := buffer[event.eventType := items];
    }

    /** `_dequeue(t)`: take the whole list of type `t` out of the buffer. */
    method Dequeue(t: EventType) returns (items: seq<Event>)
      modifies this
      ensures items == Pending(old(buffer), t)
      ensures buffer == old(buffer) - {t}
      ensures subscribers == old(subscribers)
    {
      if t in buffer {
        items := buffer[t];
        buffer := buffer - {t};
      } else {
        items := [];
      }
    }

    /** `_poll(element, types)`: drain each type in turn and deliver its events to `element`. */
    method Poll(element: Element, types: seq<EventType>) returns (sent: seq<Delivery>)
      modifies this
      ensures sent == Replay(element, old(buffer), types)
      ensures buffer == old(buffer) - Elems(types)
      ensures subscribers == old(subscribers)
    {
      sent := [];
      var k := 0;
      while k < |types|
        invariant 0 <= k <= |types|
        invariant subscribers == old(subscribers)
        invariant buffer == old(buffer) - Elems(types[..k])
        invariant sent + Replay(element, buffer, types[k..]) == Replay(element, old(buffer), types)
      {
        var queuedEvents := Dequeue(types[k]);
        var delivered := Deliver(element, queuedEvents);
        ReplayRound(element, old(buffer), types, k, sent, delivered);
        MinusTake(old(buffer), types, k);
        sent := sent + delivered;
        k := k + 1;
      }
      assert types[..k] == types;
    }

    /**
     * `queue(event)`: a restricted emit; when it reached nobody, buffer the
     * event under its type.
     */
    method Queue(event: Event) returns (sent: seq<Delivery>)
      requires Valid()
      modifies this
      ensures Valid()
      ensures sent == Dispatch(old(subscribers), event, true)
      ensures State() == AfterQueue(old(State()), event)
    {
      ghost var s0 := State();
      var count;
      count, sent := Emit(event, true);
      if count == 0 {
        Enqueue(event);
      }
      QueuePreservesInvariant(s0, event);
    }

    /**
     * `addSubscriber(element, types)`: a new record in front for a new target,
     * or the union of the types for a known one; poll the buffer when the
     * types grew.
     */
    method AddSubscriber(element: Option<Element>, types: Option<seq<EventType>>) returns (sent: seq<Delivery>)
      requires Valid()
      modifies this
      ensures Valid()
      ensures !Deliverable(element) ==> State() == old(State()) && sent == []
      ensures Deliverable(element) ==>
        && State() == AfterRegister(old(State()), element.value, Normalize(types))
        && sent == RegisterDeliveries(old(State()), element.value, Normalize(types))
    {
      if !Deliverable(element) {
        return [];
      }
      var el := element.value;
      var ts := if types.None? then [] else types.value;
      ghost var s0 := State();
      RegisterPaths(s0, el, ts);
      match Find(subscribers, el) {
        case Some(i) =>
          var union := Union(subscribers[i].types, ts);
          if |union| > |subscribers[i].types| {
            subscribers := subscribers[i := Record(el, union)];
            sent := Poll(el, ts);
          } else {
            sent := [];
          }
        case None =>
          subscribers := [Record(el, ts)] + subscribers;
          sent := Poll(el, ts);
      }
      RegisterPreservesInvariant(s0, el, ts);
    }

    /**
     * `removeSubcriber(element, types)`: drop the record for an empty type
     * list, or when a non-empty list would become empty (by calling itself
     * with no types); otherwise keep the types not removed. Reports whether
     * the bus lost its last subscriber and is to be destroyed.
     */
    method RemoveSubscriber(element: Option<Element>, types: Option<seq<EventType>>) returns (destroyed: bool)
      requires Valid()
      modifies this
      decreases if types.Some? then |types.value| + 1 else 0
      ensures Valid()
      ensures !Deliverable(element) ==> State() == old(State()) && !destroyed
      ensures Deliverable(element) ==>
        && State() == AfterUnregister(old(State()), element.value, Normalize(types))
        && destroyed == Destroys(old(State()), element.value, Normalize(types))
    {
      destroyed := false;
      if !Deliverable(element) {
        return;
      }
      var el := element.value;
      var ts := if types.None? then [] else types.value;
      ghost var s0 := State();
      match Find(subscribers, el) {
        case Some(i) =>
          if |ts| == 0 {
            subscribers := Without(subscribers, el);
            if |subscribers| == 0 {
              destroyed := true;
            }
          } else {
            var difference := Difference(subscribers[i].types, ts);
            if |subscribers[i].types| > 0 && |difference| == 0 {
              destroyed := RemoveSubscriber(element, None);
            } else {
              subscribers := subscribers[i := Record(el, difference)];
            }
          }
        case None =>
      }
      UnregisterPreservesInvariant(s0, el, ts);
    }
  }
}
