/**
 * The directory of named buses behind the static entry points `post`,
 * `postDelayed`, `register`, `unregister` and `getInstance`.
 *
 * The host finds buses by their `name` attribute among the bus elements of the
 * document, and appends new ones at the end of the document body; here that is
 * a map from name to bus, plus the names in creation order, which is the order
 * a broadcast visits the buses in.
 */
module BusDirectory {
  import opened Collections
  import opened TypeSets
  import opened Registry
  import opened Dispatcher
  import opened EventBus

  /** The bus name `getInstance`, `register` and `unregister` use by default. */
  const DefaultName: string := "default"

  /** The state of a bus just created. */
  function Empty(): BusState
  {
    BusState([], map[])
  }

  /** The bus states once `name` is ensured to exist. */
  function WithBus(states: map<string, BusState>, name: string): map<string, BusState>
  {
    if name in states then states else states[name := Empty()]
  }

  /** The deliveries of emitting `e` on each named bus in turn. */
  function Emitted(names: seq<string>, states: map<string, BusState>, e: Event, restricted: bool): (r: seq<Delivery>)
    requires forall n :: n in names ==> n in states
    ensures forall k :: 0 <= k < |r| ==> r[k].event == e
  {
    if names == [] then []
    else
      var last := names[|names| - 1];
      Emitted(names[..|names| - 1], states, e, restricted) + Dispatch(states[last].subscribers, e, restricted)
  }

  /** Every bus after a `queue(e)` on each. */
  function QueueAll(states: map<string, BusState>, e: Event): (r: map<string, BusState>)
    ensures r.Keys == states.Keys
    ensures forall n :: n in r ==> r[n].subscribers == states[n].subscribers
  {
    map n | n in states :: AfterQueue(states[n], e)
  }

  /** Emitting on one more bus appends that bus's deliveries. */
  lemma EmittedStep(names: seq<string>, states: map<string, BusState>, k: nat, e: Event, restricted: bool)
    requires k < |names| && forall n :: n in names ==> n in states
    ensures Emitted(names[..k + 1], states, e, restricted) ==
      Emitted(names[..k], states, e, restricted) + Dispatch(states[names[k]].subscribers, e, restricted)
  {
    assert names[..k + 1][..k] == names[..k];
  }

  /** The bus states part-way through a broadcast `queue`: the buses named in `done` have queued. */
  function QueuedUpTo(states: map<string, BusState>, done: seq<string>, e: Event): map<string, BusState>
  {
    map n | n in states :: if n in done then AfterQueue(states[n], e) else states[n]
  }

  /** Queueing on one more bus advances the broadcast by that bus. */
  lemma QueuedUpToStep(states: map<string, BusState>, names: seq<string>, k: nat, e: Event)
    requires k < |names| && names[k] in states && names[k] !in names[..k]
    ensures var done := QueuedUpTo(states, names[..k], e);
      QueuedUpTo(states, names[..k + 1], e) == done[names[k] := AfterQueue(done[names[k]], e)]
  {
    assert names[..k + 1] == names[..k] + [names[k]];
  }

  /** A broadcast over every bus is a `queue` on each. */
  lemma QueuedUpToAll(states: map<string, BusState>, names: seq<string>, e: Event)
    requires forall n :: n in states ==> n in names
    ensures QueuedUpTo(states, names, e) == QueueAll(states, e)
  {
  }

  /** One round of a broadcast `queue` over the names of all the buses. */
  lemma BroadcastRound(states: map<string, BusState>, names: seq<string>, k: nat, e: Event)
    requires NoDups(names) && Elems(names) == states.Keys && k < |names|
    ensures names[k] in states && QueuedUpTo(states, names[..k], e)[names[k]] == states[names[k]]
    ensures var done := QueuedUpTo(states, names[..k], e);
      QueuedUpTo(states, names[..k + 1], e) == done[names[k] := AfterQueue(done[names[k]], e)]
    ensures Emitted(names[..k + 1], states, e, true) ==
      Emitted(names[..k], states, e, true) + Dispatch(states[names[k]].subscribers, e, true)
  {
    assert names[k] in Elems(names);
    assert names[k] !in names[..k];
    QueuedUpToStep(states, names, k, e);
    EmittedStep(names, states, k, e, true);
  }

  /** After the last round, every bus has queued. */
  lemma BroadcastDone(states: map<string, BusState>, names: seq<string>, e: Event)
    requires Elems(names) == states.Keys
    ensures QueuedUpTo(states, names[..|names|], e) == QueueAll(states, e)
    ensures names[..|names|] == names
  {
    assert names[..|names|] == names;
    QueuedUpToAll(states, names, e);
  }

  /**
   * A broadcast makes exactly the deliveries that emitting on one of the named
   * buses makes.
   */
  lemma {:induction false} EmittedMembership(names: seq<string>, states: map<string, BusState>, e: Event,
                                             restricted: bool, d: Delivery)
    requires forall n :: n in names ==> n in states
    ensures d in Emitted(names, states, e, restricted) <==>
      exists n :: n in names && d in Dispatch(states[n].subscribers, e, restricted)
  {
    if names != [] {
      var init := names[..|names| - 1];
      var last := names[|names| - 1];
      assert names == init + [last];
      EmittedMembership(init, states, e, restricted, d);
      if exists n :: n in names && d in Dispatch(states[n].subscribers, e, restricted) {
        var n :| n in names && d in Dispatch(states[n].subscribers, e, restricted);
        if n != last {
          assert n in init;
        }
      }
    }
  }

  /**
   * A broadcast `post` reaches every subscriber of every bus that a post to
   * that bus alone reaches.
   */
  lemma BroadcastReachesEveryBus(names: seq<string>, states: map<string, BusState>, e: Event, n: string, d: Delivery)
    requires forall m :: m in names ==> m in states
    requires n in names && d in Dispatch(states[n].subscribers, e, false)
    ensures d in Emitted(names, states, e, false)
  {
    EmittedMembership(names, states, e, false, d);
  }

  class Directory {
    /** The live buses by name. */
    var buses: map<string, Bus>
    /** The names of the live buses, oldest first (document order). */
    var order: seq<string>
    /** The state of every live bus. */
    ghost var states: map<string, BusState>

    ghost predicate Valid()
      reads this, buses.Values
    {
      && NoDups(order)
      && Elems(order) == buses.Keys
      && states.Keys == buses.Keys
      && (forall n :: n in buses ==> buses[n].name == n && buses[n].Valid() && states[n] == buses[n].State())
    }

    /** A document with no bus. */
    constructor ()
      ensures Valid() && buses == map[] && order == [] && states == map[]
    {
      buses := map[];
      order := [];
      states := map[];
    }

    /** The bus named `name`, or null: `getInstance(name)` without creation. */
    function Lookup(name: string): (bus: Bus?)
      reads this
      ensures bus == null <==> name !in buses
      ensures bus != null ==> bus == buses[name]
    {
      if name in buses then buses[name] else null
    }

    /** Append the bus `bus`, named `name` and with no subscribers, to the document. */
    method Append(name: string, bus: Bus)
      requires Valid() && name !in buses
      requires bus.name == name && bus.Valid() && bus.State() == Empty()
      modifies this
      ensures Valid()
      ensures buses == old(buses)[name := bus] && order == old(order) + [name]
      ensures states == old(states)[name := Empty()]
    {
      ElemsSnoc(order, name);
      buses, states, order := buses[name := bus], states[name := Empty()], order + [name];
    }

    /** Create a bus named `name` and append it to the document. */
    method Create(name: string) returns (bus: Bus)
      requires Valid() && name !in buses
      modifies this
      ensures Valid() && fresh(bus)
      ensures buses == old(buses)[name := bus] && order == old(order) + [name]
      ensures states == old(states)[name := Empty()]
    {
      bus := new Bus(name);
      Append(name, bus);
    }

    /** `getInstance(name, init)`: find the bus by name, creating and appending it when missing and `init` holds. */
    method GetInstance(name: string, init: bool) returns (bus: Bus?)
      requires Valid()
      modifies this
      ensures Valid()
      ensures name in old(buses) ==> bus == old(buses)[name] && buses == old(buses) && order == old(order)
      ensures name !in old(buses) && !init ==> bus == null && buses == old(buses) && order == old(order)
      ensures name !in old(buses) && init ==>
        && bus != null && fresh(bus)
        && buses == old(buses)[name := bus]
        && order == old(order) + [name]
      ensures states == if init then WithBus(old(states), name) else old(states)
    {
      bus := Lookup(name);
      if bus == null && init {
        bus := Create(name);
      }
    }

    /**
     * `post(event, name)`: emit, unrestricted, on the named bus if it exists,
     * or, with no name (the empty name), on every bus in creation order.
     * Nothing is created or changed.
     */
    method Post(event: Event, name: string) returns (sent: seq<Delivery>)
      requires Valid()
      ensures name != "" && name in states ==> sent == Dispatch(states[name].subscribers, event, false)
      ensures name != "" && name !in states ==> sent == []
      ensures name == "" ==> sent == Emitted(order, states, event, false)
    {
      if name != "" {
        var bus := Lookup(name);
        if bus != null {
          var count;
          count, sent := bus.Emit(event, false);
        } else {
          sent := [];
        }
      } else {
        sent := [];
        var k := 0;
        while k < |order|
          invariant 0 <= k <= |order|
          invariant sent == Emitted(order[..k], states, event, false)
        {
          assert order[k] in Elems(order);
          var bus := buses[order[k]];
          var count, delivered := bus.Emit(event, false);
          sent := sent + delivered;
          assert order[..k + 1][..k] == order[..k];
          k := k + 1;
        }
        assert order[..k] == order;
      }
    }

    /**
     * `queue(event)` on the live bus `name`, keeping `states` in step; no
     * other bus changes.
     */
    method QueueOn(name: string, event: Event) returns (sent: seq<Delivery>)
      requires Valid() && name in buses
      modifies this, buses[name]
      ensures Valid() && buses == old(buses) && order == old(order)
      ensures states == old(states)[name := AfterQueue(old(states)[name], event)]
      ensures sent == Dispatch(old(states)[name].subscribers, event, true)
    {
      var bus := buses[name];
      sent := bus.Queue(event);
      states := states[name := bus.State()];
      forall n | n in buses && n != name
        ensures buses[n].Valid() && states[n] == buses[n].State()
      {
        assert old(buses[n].Valid() && states[n] == buses[n].State());
        assert unchanged(buses[n]);
      }
    }

    /** `queue(event)` on every live bus, in creation order. */
    method QueueEach(event: Event) returns (sent: seq<Delivery>)
      requires Valid()
      modifies this, buses.Values
      ensures Valid() && buses == old(buses) && order == old(order)
      ensures states == QueueAll(old(states), event)
      ensures sent == Emitted(order, old(states), event, true)
    {
      var names := order;
      ghost var start := states;
      sent := [];
      var k := 0;
      while k < |names|
        invariant 0 <= k <= |names|
        invariant buses == old(buses) && order == names && Valid()
        invariant states == QueuedUpTo(start, names[..k], event)
        invariant sent == Emitted(names[..k], start, event, true)
      {
        BroadcastRound(start, names, k, event);
        var delivered := QueueOn(names[k], event);
        sent := sent + delivered;
        k := k + 1;
      }
      BroadcastDone(start, names, event);
    }

    /**
     * `postDelayed(event, name)`: `queue` on the named bus, created if missing,
     * or, with no name, make sure "default" exists and `queue` on every bus.
     */
    method PostDelayed(event: Event, name: string) returns (sent: seq<Delivery>)
      requires Valid()
      modifies this, buses.Values
      ensures Valid()
      ensures forall n :: n in old(buses) ==> n in buses && buses[n] == old(buses)[n]
      ensures forall n :: n in buses && n !in old(buses) ==> fresh(buses[n])
      ensures var target := if name != "" then name else DefaultName;
        order == if target in old(buses) then old(order) else old(order) + [target]
      ensures name != "" ==>
        var created := WithBus(old(states), name);
        && states == created[name := AfterQueue(created[name], event)]
        && sent == Dispatch(created[name].subscribers, event, true)
      ensures name == "" ==>
        var created := WithBus(old(states), DefaultName);
        && states == QueueAll(created, event)
        && sent == Emitted(order, created, event, true)
    {
      var target := if name != "" then name else DefaultName;
      var _ := GetInstance(target, true);
      if name != "" {
        sent := QueueOn(name, event);
      } else {
        sent := QueueEach(event);
      }
    }

    /** `addSubscriber` on the live bus `name`, keeping `states` in step. */
    method SubscribeOn(name: string, element: Element, types: seq<EventType>) returns (sent: seq<Delivery>)
      requires Valid() && name in buses && element.deliverable
      modifies this, buses[name]
      ensures Valid() && buses == old(buses) && order == old(order)
      ensures states == old(states)[name := AfterRegister(old(states)[name], element, types)]
      ensures sent == RegisterDeliveries(old(states)[name], element, types)
    {
      var bus := buses[name];
      ghost var before := states[name];
      assert bus.State() == before && Normalize(Some(types)) == types;
      sent := bus.AddSubscriber(Some(element), Some(types));
      assert bus.State() == AfterRegister(before, element, types);
      states := states[name := bus.State()];
      forall n | n in buses && n != name
        ensures buses[n].Valid() && states[n] == buses[n].State()
      {
        assert old(buses[n].Valid() && states[n] == buses[n].State());
        assert unchanged(buses[n]);
      }
    }

    /**
     * `register(element, types, name)`: ignore an element that cannot receive
     * events; otherwise normalise `types`, get or create the bus and add the
     * subscriber to it.
     */
    method Register(element: Option<Element>, types: Option<seq<EventType>>, name: string) returns (sent: seq<Delivery>)
      requires Valid()
      modifies this, buses.Values
      ensures Valid()
      ensures forall n :: n in buses && n !in old(buses) ==> fresh(buses[n])
      ensures forall n :: n in old(buses) ==> n in buses && buses[n] == old(buses)[n]
      ensures !Deliverable(element) ==>
        buses == old(buses) && order == old(order) && states == old(states) && sent == []
      ensures Deliverable(element) ==>
        var created := WithBus(old(states), name);
        && order == (if name in old(buses) then old(order) else old(order) + [name])
        && states == created[name := AfterRegister(created[name], element.value, Normalize(types))]
        && sent == RegisterDeliveries(created[name], element.value, Normalize(types))
    {
      if !Deliverable(element) {
        return [];
      }
      var ts := if types.None? then [] else types.value;
      var _ := GetInstance(name, true);
      sent := SubscribeOn(name, element.value, ts);
    }

    /** `removeSubcriber` on the live bus `name`, keeping `states` in step. */
    method UnsubscribeOn(name: string, element: Element, types: seq<EventType>) returns (destroyed: bool)
      requires Valid() && name in buses && element.deliverable
      modifies this, buses[name]
      ensures Valid() && buses == old(buses) && order == old(order)
      ensures states == old(states)[name := AfterUnregister(old(states)[name], element, types)]
      ensures destroyed == Destroys(old(states)[name], element, types)
    {
      var bus := buses[name];
      ghost var before := states[name];
      assert bus.State() == before && Normalize(Some(types)) == types;
      destroyed := bus.RemoveSubscriber(Some(element), Some(types));
      assert bus.State() == AfterUnregister(before, element, types);
      states := states[name := bus.State()];
      forall n | n in buses && n != name
        ensures buses[n].Valid() && states[n] == buses[n].State()
      {
        assert old(buses[n].Valid() && states[n] == buses[n].State());
        assert unchanged(buses[n]);
      }
    }

    /** Take the live bus `name` out of the document. */
    method Drop(name: string)
      requires Valid() && name in buses
      modifies this
      ensures Valid()
      ensures buses == old(buses) - {name} && order == Erase(old(order), name) && states == old(states) - {name}
    {
      ghost var keys := buses.Keys - {name};
      assert (buses - {name}).Keys == keys && (states - {name}).Keys == keys;
      assert Elems(Erase(order, name)) == keys;
      buses, states, order := buses - {name}, states - {name}, Erase(order, name);
    }

    /**
     * `unregister(element, types, name)`: ignore an element that cannot
     * receive events or a bus that does not exist; otherwise remove the
     * subscriber or some of its types, and take the bus out of the document
     * when it lost its last subscriber.
     */
    method Unregister(element: Option<Element>, types: Option<seq<EventType>>, name: string)
      requires Valid()
      modifies this, buses.Values
      ensures Valid()
      ensures !Deliverable(element) || name !in old(buses) ==>
        buses == old(buses) && order == old(order) && states == old(states)
      ensures Deliverable(element) && name in old(buses) ==>
        var s := old(states)[name];
        if Destroys(s, element.value, Normalize(types)) then
          && buses == old(buses) - {name}
          && order == Erase(old(order), name)
          && states == old(states) - {name}
        else
          && buses == old(buses)
          && order == old(order)
          && states == old(states)[name := AfterUnregister(s, element.value, Normalize(types))]
    {
      if !Deliverable(element) {
        return;
      }
      var ts := if types.None? then [] else types.value;
      var bus := Lookup(name);
      if bus != null {
        assert Normalize(types) == ts;
        ghost var before := states;
        var destroyed := UnsubscribeOn(name, element.value, ts);
        if destroyed {
          MinusUpdate(before, name, states[name]);
          Drop(name);
        }
      }
    }
  }
}
