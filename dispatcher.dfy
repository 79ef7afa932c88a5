/**
 * The dispatcher of one bus: which records an event reaches, and the delay
 * buffer that keeps events a restricted dispatch reached nobody with, to be
 * replayed to the next subscriber of their type.
 */
module Dispatcher {
  import opened Collections
  import opened TypeSets
  import opened Registry

  /** A posted event: its `type` and an opaque payload. */
  datatype Event = Event(eventType: EventType, detail: string)

  /** One call `target.dispatchEvent(event)`. */
  datatype Delivery = Delivery(target: Element, event: Event)

  /** The delay buffer: for each type, the events waiting for it, oldest first. */
  type Buffer = map<EventType, seq<Event>>

  /**
   * `emit`'s test: the record lists the event's type, or it is a wildcard and
   * the dispatch is not restricted.
   */
  predicate Matches(r: Record, e: Event, restricted: bool)
    ensures e.eventType in r.types ==> Matches(r, e, restricted)
    ensures restricted ==> (Matches(r, e, restricted) <==> e.eventType in r.types)
    ensures !restricted ==> (Matches(r, e, restricted) <==> r.types == [] || e.eventType in r.types)
  {
    (!restricted && r.types == []) || e.eventType in r.types
  }

  /** The deliveries `emit` makes, one per matching record, in list order. */
  function Dispatch(rs: seq<Record>, e: Event, restricted: bool): (r: seq<Delivery>)
    ensures |r| <= |rs|
    ensures forall k :: 0 <= k < |r| ==> r[k].event == e
  {
    if rs == [] then []
    else
      var last := rs[|rs| - 1];
      Dispatch(rs[..|rs| - 1], e, restricted)
        + (if Matches(last, e, restricted) then [Delivery(last.target, e)] else [])
  }

  /** The positions of the records an event matches. */
  function MatchingIndices(rs: seq<Record>, e: Event, restricted: bool): set<int>
  {
    set i | 0 <= i < |rs| && Matches(rs[i], e, restricted)
  }

  /** The matching positions of a list are those of its prefix, and maybe the last one. */
  lemma MatchingIndicesLast(rs: seq<Record>, e: Event, restricted: bool)
    requires rs != []
    ensures var n := |rs| - 1;
      MatchingIndices(rs, e, restricted) ==
        MatchingIndices(rs[..n], e, restricted) + (if Matches(rs[n], e, restricted) then {n} else {})
  {
    var n := |rs| - 1;
    assert forall i :: 0 <= i < n ==> rs[..n][i] == rs[i];
  }

  /** `emit` returns exactly the number of matching records. */
  lemma {:induction false} DispatchCount(rs: seq<Record>, e: Event, restricted: bool)
    ensures |Dispatch(rs, e, restricted)| == |MatchingIndices(rs, e, restricted)|
  {
    if rs != [] {
      var n := |rs| - 1;
      DispatchCount(rs[..n], e, restricted);
      MatchingIndicesLast(rs, e, restricted);
      assert n !in MatchingIndices(rs[..n], e, restricted);
    }
  }

  /**
   * A delivery is made by `emit` if and only if it carries the event to the
   * target of a matching record.
   */
  lemma {:induction false} DispatchMembership(rs: seq<Record>, e: Event, restricted: bool, d: Delivery)
    ensures d in Dispatch(rs, e, restricted) <==>
      d.event == e && exists i :: 0 <= i < |rs| && rs[i].target == d.target && Matches(rs[i], e, restricted)
  {
    if rs != [] {
      var n := |rs| - 1;
      DispatchMembership(rs[..n], e, restricted, d);
      assert forall i :: 0 <= i < n ==> rs[..n][i] == rs[i];
      if d.event == e && exists i :: 0 <= i < |rs| && rs[i].target == d.target && Matches(rs[i], e, restricted) {
        var i :| 0 <= i < |rs| && rs[i].target == d.target && Matches(rs[i], e, restricted);
        if i < n {
          assert rs[..n][i].target == d.target && Matches(rs[..n][i], e, restricted);
        }
      }
    }
  }

  /** No target receives two of the deliveries. */
  predicate DistinctTargets(ds: seq<Delivery>)
  {
    forall i, j :: 0 <= i < j < |ds| ==> ds[i].target != ds[j].target
  }

  /** With one record per target, `emit` delivers to each target at most once. */
  lemma {:induction false} DispatchOncePerTarget(rs: seq<Record>, e: Event, restricted: bool)
    requires Unique(rs)
    ensures DistinctTargets(Dispatch(rs, e, restricted))
  {
    if rs != [] {
      var n := |rs| - 1;
      var init := Dispatch(rs[..n], e, restricted);
      DispatchOncePerTarget(rs[..n], e, restricted);
      assert forall i :: 0 <= i < n ==> rs[..n][i] == rs[i];
      if Matches(rs[n], e, restricted) {
        forall k | 0 <= k < |init| ensures init[k].target != rs[n].target {
          DispatchMembership(rs[..n], e, restricted, init[k]);
          assert init[k] in init;
        }
        var ds := init + [Delivery(rs[n].target, e)];
        assert Dispatch(rs, e, restricted) == ds;
        forall i, j | 0 <= i < j < |ds| ensures ds[i].target != ds[j].target {
          if j == |init| {
            assert ds[i] == init[i] && ds[j] == Delivery(rs[n].target, e);
          } else {
            assert ds[i] == init[i] && ds[j] == init[j];
          }
        }
      }
    }
  }

  /** A restricted `emit` reaches nobody exactly when no record lists the event's type. */
  lemma RestrictedSilence(rs: seq<Record>, e: Event)
    ensures Dispatch(rs, e, true) == [] <==> forall i :: 0 <= i < |rs| ==> e.eventType !in rs[i].types
  {
    if Dispatch(rs, e, true) != [] {
      DispatchMembership(rs, e, true, Dispatch(rs, e, true)[0]);
    } else {
      forall i | 0 <= i < |rs| ensures e.eventType !in rs[i].types {
        DispatchMembership(rs, e, true, Delivery(rs[i].target, e));
      }
    }
  }

  /**
   * A wildcard record receives every unrestricted `emit` and no restricted one
   * (with one record per target).
   */
  lemma WildcardReach(rs: seq<Record>, e: Event, i: nat)
    requires Unique(rs) && i < |rs| && rs[i].types == []
    ensures Delivery(rs[i].target, e) in Dispatch(rs, e, false)
    ensures Delivery(rs[i].target, e) !in Dispatch(rs, e, true)
  {
    DispatchMembership(rs, e, false, Delivery(rs[i].target, e));
    DispatchMembership(rs, e, true, Delivery(rs[i].target, e));
  }

  /** Every restricted delivery is also made by an unrestricted `emit`. */
  lemma RestrictedWithinUnrestricted(rs: seq<Record>, e: Event, d: Delivery)
    requires d in Dispatch(rs, e, true)
    ensures d in Dispatch(rs, e, false)
  {
    DispatchMembership(rs, e, true, d);
    DispatchMembership(rs, e, false, d);
  }

  // ---------------------------------------------------------------------------
  // The delay buffer

  /** `buffer[type] || []`: the events waiting for `t`. */
  function Pending(b: Buffer, t: EventType): (r: seq<Event>)
    ensures WellFormed(b) ==> (r == [] <==> t !in b)
    ensures WellFormed(b) ==> forall k :: 0 <= k < |r| ==> r[k].eventType == t
  {
    if t in b then b[t] else []
  }

  /** Every entry is a non-empty list of events of its own type. */
  predicate WellFormed(b: Buffer)
  {
    forall t :: t in b ==> b[t] != [] && forall k :: 0 <= k < |b[t]| ==> b[t][k].eventType == t
  }

  /** `_enqueue`'s new buffer. */
  function Enqueued(b: Buffer, e: Event): (r: Buffer)
    ensures Pending(r, e.eventType) == Pending(b, e.eventType) + [e]
    ensures forall t :: t != e.eventType ==> Pending(r, t) == Pending(b, t)
    ensures r.Keys == b.Keys + {e.eventType}
    ensures WellFormed(b) ==> WellFormed(r)
  {
    b[e.eventType := Pending(b, e.eventType) + [e]]
  }

  /** Delivering each of `es` to `el`, in order. */
  function Deliveries(el: Element, es: seq<Event>): seq<Delivery>
  {
    seq(|es|, k requires 0 <= k < |es| => Delivery(el, es[k]))
  }

  /** Delivering one more event appends its delivery. */
  lemma DeliveriesSnoc(el: Element, es: seq<Event>, j: nat)
    requires j < |es|
    ensures Deliveries(el, es[..j + 1]) == Deliveries(el, es[..j]) + [Delivery(el, es[j])]
  {
  }

  /** `events.forEach(e => el.dispatchEvent(e))`: deliver each event to `el`, in order. */
  method Deliver(el: Element, events: seq<Event>) returns (sent: seq<Delivery>)
    ensures sent == Deliveries(el, events)
  {
    sent := [];
    var j := 0;
    while j < |events|
      invariant 0 <= j <= |events|
      invariant sent == Deliveries(el, events[..j])
    {
      DeliveriesSnoc(el, events, j);
      sent := sent + [Delivery(el, events[j])];
      j := j + 1;
    }
    assert events[..j] == events;
  }

  /**
   * `_poll(el, ts)`: for each type of `ts` in turn, take its whole list out of
   * the buffer and deliver it to `el`, oldest first.
   */
  function Replay(el: Element, b: Buffer, ts: seq<EventType>): (r: seq<Delivery>)
    ensures forall k :: 0 <= k < |r| ==> r[k].target == el
    ensures WellFormed(b) ==> forall k :: 0 <= k < |r| ==> r[k].event.eventType in ts
    decreases |ts|
  {
    if ts == [] then []
    else Deliveries(el, Pending(b, ts[0])) + Replay(el, b - {ts[0]}, ts[1..])
  }

  /** Polling from the `k`-th type on: drain that type, then poll the rest. */
  lemma ReplayStep(el: Element, b: Buffer, ts: seq<EventType>, k: nat)
    requires k < |ts|
    ensures Replay(el, b, ts[k..]) == Deliveries(el, Pending(b, ts[k])) + Replay(el, b - {ts[k]}, ts[k + 1..])
  {
    assert ts[k..][0] == ts[k] && ts[k..][1..] == ts[k + 1..];
  }

  /** Polling from the `k`-th type on, with the first `k` types already drained. */
  lemma ReplayTail(el: Element, b: Buffer, ts: seq<EventType>, k: nat)
    requires k < |ts|
    ensures Replay(el, b - Elems(ts[..k]), ts[k..]) ==
      Deliveries(el, Pending(b - Elems(ts[..k]), ts[k])) + Replay(el, b - Elems(ts[..k + 1]), ts[k + 1..])
  {
    ReplayStep(el, b - Elems(ts[..k]), ts, k);
    MinusTake(b, ts, k);
  }

  /**
   * One round of `_poll`'s loop: with the first `k` types drained and their
   * events delivered, draining type `k` and delivering its events leaves the
   * rest of the replay to the remaining types.
   */
  lemma ReplayRound(el: Element, b: Buffer, ts: seq<EventType>, k: nat, done: seq<Delivery>, delivered: seq<Delivery>)
    requires k < |ts|
    requires done + Replay(el, b - Elems(ts[..k]), ts[k..]) == Replay(el, b, ts)
    requires delivered == Deliveries(el, Pending(b - Elems(ts[..k]), ts[k]))
    ensures (done + delivered) + Replay(el, b - Elems(ts[..k + 1]), ts[k + 1..]) == Replay(el, b, ts)
  {
    ReplayTail(el, b, ts, k);
    ConcatAssoc(done, delivered, Replay(el, b - Elems(ts[..k + 1]), ts[k + 1..]));
  }

  /**
   * Polling delivers, to `el` only, exactly the events that were buffered
   * under one of the polled types; each of them has a polled type.
   */
  lemma {:induction false} ReplayMembership(el: Element, b: Buffer, ts: seq<EventType>, d: Delivery)
    requires WellFormed(b)
    ensures d in Replay(el, b, ts) <==>
      d.target == el && exists t :: t in ts && t in b && d.event in b[t]
    ensures d in Replay(el, b, ts) ==> d.event.eventType in ts
    decreases |ts|
  {
    if ts != [] {
      var t0 := ts[0];
      var rest := b - {t0};
      ReplayMembership(el, rest, ts[1..], d);
      var here := Deliveries(el, Pending(b, t0));
      assert d in here <==> d.target == el && t0 in b && d.event in b[t0] by {
        if d in here {
          var k :| 0 <= k < |here| && here[k] == d;
        }
        if d.target == el && t0 in b && d.event in b[t0] {
          var k :| 0 <= k < |b[t0]| && b[t0][k] == d.event;
          assert here[k] == d;
        }
      }
      if d.target == el && exists t :: t in ts && t in b && d.event in b[t] {
        var t :| t in ts && t in b && d.event in b[t];
        if t != t0 {
          assert t in ts[1..];
        }
      }
      if d in here {
        var k :| 0 <= k < |b[t0]| && b[t0][k] == d.event;
      }
    }
  }

  /** Polling types none of which has buffered events delivers nothing. */
  lemma {:induction false} ReplayNothingPending(el: Element, b: Buffer, ts: seq<EventType>)
    requires forall t :: t in ts ==> t !in b
    ensures Replay(el, b, ts) == []
    decreases |ts|
  {
    if ts != [] {
      ReplayNothingPending(el, b - {ts[0]}, ts[1..]);
    }
  }

  /**
   * Polling drains: once the polled types are taken out of the buffer, a
   * second poll of the same types, by any element, delivers nothing.
   */
  lemma ReplayDrainsOnce(el: Element, b: Buffer, ts: seq<EventType>)
    ensures Replay(el, b - Elems(ts), ts) == []
  {
    ReplayNothingPending(el, b - Elems(ts), ts);
  }
}
