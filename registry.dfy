/**
 * The subscription registry of one bus: a list of records, at most one per
 * target, each naming the event types its target accepts (an empty list
 * accepts every type). This module gives the new list that registering and
 * unregistering produce, as functions of the old list.
 */
module Registry {
  import opened Collections
  import opened TypeSets

  /**
   * A subscriber element. `id` stands for the object's identity, which is what
   * the bus compares; `deliverable` for the element having a `dispatchEvent`
   * method.
   */
  datatype Element = Element(id: nat, deliverable: bool)

  /**
   * `!element || !element.dispatchEvent` rejects: a missing element, or one
   * without `dispatchEvent`, is ignored; any other is accepted.
   */
  predicate Deliverable(element: Option<Element>)
    ensures element.None? ==> !Deliverable(element)
    ensures element.Some? ==> (Deliverable(element) <==> element.value.deliverable)
  {
    element.Some? && element.value.deliverable
  }

  /** One entry of `subscribers`: `{target, types}`. */
  datatype Record = Record(target: Element, types: seq<EventType>)

  /** At most one record per target. */
  predicate Unique(rs: seq<Record>)
  {
    forall i, j :: 0 <= i < j < |rs| ==> rs[i].target != rs[j].target
  }

  /** `subscribers.find(item => item.target === element)`, as an index. */
  function Find(rs: seq<Record>, el: Element): (r: Option<nat>)
    ensures r.Some? ==> r.value < |rs| && rs[r.value].target == el
    ensures r.Some? ==> forall j :: 0 <= j < r.value ==> rs[j].target != el
    ensures r.None? <==> forall j :: 0 <= j < |rs| ==> rs[j].target != el
  {
    if rs == [] then None
    else if rs[0].target == el then Some(0)
    else
      match Find(rs[1..], el)
      case None => None
      case Some(i) => Some(i + 1)
  }

  /** The types `el` is registered with, or None when it has no record. */
  function TypesOf(rs: seq<Record>, el: Element): Option<seq<EventType>>
  {
    match Find(rs, el)
    case None => None
    case Some(i) => Some(rs[i].types)
  }

  /** The records of `rs` whose target is not `el`, in order. */
  function Filter(rs: seq<Record>, el: Element): seq<Record>
  {
    if rs == [] then []
    else
      var last := rs[|rs| - 1];
      Filter(rs[..|rs| - 1], el) + (if last.target == el then [] else [last])
  }

  /** What `Filter` keeps: the records of the other targets, and nothing else. */
  lemma {:induction false} FilterFacts(rs: seq<Record>, el: Element)
    ensures |Filter(rs, el)| <= |rs|
    ensures forall j :: 0 <= j < |Filter(rs, el)| ==> Filter(rs, el)[j] in rs && Filter(rs, el)[j].target != el
    ensures forall j :: 0 <= j < |rs| && rs[j].target != el ==> rs[j] in Filter(rs, el)
    ensures Unique(rs) ==> Unique(Filter(rs, el))
  {
    if rs != [] {
      var n := |rs| - 1;
      var last := rs[n];
      var init := Filter(rs[..n], el);
      FilterFacts(rs[..n], el);
      assert rs == rs[..n] + [last];
      assert forall j :: 0 <= j < n ==> rs[j] == rs[..n][j];
      if last.target != el && Unique(rs) {
        forall j | 0 <= j < |init| ensures init[j].target != last.target {
          assert init[j] in rs[..n];
        }
      }
    }
  }

  /** `subscribers.filter(item => item.target !== element)`. */
  function Without(rs: seq<Record>, el: Element): (r: seq<Record>)
    ensures |r| <= |rs|
    ensures forall j :: 0 <= j < |r| ==> r[j] in rs && r[j].target != el
    ensures forall j :: 0 <= j < |rs| && rs[j].target != el ==> rs[j] in r
    ensures Unique(rs) ==> Unique(r)
  {
    FilterFacts(rs, el);
    Filter(rs, el)
  }

  /** Whether registering `ts` for `el` adds types: a new record, or a longer union. */
  predicate Grows(rs: seq<Record>, el: Element, ts: seq<EventType>)
    ensures TypesOf(rs, el).None? ==> Grows(rs, el, ts)
    ensures TypesOf(rs, el).Some? && NoDups(TypesOf(rs, el).value) ==>
      (Grows(rs, el, ts) <==> exists t :: t in ts && t !in TypesOf(rs, el).value)
  {
    match Find(rs, el)
    case None => true
    case Some(i) =>
      UnionGrowthTest(rs[i].types, ts);
      |Union(rs[i].types, ts)| > |rs[i].types|
  }

  /** `addSubscriber`'s new list of records. */
  function Registered(rs: seq<Record>, el: Element, ts: seq<EventType>): (r: seq<Record>)
    ensures TypesOf(r, el).Some?
    ensures |r| == |rs| + (if TypesOf(rs, el).None? then 1 else 0)
    ensures forall j :: 0 <= j < |rs| && rs[j].target != el ==> rs[j] in r
  {
    match Find(rs, el)
    case None =>
      var r := [Record(el, ts)] + rs;
      assert forall j :: 0 <= j < |rs| ==> r[j + 1] == rs[j];
      r
    case Some(i) =>
      var r := if Grows(rs, el, ts) then rs[i := Record(el, Union(rs[i].types, ts))] else rs;
      assert r[i].target == el;
      assert forall j :: 0 <= j < |rs| && j != i ==> r[j] == rs[j];
      r
  }

  /** The types `addSubscriber` then polls the buffer for. */
  function Polled(rs: seq<Record>, el: Element, ts: seq<EventType>): (p: seq<EventType>)
    ensures Elems(p) <= Elems(ts)
    ensures TypesOf(rs, el).None? ==> p == ts
  {
    if Grows(rs, el, ts) then ts else []
  }

  /** Whether `removeSubcriber` takes the removal path for `el`. */
  predicate Removes(rs: seq<Record>, el: Element, ts: seq<EventType>)
    ensures Removes(rs, el, ts) ==> TypesOf(rs, el).Some?
    ensures TypesOf(rs, el).Some? ==>
      var before := TypesOf(rs, el).value;
      (Removes(rs, el, ts) <==> ts == [] || (before != [] && Elems(before) <= Elems(ts)))
  {
    match Find(rs, el)
    case None => false
    case Some(i) =>
      DifferenceEmpty(rs[i].types, ts);
      ts == [] || (|rs[i].types| > 0 && Difference(rs[i].types, ts) == [])
  }

  /** `_difference` leaves nothing exactly when every source type is a target. */
  lemma DifferenceEmpty(sources: seq<EventType>, targets: seq<EventType>)
    ensures Difference(sources, targets) == [] <==> Elems(sources) <= Elems(targets)
  {
    var d := Difference(sources, targets);
    if d != [] {
      assert d[0] in Elems(d);
    } else {
      forall t | t in Elems(sources) ensures t in Elems(targets) {
        assert t !in Elems(d);
      }
    }
  }

  /** `removeSubcriber`'s new list of records. */
  function Unregistered(rs: seq<Record>, el: Element, ts: seq<EventType>): (r: seq<Record>)
    ensures |r| <= |rs|
    ensures !Removes(rs, el, ts) ==> |r| == |rs|
    ensures Removes(rs, el, ts) ==> TypesOf(r, el).None?
  {
    match Find(rs, el)
    case None => rs
    case Some(i) =>
      if Removes(rs, el, ts) then Without(rs, el)
      else rs[i := Record(el, Difference(rs[i].types, ts))]
  }

  // ---------------------------------------------------------------------------
  // Registering

  /** Registering never creates a second record for a target. */
  lemma RegisterKeepsUnique(rs: seq<Record>, el: Element, ts: seq<EventType>)
    requires Unique(rs)
    ensures Unique(Registered(rs, el, ts))
  {
    if Find(rs, el).None? {
      var r := Registered(rs, el, ts);
      forall i, j | 0 <= i < j < |r| ensures r[i].target != r[j].target {
        if i > 0 {
          assert r[i] == rs[i - 1] && r[j] == rs[j - 1];
        }
      }
    }
  }

  /**
   * A target with no record gets exactly one record `{el, ts}` in front of the
   * earlier records, which stay as they were, and the buffer is polled for `ts`.
   */
  lemma RegisterNew(rs: seq<Record>, el: Element, ts: seq<EventType>)
    requires TypesOf(rs, el).None?
    ensures |Registered(rs, el, ts)| == |rs| + 1
    ensures Registered(rs, el, ts)[0] == Record(el, ts)
    ensures Registered(rs, el, ts)[1..] == rs
    ensures TypesOf(Registered(rs, el, ts), el) == Some(ts)
    ensures Polled(rs, el, ts) == ts
  {
  }

  /**
   * Re-registering a target keeps the number and order of records, leaves the
   * other records alone, and either replaces its types by the union with `ts`
   * (polling `ts`) or changes nothing and polls nothing.
   */
  lemma RegisterExisting(rs: seq<Record>, el: Element, ts: seq<EventType>)
    requires Unique(rs) && TypesOf(rs, el).Some?
    ensures var r := Registered(rs, el, ts);
      && |r| == |rs|
      && (forall j :: 0 <= j < |rs| && rs[j].target != el ==> r[j] == rs[j])
      && TypesOf(r, el).Some?
      && var before, after := TypesOf(rs, el).value, TypesOf(r, el).value;
      if |Union(before, ts)| > |before| then
        && Elems(after) == Elems(before) + Elems(ts)
        && NoDups(after)
        && Polled(rs, el, ts) == ts
      else
        r == rs && Polled(rs, el, ts) == []
  {
    var i := Find(rs, el).value;
    var r := Registered(rs, el, ts);
    assert r[i].target == el;
    assert Find(r, el) == Some(i);
  }

  /**
   * When the stored types of `el` have no duplicates (always the case after a
   * merge), registering makes `el` accept every type it passed.
   */
  lemma RegisterAccepts(rs: seq<Record>, el: Element, ts: seq<EventType>)
    requires Unique(rs)
    requires TypesOf(rs, el).Some? ==> NoDups(TypesOf(rs, el).value)
    ensures TypesOf(Registered(rs, el, ts), el).Some?
    ensures Elems(ts) <= Elems(TypesOf(Registered(rs, el, ts), el).value)
  {
    match Find(rs, el)
    case None =>
      RegisterNew(rs, el, ts);
    case Some(i) =>
      RegisterExisting(rs, el, ts);
      var before := rs[i].types;
      if |Union(before, ts)| <= |before| {
        UnionGrowthTest(before, ts);
        forall t | t in Elems(ts) ensures t in Elems(before) {
          assert t in ts;
        }
      }
  }

  /**
   * The growth test compares lengths, so a first registration that repeats a
   * type hides a type added later: `el` registered with `["a", "a"]` and then
   * with `["b"]` keeps `["a", "a"]` and does not accept "b".
   */
  lemma RepeatedTypeHidesNewType(el: Element)
    ensures var r := Registered(Registered([], el, ["a", "a"]), el, ["b"]);
      r == [Record(el, ["a", "a"])] && Polled([Record(el, ["a", "a"])], el, ["b"]) == []
  {
    var stored: seq<EventType> := ["a", "a"];
    assert Registered([], el, stored) == [Record(el, stored)];
    assert stored + ["b"] == ["a", "a", "b"];
    assert Dedup(["a"]) == ["a"] by {
      assert ["a"][..0] == [];
    }
    assert Dedup(["a", "a"]) == ["a"] by {
      assert ["a", "a"][..1] == ["a"];
    }
    assert Dedup(["a", "a", "b"]) == ["a", "b"] by {
      assert ["a", "a", "b"][..2] == ["a", "a"];
    }
    assert |Union(stored, ["b"])| == 2;
    assert Find([Record(el, stored)], el) == Some(0);
  }

  /**
   * Registering the same target with the same types a second time changes
   * nothing and polls nothing: the types list is a set under union.
   */
  lemma RegisterIdempotent(rs: seq<Record>, el: Element, ts: seq<EventType>)
    requires Unique(rs)
    ensures Registered(Registered(rs, el, ts), el, ts) == Registered(rs, el, ts)
    ensures Polled(Registered(rs, el, ts), el, ts) == []
  {
    var r := Registered(rs, el, ts);
    RegisterKeepsUnique(rs, el, ts);
    match Find(rs, el)
    case None =>
      assert Find(r, el) == Some(0);
      var u := Union(ts, ts);
      assert Elems(u) == Elems(ts);
      NoDupsCard(u);
      CardElemsBound(ts);
    case Some(i) =>
      assert r[i].target == el;
      assert forall j :: 0 <= j < i ==> r[j].target != el;
      assert Find(r, el) == Some(i);
      var before := rs[i].types;
      var u := Union(before, ts);
      if |u| > |before| {
        var u2 := Union(u, ts);
        assert Elems(u2) == Elems(u);
        NoDupsCard(u);
        NoDupsCard(u2);
      }
  }

  lemma {:induction false} CardElemsBound(s: seq<EventType>)
    ensures |Elems(s)| <= |s|
  {
    if s != [] {
      var init := s[..|s| - 1];
      assert s == init + [s[|s| - 1]];
      ElemsSnoc(init, s[|s| - 1]);
      CardElemsBound(init);
    }
  }

  // ---------------------------------------------------------------------------
  // Unregistering

  /** Unregistering never creates a second record for a target. */
  lemma UnregisterKeepsUnique(rs: seq<Record>, el: Element, ts: seq<EventType>)
    requires Unique(rs)
    ensures Unique(Unregistered(rs, el, ts))
  {
  }

  /** Replacing the record of `el` by another record of `el` leaves every other record in place. */
  lemma {:induction false} FilterUpdate(rs: seq<Record>, el: Element, i: nat, x: Record)
    requires i < |rs| && rs[i].target == el && x.target == el
    ensures Filter(rs[i := x], el) == Filter(rs, el)
  {
    var n := |rs| - 1;
    if i < n {
      assert rs[i := x][..n] == rs[..n][i := x];
      FilterUpdate(rs[..n], el, i, x);
    } else {
      assert rs[i := x][..n] == rs[..n];
    }
  }

  /** Filtering twice is filtering once. */
  lemma {:induction false} FilterTwice(rs: seq<Record>, el: Element)
    ensures Filter(Filter(rs, el), el) == Filter(rs, el)
  {
    if rs != [] {
      var n := |rs| - 1;
      FilterTwice(rs[..n], el);
      var w := Filter(rs[..n], el);
      if rs[n].target != el {
        var v := w + [rs[n]];
        assert v[..|w|] == w && v[|w|] == rs[n];
        assert Filter(v, el) == Filter(w, el) + [rs[n]];
      } else {
        assert Filter(rs, el) == w;
      }
    }
  }

  /**
   * Unregistering `el` touches no other record: the records of the other
   * targets are the same, in the same order.
   */
  lemma UnregisterOthersUntouched(rs: seq<Record>, el: Element, ts: seq<EventType>)
    ensures Without(Unregistered(rs, el, ts), el) == Without(rs, el)
  {
    match Find(rs, el)
    case None =>
    case Some(i) =>
      if Removes(rs, el, ts) {
        FilterTwice(rs, el);
      } else {
        FilterUpdate(rs, el, i, Record(el, Difference(rs[i].types, ts)));
      }
  }

  /**
   * What unregistering leaves of `el`'s record: nothing for an unknown target;
   * no record when `ts` is empty or when a non-empty type list would become
   * empty; otherwise the types of the record not in `ts`, so that a wildcard
   * stays a wildcard.
   */
  lemma UnregisterOutcome(rs: seq<Record>, el: Element, ts: seq<EventType>)
    requires Unique(rs)
    ensures TypesOf(rs, el).None? ==> Unregistered(rs, el, ts) == rs
    ensures TypesOf(rs, el).Some? ==>
      var before := TypesOf(rs, el).value;
      var after := TypesOf(Unregistered(rs, el, ts), el);
      if ts == [] || (before != [] && Elems(before) <= Elems(ts)) then
        after.None? && Removes(rs, el, ts)
      else
        && after.Some?
        && Elems(after.value) == Elems(before) - Elems(ts)
        && NoDups(after.value)
        && (before == [] ==> after.value == [])
        && !Removes(rs, el, ts)
  {
    match Find(rs, el)
    case None =>
    case Some(i) =>
      var r := Unregistered(rs, el, ts);
      if !Removes(rs, el, ts) {
        assert r[i].target == el;
        assert forall j :: 0 <= j < i ==> r[j].target != el;
        assert Find(r, el) == Some(i);
      }
  }

  /** Unregistering never adds a type to any record. */
  lemma UnregisterShrinks(rs: seq<Record>, el: Element, ts: seq<EventType>, j: nat, t: EventType)
    requires j < |Unregistered(rs, el, ts)| && t in Unregistered(rs, el, ts)[j].types
    ensures exists k :: 0 <= k < |rs| && t in rs[k].types
  {
    var r := Unregistered(rs, el, ts);
    match Find(rs, el)
    case None =>
    case Some(i) =>
      if Removes(rs, el, ts) {
        assert r[j] in rs;
      } else if j == i {
        assert t in Elems(Difference(rs[i].types, ts));
        assert t in Elems(rs[i].types);
      } else {
        assert t in rs[j].types;
      }
  }
}
