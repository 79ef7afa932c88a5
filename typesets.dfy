/**
 * The set operations a bus applies to a subscriber's list of event types.
 *
 * The source builds a dictionary whose keys are the types and returns its keys,
 * so a result lists each type once, in the order it was first inserted. Only
 * membership and the absence of duplicates are promised; the order chosen here
 * is first-insertion order.
 */
module TypeSets {
  import opened Collections

  /** The `type` of an event, and an entry of a subscriber's type list. */
  type EventType = string

  /** The keys of a dictionary filled with the entries of `s`, in order. */
  function Dedup(s: seq<EventType>): (r: seq<EventType>)
    ensures Elems(r) == Elems(s)
    ensures NoDups(r)
    ensures |r| <= |s|
  {
    if s == [] then []
    else
      var last := s[|s| - 1];
      var init := Dedup(s[..|s| - 1]);
      assert s == s[..|s| - 1] + [last];
      ElemsSnoc(s[..|s| - 1], last);
      if last in init then init
      else
        ElemsSnoc(init, last);
        init + [last]
  }

  /** The entries of `s` that do not occur in `drop`, in order. */
  function Remove(s: seq<EventType>, drop: seq<EventType>): (r: seq<EventType>)
    ensures Elems(r) == Elems(s) - Elems(drop)
    ensures NoDups(s) ==> NoDups(r)
  {
    if s == [] then []
    else
      var last := s[|s| - 1];
      var init := Remove(s[..|s| - 1], drop);
      assert s == s[..|s| - 1] + [last];
      ElemsSnoc(s[..|s| - 1], last);
      if last in drop then init
      else
        ElemsSnoc(init, last);
        init + [last]
  }

  /** `_union`: every type of `sources` or `targets`, each once. */
  function Union(sources: seq<EventType>, targets: seq<EventType>): (r: seq<EventType>)
    ensures Elems(r) == Elems(sources) + Elems(targets)
    ensures NoDups(r)
  {
    assert Elems(sources + targets) == Elems(sources) + Elems(targets) by {
      assert forall x :: x in sources + targets <==> x in sources || x in targets;
    }
    Dedup(sources + targets)
  }

  /** `_difference`: every type of `sources` that is not in `targets`, each once. */
  function Difference(sources: seq<EventType>, targets: seq<EventType>): (r: seq<EventType>)
    ensures Elems(r) == Elems(sources) - Elems(targets)
    ensures NoDups(r)
  {
    Remove(Dedup(sources), targets)
  }

  /**
   * The growth test of a re-registration, `union.length > types.length`, is
   * exact when the stored list has no duplicates: the union is longer if and
   * only if some added type is new.
   */
  lemma UnionGrowthTest(stored: seq<EventType>, added: seq<EventType>)
    ensures NoDups(stored) ==> (|Union(stored, added)| > |stored| <==> exists t :: t in added && t !in stored)
  {
    if !NoDups(stored) {
      return;
    }
    var u := Union(stored, added);
    NoDupsCard(stored);
    NoDupsCard(u);
    var extra := Elems(u) - Elems(stored);
    assert Elems(u) == Elems(stored) + extra;
    assert |Elems(u)| == |Elems(stored)| + |extra|;
    if exists t :: t in added && t !in stored {
      var t :| t in added && t !in stored;
      assert t in extra;
    } else {
      assert extra == {};
    }
  }
}
