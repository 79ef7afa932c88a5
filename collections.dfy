/** Small sequence helpers shared by the registry, the dispatcher and the directory. */
module Collections {

  datatype Option<+T> = None | Some(value: T)

  /** The distinct elements listed in `s`. */
  function Elems<T>(s: seq<T>): set<T>
  {
    set x | x in s
  }

  /** No element occurs twice in `s`. */
  predicate NoDups<T(==)>(s: seq<T>)
  {
    forall i, j :: 0 <= i < j < |s| ==> s[i] != s[j]
  }

  lemma ElemsSnoc<T>(s: seq<T>, x: T)
    ensures Elems(s + [x]) == Elems(s) + {x}
  {
    assert forall y :: y in s + [x] <==> y in s || y == x;
  }

  lemma ConcatAssoc<T>(a: seq<T>, b: seq<T>, c: seq<T>)
    ensures a + (b + c) == (a + b) + c
  {
  }

  /** The elements of a longer prefix. */
  lemma ElemsTake<T>(s: seq<T>, k: nat)
    requires k < |s|
    ensures Elems(s[..k + 1]) == Elems(s[..k]) + {s[k]}
  {
    assert s[..k + 1] == s[..k] + [s[k]];
    ElemsSnoc(s[..k], s[k]);
  }

  /** Removing the keys of a prefix, then the next one, removes the keys of the longer prefix. */
  lemma MinusTake<K, V>(m: map<K, V>, s: seq<K>, k: nat)
    requires k < |s|
    ensures (m - Elems(s[..k])) - {s[k]} == m - Elems(s[..k + 1])
  {
    ElemsTake(s, k);
  }

  /** Taking a key out of a map forgets what it was last bound to. */
  lemma MinusUpdate<K, V>(m: map<K, V>, k: K, v: V)
    ensures m[k := v] - {k} == m - {k}
  {
    assert (m[k := v] - {k}).Keys == (m - {k}).Keys;
  }

  /** A duplicate-free sequence has as many distinct elements as entries. */
  lemma {:induction false} NoDupsCard<T>(s: seq<T>)
    requires NoDups(s)
    ensures |Elems(s)| == |s|
  {
    if s != [] {
      var init := s[..|s| - 1];
      assert s == init + [s[|s| - 1]];
      NoDupsCard(init);
      ElemsSnoc(init, s[|s| - 1]);
      assert s[|s| - 1] !in Elems(init);
    }
  }

  /**
   * `r` is `s` without `x`: the other elements, in their order (for a
   * duplicate-free `s`, the entry of `x` cut out), and `s` itself when `x` is
   * absent.
   */
  ghost predicate Erased<T>(s: seq<T>, x: T, r: seq<T>)
  {
    && Elems(r) == Elems(s) - {x}
    && (NoDups(s) ==> NoDups(r))
    && (x !in s ==> r == s)
    && (NoDups(s) ==> forall i :: 0 <= i < |s| && s[i] == x ==> r == s[..i] + s[i + 1..])
  }

  /** Taking `x` out of a duplicate-free list that ends in `x` drops that last entry. */
  lemma EraseLastStep<T>(s: seq<T>, x: T, init: seq<T>)
    requires s != [] && s[|s| - 1] == x && Erased(s[..|s| - 1], x, init)
    ensures Erased(s, x, init)
  {
    var n := |s| - 1;
    assert s == s[..n] + [x];
    ElemsSnoc(s[..n], x);
    if NoDups(s) {
      assert x !in s[..n];
      forall i | 0 <= i < |s| && s[i] == x ensures init == s[..i] + s[i + 1..] {
        assert i == n;
      }
    }
  }

  /** Cutting entry `i` out of a list, then appending, is cutting it out of the longer list. */
  lemma CutSnoc<T>(p: seq<T>, last: T, i: nat)
    requires i < |p|
    ensures (p[..i] + p[i + 1..]) + [last] == (p + [last])[..i] + (p + [last])[i + 1..]
  {
    assert (p + [last])[..i] == p[..i];
    assert (p + [last])[i + 1..] == p[i + 1..] + [last];
  }

  /** Taking `x` out of a list that ends in another element keeps that last entry. */
  lemma EraseKeepStep<T>(s: seq<T>, x: T, init: seq<T>)
    requires s != [] && s[|s| - 1] != x && Erased(s[..|s| - 1], x, init)
    ensures Erased(s, x, init + [s[|s| - 1]])
  {
    var n := |s| - 1;
    var p, last := s[..n], s[n];
    assert s == p + [last];
    ElemsSnoc(p, last);
    ElemsSnoc(init, last);
    if NoDups(s) {
      assert NoDups(p);
      assert last !in p;
      forall i | 0 <= i < |s| && s[i] == x ensures init + [last] == s[..i] + s[i + 1..] {
        assert i < n && p[i] == x;
        CutSnoc(p, last, i);
      }
    }
  }

  /** `s` with every occurrence of `x` taken out, the rest in order. */
  function Erase<T(==)>(s: seq<T>, x: T): (r: seq<T>)
    ensures Erased(s, x, r)
  {
    if s == [] then []
    else
      var n := |s| - 1;
      var init := Erase(s[..n], x);
      if s[n] == x then
        EraseLastStep(s, x, init);
        init
      else
        EraseKeepStep(s, x, init);
        init + [s[n]]
  }
}
