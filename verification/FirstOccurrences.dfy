/** What is left of a list when, of the items with equal keys, only the first is kept. */
module FirstOccurrences {

  /** Nothing before position `i` has its key. */
  predicate FirstAt<T, K(==)>(items: seq<T>, key: T -> K, i: nat)
    requires i < |items|
  {
    forall j :: 0 <= j < i ==> key(items[j]) != key(items[i])
  }

  /** The items that are the first of their key. */
  function Firsts<T, K(==)>(items: seq<T>, key: T -> K): seq<T> {
    if items == [] then [] else
    var n := |items| - 1;
    Firsts(items[..n], key) + if FirstAt(items, key, n) then [items[n]] else []
  }

  function Keys<T, K>(items: seq<T>, key: T -> K): set<K> {
    set i | 0 <= i < |items| :: key(items[i])
  }

  predicate DistinctKeys<T, K(==)>(items: seq<T>, key: T -> K) {
    forall i, j :: 0 <= i < j < |items| ==> key(items[i]) != key(items[j])
  }

  lemma KeysGrow<T, K>(items: seq<T>, key: T -> K, c: T)
    ensures Keys(items + [c], key) == Keys(items, key) + {key(c)}
  {
    forall k | k in Keys(items, key) + {key(c)} ensures k in Keys(items + [c], key) {
      if k in Keys(items, key) {
        var i :| 0 <= i < |items| && key(items[i]) == k;
        assert (items + [c])[i] == items[i];
      } else {
        assert (items + [c])[|items|] == c;
      }
    }
  }

  lemma SeenBefore<T, K>(items: seq<T>, key: T -> K, c: T)
    ensures FirstAt(items + [c], key, |items|) <==> key(c) !in Keys(items, key)
  {
    assert forall j :: 0 <= j < |items| ==> (items + [c])[j] == items[j];
  }

  lemma FirstsGrow<T, K>(items: seq<T>, key: T -> K, c: T)
    ensures Firsts(items + [c], key) == Firsts(items, key) + if key(c) in Keys(items, key) then [] else [c]
  {
    SeenBefore(items, key, c);
    assert (items + [c])[..|items|] == items;
  }

  /** Where the first items of each key stand, in order. */
  function FirstPositions<T, K(==)>(items: seq<T>, key: T -> K): (p: seq<nat>)
    ensures |p| == |Firsts(items, key)| && forall k :: 0 <= k < |p| ==> p[k] < |items|
  {
    if items == [] then [] else
    var n := |items| - 1;
    FirstPositions(items[..n], key) + if FirstAt(items, key, n) then [n] else []
  }

  /** `p` lists, in order, exactly the positions that are the first of their key, and `firsts` what
      stands there. */
  predicate StandsAt<T(==), K(==)>(items: seq<T>, key: T -> K, p: seq<nat>, firsts: seq<T>) {
    && |p| == |firsts|
    && (forall k :: 0 <= k < |p| ==> p[k] < |items| && FirstAt(items, key, p[k]) && firsts[k] == items[p[k]])
    && (forall k, l :: 0 <= k < l < |p| ==> p[k] < p[l])
    && (forall i :: 0 <= i < |items| && FirstAt(items, key, i) ==> i in p)
  }

  lemma FirstAtBefore<T, K>(before: seq<T>, key: T -> K, c: T, i: nat)
    requires i < |before|
    ensures FirstAt(before + [c], key, i) <==> FirstAt(before, key, i)
  {
    assert forall j :: 0 <= j <= i ==> (before + [c])[j] == before[j];
  }

  lemma {:induction false} OneMoreStandsAt<T, K>(before: seq<T>, key: T -> K, c: T, p: seq<nat>, firsts: seq<T>)
    requires StandsAt(before, key, p, firsts)
    ensures var items, n := before + [c], |before|;
            var first := FirstAt(items, key, n);
            StandsAt(items, key, p + if first then [n] else [], firsts + if first then [c] else [])
  {
    var items, n := before + [c], |before|;
    forall i | 0 <= i < n ensures FirstAt(items, key, i) <==> FirstAt(before, key, i) {
      FirstAtBefore(before, key, c, i);
    }
    hide FirstAt;
  }

  /** Merging keeps, in their order, exactly the items whose key nothing before them has. */
  lemma {:induction false} FirstsAreAtPositions<T, K>(items: seq<T>, key: T -> K)
    ensures StandsAt(items, key, FirstPositions(items, key), Firsts(items, key))
    decreases |items|
  {
    if items != [] {
      var n := |items| - 1;
      FirstsAreAtPositions(items[..n], key);
      OneMoreStandsAt(items[..n], key, items[n], FirstPositions(items[..n], key), Firsts(items[..n], key));
      assert items == items[..n] + [items[n]];
      hide StandsAt, FirstAt;
    }
  }

  /** Each key is there once: merging leaves as many items as there are different keys. */
  lemma {:induction false} FirstsHoldEachKey<T, K>(items: seq<T>, key: T -> K)
    ensures DistinctKeys(Firsts(items, key), key)
    ensures Keys(Firsts(items, key), key) == Keys(items, key) && |Firsts(items, key)| == |Keys(items, key)|
    decreases |items|
  {
    if items != [] {
      var before, c := items[..|items| - 1], items[|items| - 1];
      FirstsHoldEachKey(before, key);
      assert items == before + [c];
      KeysGrow(before, key, c);
      FirstsGrow(before, key, c);
      KeysGrow(Firsts(before, key), key, c);
      if key(c) in Keys(before, key) {
        assert Keys(before, key) + {key(c)} == Keys(before, key);
        assert Firsts(items, key) == Firsts(before, key);
      }
    }
  }
}
