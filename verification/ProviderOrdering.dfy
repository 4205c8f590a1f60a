/** Putting an embedding provider's items back into the order of the request. */
module ProviderOrdering {
  import opened Wrappers
  import Ordering

  /** An item's `index` attribute: absent or null, an integer, or anything else (booleans included). */
  datatype Index = Missing | Number(value: int) | Malformed

  /** An element of a vector: a finite float, or anything the vector constructor refuses. */
  datatype Element = Float(value: real) | NotFloat

  /** An item's `embedding` attribute. */
  datatype Embedding = Absent | NotIterable | Elements(elements: seq<Element>)

  datatype Item = Item(index: Index, embedding: Embedding)

  // ---------- ordering the items ----------

  type Pair = (int, Item)

  /** The index an item counts under: its own, or its position when it has none. */
  function Effective(position: nat, item: Item): int
    requires !item.index.Malformed?
  {
    if item.index.Missing? then position else item.index.value
  }

  function Indexed(items: seq<Item>): Result<seq<Pair>, AppError> {
    if items == [] then Ok([])
    else
      var last := |items| - 1;
      var earlier :- Indexed(items[..last]);
      if items[last].index.Malformed? then Err(DependencyUnavailable)
      else Ok(earlier + [(Effective(last, items[last]), items[last])])
  }

  function Keys(pairs: seq<Pair>): set<int> {
    set pair | pair in pairs :: pair.0
  }

  function Range(n: nat): (r: set<int>)
    ensures forall i :: i in r <==> 0 <= i < n
    ensures |r| == n
  {
    if n == 0 then {} else Range(n - 1) + {n - 1}
  }

  predicate PairLe(a: Pair, b: Pair) {
    a.0 <= b.0
  }

  function ItemOf(pair: Pair): Item {
    pair.1
  }

  function OrderedItems(items: seq<Item>, expected: nat): Result<seq<Item>, AppError> {
    if |items| != expected then Err(DependencyUnavailable)
    else
      var indexed :- Indexed(items);
      if Keys(indexed) != Range(expected) then Err(DependencyUnavailable)
      else Ok(Map(ItemOf, Ordering.Sort(PairLe, indexed)))
  }

  lemma {:induction false} IndexedStops(items: seq<Item>, i: nat)
    requires i < |items| && items[i].index.Malformed?
    ensures Indexed(items) == Err(DependencyUnavailable)
  {
    var last := |items| - 1;
    if i < last {
      assert items[..last][i] == items[i];
      IndexedStops(items[..last], i);
    } else {
      IndexedFails(items[..last]);
    }
  }

  lemma {:induction false} IndexedFails(items: seq<Item>)
    ensures Indexed(items).Err? ==> Indexed(items) == Err(DependencyUnavailable)
  {
    if items != [] {
      IndexedFails(items[..|items| - 1]);
    }
  }

  method OrderProviderItems(items: seq<Item>, expected: nat) returns (r: Result<seq<Item>, AppError>)
    ensures r == OrderedItems(items, expected)
  {
    if |items| != expected {
      return Err(DependencyUnavailable);
    }
    var indexed: seq<Pair> := [];
    for position := 0 to |items|
      invariant Indexed(items[..position]) == Ok(indexed)
    {
      var item := items[position];
      assert items[..position + 1][..position] == items[..position];
      match item.index {
        case Missing => indexed := indexed + [(position, item)];
        case Number(value) => indexed := indexed + [(value, item)];
        case Malformed =>
          IndexedStops(items, position);
          return Err(DependencyUnavailable);
      }
    }
    assert items[..|items|] == items;
    if Keys(indexed) != Range(expected) {
      return Err(DependencyUnavailable);
    }
    r := Ok(Map(ItemOf, Ordering.Sort(PairLe, indexed)));
  }

  // ---------- the pigeonhole argument ----------

  ghost predicate DistinctKeys(pairs: seq<Pair>) {
    forall i, j :: 0 <= i < j < |pairs| ==> pairs[i].0 != pairs[j].0
  }

  lemma KeysAppend(front: seq<Pair>, last: Pair)
    ensures Keys(front + [last]) == Keys(front) + {last.0}
    ensures DistinctKeys(front + [last]) <==> DistinctKeys(front) && last.0 !in Keys(front)
  {
    var all := front + [last];
    assert Keys(all) == Keys(front) + {last.0} by {
      assert forall pair :: pair in all <==> pair in front || pair == last;
    }
    assert last.0 in Keys(front) <==> exists i :: 0 <= i < |front| && front[i].0 == last.0;
    assert forall i :: 0 <= i < |front| ==> all[i] == front[i];
    assert all[|front|] == last;
  }

  /** A sequence has as many distinct keys as elements exactly when no two elements share one. */
  lemma {:induction false} KeysSize(pairs: seq<Pair>)
    ensures |Keys(pairs)| <= |pairs|
    ensures |Keys(pairs)| == |pairs| <==> DistinctKeys(pairs)
  {
    if pairs != [] {
      var front, last := pairs[..|pairs| - 1], pairs[|pairs| - 1];
      KeysSize(front);
      KeysAppend(front, last);
      assert pairs == front + [last];
      hide Keys, DistinctKeys;
    }
  }

  /** `n` pairs in strictly increasing key order within `0..n` have key `i` at position `i`. */
  lemma {:induction false} IncreasingIsIdentity(pairs: seq<Pair>, n: nat)
    requires |pairs| == n && forall i, j :: 0 <= i < j < n ==> pairs[i].0 < pairs[j].0
    requires forall i :: 0 <= i < n ==> 0 <= pairs[i].0 < n
    ensures forall i :: 0 <= i < n ==> pairs[i].0 == i
  {
    if n > 0 {
      AtLeastPosition(pairs, n - 1);
      IncreasingIsIdentity(pairs[..n - 1], n - 1);
    }
  }

  lemma {:induction false} AtLeastPosition(pairs: seq<Pair>, k: nat)
    requires k < |pairs| && forall i, j :: 0 <= i < j < |pairs| ==> pairs[i].0 < pairs[j].0
    requires forall i :: 0 <= i < |pairs| ==> 0 <= pairs[i].0
    ensures pairs[k].0 >= k
  {
    if k > 0 {
      AtLeastPosition(pairs, k - 1);
    }
  }

  lemma {:induction false} IndexedMeaning(items: seq<Item>)
    ensures Indexed(items).Ok? <==> forall i :: 0 <= i < |items| ==> !items[i].index.Malformed?
    ensures Indexed(items).Ok? ==> |Indexed(items).value| == |items|
    ensures Indexed(items).Ok? ==> forall i :: 0 <= i < |items| ==>
              Indexed(items).value[i] == (Effective(i, items[i]), items[i])
    ensures Indexed(items).Err? ==> Indexed(items) == Err(DependencyUnavailable)
  {
    if items != [] {
      var front, last := items[..|items| - 1], items[|items| - 1];
      IndexedMeaning(front);
      assert items == front + [last];
    }
  }

  /** The item counting under index `i` sits at `position`. */
  predicate CountsAs(items: seq<Item>, position: nat, i: int) {
    position < |items| && (items[position].index == Number(i) || (items[position].index == Missing && position == i))
  }

  ghost predicate HasIndexBelow(items: seq<Item>, position: nat, n: nat) {
    exists i :: 0 <= i < n && CountsAs(items, position, i)
  }

  lemma EffectiveCounts(items: seq<Item>, position: nat)
    requires position < |items|
    ensures forall i :: CountsAs(items, position, i) <==>
              !items[position].index.Malformed? && Effective(position, items[position]) == i
  {
  }

  /** The permutation, in terms of the indexes that the loop computes. */
  lemma PermutesByEffective(items: seq<Item>, n: nat)
    requires |items| == n
    ensures Permutes(items, n) <==>
            && (forall p :: 0 <= p < n ==> !items[p].index.Malformed? && 0 <= Effective(p, items[p]) < n)
            && (forall p, q :: 0 <= p < q < n ==> Effective(p, items[p]) != Effective(q, items[q]))
  {
    forall p | 0 <= p < n
      ensures forall i :: CountsAs(items, p, i) <==> !items[p].index.Malformed? && Effective(p, items[p]) == i
    {
      EffectiveCounts(items, p);
    }
    hide CountsAs, Effective;
    forall p | 0 <= p < n
      ensures HasIndexBelow(items, p, n) <==> !items[p].index.Malformed? && 0 <= Effective(p, items[p]) < n
    {
      if !items[p].index.Malformed? {
        assert CountsAs(items, p, Effective(p, items[p]));
      }
    }
    if Permutes(items, n) {
      forall p, q | 0 <= p < q < n ensures Effective(p, items[p]) != Effective(q, items[q]) {
        assert HasIndexBelow(items, p, n) && HasIndexBelow(items, q, n);
        assert CountsAs(items, p, Effective(p, items[p])) && !CountsAs(items, q, Effective(p, items[p]));
      }
    }
  }

  /** The effective indexes are a permutation of 0..n-1: every item has one in range and no two share it. */
  ghost predicate Permutes(items: seq<Item>, n: nat) {
    && |items| == n
    && (forall p :: 0 <= p < n ==> HasIndexBelow(items, p, n))
    && (forall p, q, i :: 0 <= p < q < n && CountsAs(items, p, i) ==> !CountsAs(items, q, i))
  }

  lemma SubsetOfSameSize(a: set<int>, b: set<int>)
    requires a <= b && |a| == |b|
    ensures a == b
  {
    assert |b - a| == |b| - |a|;
  }

  lemma KeysMembers(pairs: seq<Pair>)
    ensures forall i :: 0 <= i < |pairs| ==> pairs[i].0 in Keys(pairs)
    ensures forall k :: k in Keys(pairs) ==> exists i :: 0 <= i < |pairs| && pairs[i].0 == k
  {
    forall i | 0 <= i < |pairs| ensures pairs[i].0 in Keys(pairs) {
      assert pairs[i] in pairs;
    }
  }

  /** The keys of `pairs` are 0..n-1, each once. */
  ghost predicate Enumerates(pairs: seq<Pair>, n: nat) {
    && (forall i :: 0 <= i < |pairs| ==> 0 <= pairs[i].0 < n)
    && (forall i, j :: 0 <= i < j < |pairs| ==> pairs[i].0 != pairs[j].0)
  }

  /** The pigeonhole: `n` pairs whose keys cover 0..n-1 have each key once, and the other way round. */
  lemma CoverIsEnumeration(pairs: seq<Pair>, n: nat)
    requires |pairs| == n
    ensures Keys(pairs) == Range(n) <==> Enumerates(pairs, n)
  {
    KeysSize(pairs);
    KeysMembers(pairs);
    if Enumerates(pairs, n) {
      SubsetOfSameSize(Keys(pairs), Range(n));
    }
  }

  lemma IndexedEnumerates(items: seq<Item>, n: nat)
    requires |items| == n && Indexed(items).Ok?
    ensures Enumerates(Indexed(items).value, n) <==> Permutes(items, n)
  {
    PermutesByEffective(items, n);
    IndexedMeaning(items);
  }

  /** Comparing the set of indexes with 0..n-1 is enough: n items covering it are a permutation of it. */
  lemma GuardIsPermutation(items: seq<Item>, n: nat)
    requires |items| == n && Indexed(items).Ok?
    ensures Keys(Indexed(items).value) == Range(n) <==> Permutes(items, n)
  {
    IndexedMeaning(items);
    CoverIsEnumeration(Indexed(items).value, n);
    IndexedEnumerates(items, n);
  }

  lemma SameKeys(pairs: seq<Pair>, sorted: seq<Pair>)
    requires multiset(sorted) == multiset(pairs)
    ensures |sorted| == |pairs| && Keys(sorted) == Keys(pairs)
    ensures forall pair :: pair in sorted ==> pair in pairs
  {
    SameSize(sorted, pairs);
    forall pair ensures pair in sorted <==> pair in pairs {
      assert pair in sorted <==> pair in multiset(sorted);
      assert pair in pairs <==> pair in multiset(pairs);
    }
  }

  lemma SortedPairs(pairs: seq<Pair>, sorted: seq<Pair>, n: nat)
    requires |pairs| == n && Keys(pairs) == Range(n)
    requires multiset(sorted) == multiset(pairs)
    requires forall i, j :: 0 <= i < j < |sorted| ==> sorted[i].0 <= sorted[j].0
    ensures |sorted| == n
    ensures forall i :: 0 <= i < n ==> sorted[i].0 == i && sorted[i] in pairs
  {
    SameKeys(pairs, sorted);
    hide Keys, Range;
    KeysSize(sorted);
    KeysMembers(sorted);
    IncreasingIsIdentity(sorted, n);
  }

  /** `item` is the one counting under index `i`. */
  ghost predicate HoldsIndex(items: seq<Item>, i: int, item: Item) {
    exists p: nat :: CountsAs(items, p, i) && items[p] == item
  }

  lemma PairOrder()
    ensures Ordering.TotalOrder(PairLe)
  {
  }

  lemma SortedItems(items: seq<Item>, n: nat, i: nat)
    requires Ordering.TotalOrder(PairLe)
    requires i < |items| == n && Indexed(items).Ok? && Keys(Indexed(items).value) == Range(n)
    ensures |Ordering.Sort(PairLe, Indexed(items).value)| == n
    ensures HoldsIndex(items, i, Ordering.Sort(PairLe, Indexed(items).value)[i].1)
  {
    var pairs := Indexed(items).value;
    IndexedMeaning(items);
    var sorted := Ordering.Sort(PairLe, pairs);
    assert forall i, j :: 0 <= i < j < |sorted| ==> PairLe(sorted[i], sorted[j]);
    SortedPairs(pairs, sorted, n);
    var p: nat :| p < n && pairs[p] == sorted[i];
    assert CountsAs(items, p, i);
  }

  /** Items are accepted exactly when their indexes permute 0..n-1. */
  lemma AcceptedItems(items: seq<Item>, n: nat)
    ensures if Permutes(items, n) then OrderedItems(items, n).Ok? && |OrderedItems(items, n).value| == n
            else OrderedItems(items, n) == Err(DependencyUnavailable)
  {
    PairOrder();
    IndexedMeaning(items);
    if |items| == n {
      PermutesByEffective(items, n);
    }
    if |items| == n && Indexed(items).Ok? {
      GuardIsPermutation(items, n);
      var pairs := Indexed(items).value;
      if Permutes(items, n) {
        SortedPairs(pairs, Ordering.Sort(PairLe, pairs), n);
      }
    }
  }

  /** Position `i` of an accepted answer holds the item with index `i`. */
  lemma OrderedByIndex(items: seq<Item>, n: nat)
    requires Permutes(items, n)
    ensures OrderedItems(items, n).Ok? && |OrderedItems(items, n).value| == n
    ensures forall i :: 0 <= i < n ==> HoldsIndex(items, i, OrderedItems(items, n).value[i])
  {
    PermutesByEffective(items, n);
    AcceptedItems(items, n);
    IndexedMeaning(items);
    GuardIsPermutation(items, n);
    PairOrder();
    hide Indexed, Permutes, HoldsIndex, Keys, Range;
    forall i | 0 <= i < n ensures HoldsIndex(items, i, OrderedItems(items, n).value[i]) {
      SortedItems(items, n, i);
    }
  }
}
