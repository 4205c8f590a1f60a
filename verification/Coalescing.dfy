/** Folding a batch into one element per key, refused when two elements disagree on a key. */
module Coalescing {
  import opened Wrappers

  /** No key comes with two different elements. */
  predicate Consistent<T(==, !new), K(==)>(key: T -> K, s: seq<T>) {
    forall a, b :: a in s && b in s && key(a) == key(b) ==> a == b
  }

  predicate Mentions<T(==, !new), K(==)>(key: T -> K, s: seq<T>, k: K) {
    exists x :: x in s && key(x) == k
  }

  ghost predicate DistinctKeys<T, K>(key: T -> K, s: seq<T>) {
    forall i, j :: 0 <= i < j < |s| ==> key(s[i]) != key(s[j])
  }

  /** The first element of each key, in order. */
  function FirstOccurrences<T(==, !new), K(==)>(key: T -> K, s: seq<T>): seq<T> {
    if s == [] then []
    else
      var front, last := s[..|s| - 1], s[|s| - 1];
      FirstOccurrences(key, front) + if Mentions(key, front, key(last)) then [] else [last]
  }

  function Coalesce<T(==, !new), K(==)>(key: T -> K, s: seq<T>): Result<seq<T>, AppError> {
    if Consistent(key, s) then Ok(FirstOccurrences(key, s)) else Err(Conflict)
  }

  lemma {:induction false} FirstOccurrencesFrom<T(!new), K>(key: T -> K, s: seq<T>)
    ensures forall x :: x in FirstOccurrences(key, s) ==> x in s
    ensures forall x :: x in s ==> Mentions(key, FirstOccurrences(key, s), key(x))
    ensures DistinctKeys(key, FirstOccurrences(key, s))
  {
    if s != [] {
      var front, last := s[..|s| - 1], s[|s| - 1];
      FirstOccurrencesFrom(key, front);
      assert s == front + [last];
      var kept := FirstOccurrences(key, s);
      forall x | x in s ensures Mentions(key, kept, key(x)) {
        if Mentions(key, front, key(x)) {
          var y :| y in front && key(y) == key(x);
          var z :| z in FirstOccurrences(key, front) && key(z) == key(y);
          assert z in kept;
        } else {
          assert x == last || x in front;
          assert last in kept;
        }
      }
    }
  }

  /** Coalescing a consistent batch loses nothing, invents nothing, and leaves each key once. */
  lemma CoalesceMeaning<T(!new), K>(key: T -> K, s: seq<T>)
    requires Consistent(key, s)
    ensures forall x :: x in FirstOccurrences(key, s) <==> x in s
    ensures DistinctKeys(key, FirstOccurrences(key, s))
  {
    FirstOccurrencesFrom(key, s);
    forall x | x in s ensures x in FirstOccurrences(key, s) {
      var y :| y in FirstOccurrences(key, s) && key(y) == key(x);
    }
  }

  /** `i` is the first position of its key. */
  ghost predicate IsFirst<T, K>(key: T -> K, s: seq<T>, i: nat) {
    i < |s| && forall j :: 0 <= j < i ==> key(s[j]) != key(s[i])
  }

  /** `kept` are the elements at `firsts`, which are, in order, exactly the first positions of the keys. */
  ghost predicate KeepsFirsts<T, K>(key: T -> K, s: seq<T>, firsts: seq<nat>, kept: seq<T>) {
    && |kept| == |firsts|
    && (forall i, j :: 0 <= i < j < |firsts| ==> firsts[i] < firsts[j])
    && (forall k :: 0 <= k < |firsts| ==> IsFirst(key, s, firsts[k]) && kept[k] == s[firsts[k]])
    && (forall i :: IsFirst(key, s, i) ==> i in firsts)
  }

  lemma {:induction false} FirstsOf<T, K>(key: T -> K, front: seq<T>, last: T)
    ensures forall i :: 0 <= i < |front| ==> (IsFirst(key, front + [last], i) <==> IsFirst(key, front, i))
    ensures IsFirst(key, front + [last], |front|) <==> forall j :: 0 <= j < |front| ==> key(front[j]) != key(last)
  {
    var s := front + [last];
    assert s[|front|] == last && forall j :: 0 <= j < |front| ==> s[j] == front[j];
  }

  lemma {:induction false} KeepMore<T, K>(key: T -> K, front: seq<T>, last: T, firsts: seq<nat>, kept: seq<T>)
    requires KeepsFirsts(key, front, firsts, kept) && IsFirst(key, front + [last], |front|)
    ensures KeepsFirsts(key, front + [last], firsts + [|front|], kept + [last])
  {
    FirstsOf(key, front, last);
    assert forall k :: 0 <= k < |firsts| ==> IsFirst(key, front, firsts[k]) && firsts[k] < |front|;
    hide IsFirst;
    forall i | IsFirst(key, front + [last], i) ensures i in firsts + [|front|] {
      FirstIsWithin(key, front + [last], i);
    }
  }

  lemma {:induction false} FirstIsWithin<T, K>(key: T -> K, s: seq<T>, i: nat)
    requires IsFirst(key, s, i)
    ensures i < |s|
  {
  }

  lemma {:induction false} KeepSame<T, K>(key: T -> K, front: seq<T>, last: T, firsts: seq<nat>, kept: seq<T>)
    requires KeepsFirsts(key, front, firsts, kept) && !IsFirst(key, front + [last], |front|)
    ensures KeepsFirsts(key, front + [last], firsts, kept)
  {
    FirstsOf(key, front, last);
    assert forall k :: 0 <= k < |firsts| ==> IsFirst(key, front, firsts[k]) && firsts[k] < |front|;
    hide IsFirst;
    forall i | IsFirst(key, front + [last], i) ensures i in firsts {
      FirstIsWithin(key, front + [last], i);
    }
  }

  /** Coalescing keeps the element at the first position of each key, in source order. */
  lemma {:induction false} FirstOccurrencesMeaning<T(!new), K>(key: T -> K, s: seq<T>) returns (firsts: seq<nat>)
    ensures KeepsFirsts(key, s, firsts, FirstOccurrences(key, s))
  {
    firsts := [];
    if s != [] {
      var front, last := s[..|s| - 1], s[|s| - 1];
      firsts := FirstOccurrencesMeaning(key, front);
      FirstsOf(key, front, last);
      assert Mentions(key, front, key(last)) <==> exists j :: 0 <= j < |front| && key(front[j]) == key(last);
      hide KeepsFirsts, IsFirst, Mentions;
      assert s == front + [last];
      if Mentions(key, front, key(last)) {
        KeepSame(key, front, last, firsts, FirstOccurrences(key, front));
        assert FirstOccurrences(key, s) == FirstOccurrences(key, front);
      } else {
        KeepMore(key, front, last, firsts, FirstOccurrences(key, front));
        firsts := firsts + [|front|];
      }
    }
  }

  /** A batch whose keys are distinct is left exactly as it is. */
  lemma {:induction false} CoalesceIdentity<T(!new), K>(key: T -> K, s: seq<T>)
    requires DistinctKeys(key, s)
    ensures Coalesce(key, s) == Ok(s)
  {
    if s != [] {
      var front, last := s[..|s| - 1], s[|s| - 1];
      CoalesceIdentity(key, front);
      assert s == front + [last];
      assert !Mentions(key, front, key(last));
    }
  }

  /** The dictionary of the loop: the element seen for each key so far. */
  ghost predicate Dictionary<T(!new), K(!new)>(key: T -> K, seen: map<K, T>, s: seq<T>) {
    && (forall x :: x in s ==> key(x) in seen && seen[key(x)] == x)
    && (forall k :: k in seen ==> seen[k] in s && key(seen[k]) == k)
  }

  method CoalesceByKey<T(==, !new), K(==, !new)>(key: T -> K, s: seq<T>) returns (r: Result<seq<T>, AppError>)
    ensures r == Coalesce(key, s)
  {
    var seen: map<K, T> := map[];
    var kept: seq<T> := [];
    for i := 0 to |s|
      invariant Dictionary(key, seen, s[..i])
      invariant kept == FirstOccurrences(key, s[..i])
    {
      var x := s[i];
      assert s[..i + 1][..i] == s[..i];
      assert s[..i + 1] == s[..i] + [x];
      if key(x) in seen && seen[key(x)] != x {
        assert seen[key(x)] in s && x in s;
        return Err(Conflict);
      }
      assert Mentions(key, s[..i], key(x)) <==> key(x) in seen;
      if key(x) !in seen {
        kept := kept + [x];
      }
      seen := seen[key(x) := x];
    }
    assert s[..|s|] == s;
    r := Ok(kept);
  }
}
