/** Result and option types shared by every model in this project. */
module Wrappers {

  datatype Option<+T> = None | Some(value: T)

  /** What a raising call returns: a value, or the exception it raised. */
  datatype Result<+T, +E> = Ok(value: T) | Err(error: E) {

    predicate IsFailure() {
      Err?
    }

    function PropagateFailure<U>(): Result<U, E>
      requires Err?
    {
      Err(error)
    }

    function Extract(): T
      requires Ok?
    {
      value
    }
  }

  /** The application error families the modelled code raises. */
  datatype AppError = InvalidRequest | NotFound | Conflict | DependencyUnavailable

  /** No two positions hold the same element. */
  predicate Distinct<T(==)>(s: seq<T>) {
    forall i, j :: 0 <= i < j < |s| ==> s[i] != s[j]
  }

  /** Distinctness does not depend on order. */
  lemma DistinctBag<T>(s: seq<T>)
    ensures Distinct(s) <==> forall x | x in s :: multiset(s)[x] == 1
  {
    forall i | 0 <= i < |s|
      ensures multiset(s)[s[i]] == 1 <==> forall j :: 0 <= j < |s| && j != i ==> s[j] != s[i]
    {
      var rest := RemoveAt(s, i);
      assert s[i] in rest <==> s[i] in multiset(rest);
      if j :| 0 <= j < |s| && j != i && s[j] == s[i] {
        assert s[j] == rest[if j < i then j else j - 1];
      }
    }
    if forall x | x in s :: multiset(s)[x] == 1 {
      forall i, j | 0 <= i < j < |s|
        ensures s[i] != s[j]
      {
        assert s[i] in s;
      }
    }
  }

  lemma DistinctPermutation<T>(s: seq<T>, t: seq<T>)
    requires multiset(s) == multiset(t)
    ensures Distinct(s) <==> Distinct(t)
  {
    DistinctBag(s);
    DistinctBag(t);
    assert forall x :: (x in s <==> x in multiset(s)) && (x in t <==> x in multiset(t));
  }

  /** Apply `f` to every element, in order. */
  function Map<A, B>(f: A -> B, s: seq<A>): (r: seq<B>)
    ensures |r| == |s|
    ensures forall i :: 0 <= i < |s| ==> r[i] == f(s[i])
  {
    seq(|s|, i requires 0 <= i < |s| => f(s[i]))
  }

  lemma MapAppend<A, B>(f: A -> B, s: seq<A>, x: A)
    ensures Map(f, s + [x]) == Map(f, s) + [f(x)]
  {
  }

  lemma NoMembers<T>(s: seq<T>)
    ensures (forall x :: x !in s) <==> s == []
  {
    if s != [] {
      assert s[0] in s;
    }
  }

  /** Remove position `k`. */
  function RemoveAt<A>(s: seq<A>, k: nat): (r: seq<A>)
    requires k < |s|
    ensures multiset(r) == multiset(s) - multiset{s[k]}
    ensures |r| == |s| - 1
  {
    assert s == s[..k] + [s[k]] + s[k + 1..];
    s[..k] + s[k + 1..]
  }

  lemma MapRemoveAt<A, B>(f: A -> B, s: seq<A>, k: nat)
    requires k < |s|
    ensures Map(f, RemoveAt(s, k)) == RemoveAt(Map(f, s), k)
  {
  }

  lemma MapWithout<A, B>(f: A -> B, s: seq<A>, k: nat)
    requires k < |s|
    ensures multiset(Map(f, s)) == multiset(Map(f, RemoveAt(s, k))) + multiset{f(s[k])}
  {
    MapRemoveAt(f, s, k);
  }

  lemma SameSize<T>(s: seq<T>, t: seq<T>)
    requires multiset(s) == multiset(t)
    ensures |s| == |t|
  {
    assert |s| == |multiset(s)| == |multiset(t)| == |t|;
  }

  /** Equal bags map to equal bags. */
  lemma {:induction false} MapMultiset<A, B>(f: A -> B, s: seq<A>, t: seq<A>)
    requires multiset(s) == multiset(t)
    ensures multiset(Map(f, s)) == multiset(Map(f, t))
    decreases |s|
  {
    hide Map, RemoveAt;
    SameSize(s, t);
    if s != [] {
      assert s[0] in multiset(t);
      var k :| 0 <= k < |t| && t[k] == s[0];
      MapMultiset(f, RemoveAt(s, 0), RemoveAt(t, k));
      MapWithout(f, s, 0);
      MapWithout(f, t, k);
    }
  }

  lemma SingletonBag<T>(s: seq<T>, t: seq<T>)
    requires multiset(s) == multiset(t) && |s| == 1
    ensures s == t
  {
    assert |t| == |multiset(t)| == 1;
    assert t == [t[0]];
    assert t[0] in multiset(s);
  }

  /** The elements satisfying `p`, in order. */
  function Filter<A(!new)>(p: A -> bool, s: seq<A>): (r: seq<A>)
    ensures forall x :: x in r <==> x in s && p(x)
  {
    if s == [] then []
    else Filter(p, s[..|s| - 1]) + if p(s[|s| - 1]) then [s[|s| - 1]] else []
  }
}
