/** Sorting by a total order, as `sorted` and `list.sort` do it. */
module Ordering {

  ghost predicate TotalOrder<T(!new)>(le: (T, T) -> bool) {
    && (forall a, b :: le(a, b) || le(b, a))
    && (forall a, b, c :: le(a, b) && le(b, c) ==> le(a, c))
  }

  /** `le` tells the elements of `s` apart: no two different ones are equivalent. */
  ghost predicate Separates<T(!new)>(le: (T, T) -> bool, s: seq<T>) {
    forall a, b :: a in s && b in s && le(a, b) && le(b, a) ==> a == b
  }

  ghost predicate Sorted<T>(le: (T, T) -> bool, s: seq<T>) {
    forall i, j :: 0 <= i < j < |s| ==> le(s[i], s[j])
  }

  /** Insert `x` after every element that may precede it, so equal elements keep their order. */
  function Insert<T(!new)>(le: (T, T) -> bool, s: seq<T>, x: T): (r: seq<T>)
    requires TotalOrder(le) && Sorted(le, s)
    ensures Sorted(le, r)
    ensures multiset(r) == multiset(s) + multiset{x}
  {
    if s == [] then [x]
    else
      var last := s[|s| - 1];
      assert s == s[..|s| - 1] + [last];
      if le(last, x) then s + [x]
      else
        var r := Insert(le, s[..|s| - 1], x);
        InsertedBelow(le, s[..|s| - 1], last, x, r);
        r + [last]
  }

  lemma InsertedBelow<T(!new)>(le: (T, T) -> bool, front: seq<T>, last: T, x: T, r: seq<T>)
    requires TotalOrder(le) && Sorted(le, front + [last]) && !le(last, x)
    requires multiset(r) == multiset(front) + multiset{x}
    ensures forall y :: y in r ==> le(y, last)
  {
    forall y | y in r ensures le(y, last) {
      assert y in multiset(r);
      if y != x {
        assert y in multiset(front);
        var i :| 0 <= i < |front| && front[i] == y;
        assert (front + [last])[i] == y && (front + [last])[|front|] == last;
      }
    }
  }

  function Sort<T(!new)>(le: (T, T) -> bool, s: seq<T>): (r: seq<T>)
    requires TotalOrder(le)
    ensures Sorted(le, r)
    ensures multiset(r) == multiset(s)
  {
    if s == [] then []
    else
      assert s == s[..|s| - 1] + [s[|s| - 1]];
      Insert(le, Sort(le, s[..|s| - 1]), s[|s| - 1])
  }

  lemma HeadOff<T>(s: seq<T>)
    requires s != []
    ensures multiset(s[1..]) == multiset(s) - multiset{s[0]}
  {
    assert s == [s[0]] + s[1..];
  }

  lemma LeastFirst<T(!new)>(le: (T, T) -> bool, s: seq<T>, x: T)
    requires TotalOrder(le) && Sorted(le, s) && x in multiset(s)
    ensures s != [] && le(s[0], x)
  {
  }

  lemma SameLeast<T(!new)>(le: (T, T) -> bool, s: seq<T>, t: seq<T>)
    requires TotalOrder(le) && Separates(le, s)
    requires Sorted(le, s) && Sorted(le, t) && multiset(s) == multiset(t) && s != []
    ensures t != [] && s[0] == t[0]
  {
    assert s[0] in multiset(t);
    LeastFirst(le, t, s[0]);
    assert t[0] in multiset(s);
    LeastFirst(le, s, t[0]);
  }

  lemma TailOf<T(!new)>(le: (T, T) -> bool, s: seq<T>)
    requires Separates(le, s) && Sorted(le, s) && s != []
    ensures Separates(le, s[1..]) && Sorted(le, s[1..])
    ensures multiset(s[1..]) == multiset(s) - multiset{s[0]}
  {
    assert forall x :: x in s[1..] ==> x in s;
    HeadOff(s);
  }

  lemma SameMembers<T(!new)>(le: (T, T) -> bool, s: seq<T>, t: seq<T>)
    requires Separates(le, s) && multiset(s) == multiset(t)
    ensures Separates(le, t) && |s| == |t|
  {
    assert forall x :: x in t ==> x in multiset(s);
    assert |s| == |multiset(s)| == |multiset(t)| == |t|;
  }

  /** A multiset can be sorted in one way only. */
  lemma {:induction false} SortedUnique<T(!new)>(le: (T, T) -> bool, s: seq<T>, t: seq<T>)
    requires TotalOrder(le) && Separates(le, s)
    requires Sorted(le, s) && Sorted(le, t) && multiset(s) == multiset(t)
    ensures s == t
  {
    hide *;
    SameMembers(le, s, t);
    if s == [] {
      assert s == t;
    } else {
      SameLeast(le, s, t);
      TailOf(le, s);
      TailOf(le, t);
      SortedUnique(le, s[1..], t[1..]);
      assert s == [s[0]] + s[1..];
      assert t == [t[0]] + t[1..];
    }
  }

  /** Sorting forgets the order of its input. */
  lemma SortIgnoresOrder<T(!new)>(le: (T, T) -> bool, s: seq<T>, t: seq<T>)
    requires TotalOrder(le) && Separates(le, s) && multiset(s) == multiset(t)
    ensures Sort(le, s) == Sort(le, t)
  {
    var r := Sort(le, s);
    assert forall a :: a in r ==> a in multiset(r);
    SortedUnique(le, r, Sort(le, t));
  }

  function IntLe(): (int, int) -> bool {
    (a, b) => a <= b
  }

  /** Code-point lexicographic order, the order `sorted` gives strings. */
  predicate StringLe(a: string, b: string) {
    a == [] || (b != [] && (a[0] < b[0] || (a[0] == b[0] && StringLe(a[1..], b[1..]))))
  }

  /** Two texts agree on their first `k` characters. */
  predicate AgreeUpTo(a: string, b: string, k: nat) {
    k <= |a| && k <= |b| && forall i :: 0 <= i < k ==> a[i] == b[i]
  }

  /** `a` is the start of `b`, or has the smaller character where they first differ. */
  ghost predicate Lexicographic(a: string, b: string) {
    AgreeUpTo(a, b, |a|) || exists k :: 0 <= k < |a| && k < |b| && AgreeUpTo(a, b, k) && a[k] < b[k]
  }

  lemma {:induction false} StringLeMeaning(a: string, b: string)
    ensures StringLe(a, b) <==> Lexicographic(a, b)
  {
    if a != [] && b != [] {
      if a[0] == b[0] {
        StringLeMeaning(a[1..], b[1..]);
        TailLexicographic(a, b);
      } else {
        assert AgreeUpTo(a, b, 0);
        assert forall k :: AgreeUpTo(a, b, k) ==> k == 0;
      }
    }
  }

  lemma TailLexicographic(a: string, b: string)
    requires a != [] && b != [] && a[0] == b[0]
    ensures Lexicographic(a, b) <==> Lexicographic(a[1..], b[1..])
  {
    forall k: nat ensures AgreeUpTo(a, b, k + 1) <==> AgreeUpTo(a[1..], b[1..], k) {
      if AgreeUpTo(a[1..], b[1..], k) {
        assert forall i :: 0 < i < k + 1 ==> a[i] == a[1..][i - 1] && b[i] == b[1..][i - 1];
      }
    }
    if k :| 0 <= k < |a| && k < |b| && AgreeUpTo(a, b, k) && a[k] < b[k] {
      assert AgreeUpTo(a[1..], b[1..], k - 1) && a[1..][k - 1] < b[1..][k - 1];
    }
    if k :| 0 <= k < |a| - 1 && k < |b| - 1 && AgreeUpTo(a[1..], b[1..], k) && a[1..][k] < b[1..][k] {
      assert AgreeUpTo(a, b, k + 1) && a[k + 1] < b[k + 1];
    }
  }

  lemma {:induction false} StringLeTotal(a: string, b: string)
    ensures StringLe(a, b) || StringLe(b, a)
    ensures StringLe(a, b) && StringLe(b, a) ==> a == b
  {
    if a != [] && b != [] && a[0] == b[0] {
      StringLeTotal(a[1..], b[1..]);
      assert a == [a[0]] + a[1..] && b == [b[0]] + b[1..];
    }
  }

  lemma {:induction false} StringLeTransitive(a: string, b: string, c: string)
    requires StringLe(a, b) && StringLe(b, c)
    ensures StringLe(a, c)
  {
    if a != [] && a[0] == b[0] && b[0] == c[0] {
      StringLeTransitive(a[1..], b[1..], c[1..]);
    }
  }

  /** Strings compare by a total order that tells them all apart. */
  lemma StringOrder()
    ensures TotalOrder(StringLe)
    ensures forall a, b :: StringLe(a, b) && StringLe(b, a) ==> a == b
  {
    forall a: string, b: string
      ensures StringLe(a, b) || StringLe(b, a)
      ensures StringLe(a, b) && StringLe(b, a) ==> a == b
    {
      StringLeTotal(a, b);
    }
    forall a: string, b: string, c: string | StringLe(a, b) && StringLe(b, c)
      ensures StringLe(a, c)
    {
      StringLeTransitive(a, b, c);
    }
  }
}
