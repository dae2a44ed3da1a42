/** A stable sort, and what any sort of the same rows has in common. */
module Sorting {
  import opened ByteStrings

  ghost predicate TotalPreorder<T(!new)>(le: (T, T) -> bool) {
    && (forall a, b :: le(a, b) || le(b, a))
    && (forall a, b, c :: le(a, b) && le(b, c) ==> le(a, c))
  }

  predicate Ordered<T>(s: seq<T>, le: (T, T) -> bool) {
    forall i, j :: 0 <= i < j < |s| ==> le(s[i], s[j])
  }

  /** Insert after every element that is no greater. */
  function Insert<T>(s: seq<T>, x: T, le: (T, T) -> bool): seq<T> {
    if s == [] then [x]
    else
      var n := |s| - 1;
      if le(s[n], x) then s + [x] else Insert(s[..n], x, le) + [s[n]]
  }

  function Sort<T>(s: seq<T>, le: (T, T) -> bool): seq<T> {
    if s == [] then [] else Insert(Sort(s[..|s| - 1], le), s[|s| - 1], le)
  }

  lemma {:induction false} InsertPermutes<T>(s: seq<T>, x: T, le: (T, T) -> bool)
    ensures multiset(Insert(s, x, le)) == multiset(s) + multiset{x}
    ensures |Insert(s, x, le)| == |s| + 1
  {
    if s != [] {
      var n := |s| - 1;
      InsertPermutes(s[..n], x, le);
      assert s == s[..n] + [s[n]];
    }
  }

  /** Sorting only permutes. */
  lemma {:induction false} SortPermutes<T>(s: seq<T>, le: (T, T) -> bool)
    ensures multiset(Sort(s, le)) == multiset(s) && |Sort(s, le)| == |s|
  {
    if s != [] {
      var n := |s| - 1;
      SortPermutes(s[..n], le);
      InsertPermutes(Sort(s[..n], le), s[n], le);
      assert s == s[..n] + [s[n]];
    }
  }

  lemma {:induction false} InsertOrdered<T(!new)>(s: seq<T>, x: T, le: (T, T) -> bool)
    requires TotalPreorder(le) && Ordered(s, le)
    ensures Ordered(Insert(s, x, le), le)
  {
    if s != [] {
      var n := |s| - 1;
      if le(s[n], x) {
        forall i | 0 <= i < n ensures le(s[i], x) { assert le(s[i], s[n]); }
      } else {
        var t := Insert(s[..n], x, le);
        InsertOrdered(s[..n], x, le);
        InsertPermutes(s[..n], x, le);
        forall i | 0 <= i < |t| ensures le(t[i], s[n]) {
          assert t[i] in multiset(s[..n]) + multiset{x};
        }
      }
    }
  }

  /** Sorting by a total preorder orders the rows. */
  lemma {:induction false} SortOrdered<T(!new)>(s: seq<T>, le: (T, T) -> bool)
    requires TotalPreorder(le)
    ensures Ordered(Sort(s, le), le)
  {
    if s != [] {
      SortOrdered(s[..|s| - 1], le);
      InsertOrdered(Sort(s[..|s| - 1], le), s[|s| - 1], le);
    }
  }

  /** Ordered rows are left where they are. */
  lemma {:induction false} SortFixed<T>(s: seq<T>, le: (T, T) -> bool)
    requires Ordered(s, le)
    ensures Sort(s, le) == s
  {
    if s != [] {
      var n := |s| - 1;
      SortFixed(s[..n], le);
      assert n > 0 ==> le(s[n - 1], s[n]);
      assert s == s[..n] + [s[n]];
    }
  }

  // ----- two sorted arrangements of the same rows agree on keys -----

  function CountLe<T>(s: seq<T>, x: T, le: (T, T) -> bool): nat {
    if s == [] then 0 else CountLe(s[..|s| - 1], x, le) + if le(s[|s| - 1], x) then 1 else 0
  }

  lemma {:induction false} CountLeAppend<T>(a: seq<T>, b: seq<T>, x: T, le: (T, T) -> bool)
    ensures CountLe(a + b, x, le) == CountLe(a, x, le) + CountLe(b, x, le)
  {
    if b == [] {
      assert a + b == a;
    } else {
      var n := |b| - 1;
      assert (a + b)[..|a + b| - 1] == a + b[..n];
      CountLeAppend(a, b[..n], x, le);
    }
  }

  function Without<T>(s: seq<T>, j: nat): seq<T>
    requires j < |s|
  {
    s[..j] + s[j + 1..]
  }

  lemma WithoutMultiset<T>(s: seq<T>, j: nat)
    requires j < |s|
    ensures multiset(Without(s, j)) == multiset(s) - multiset{s[j]} && |Without(s, j)| == |s| - 1
  {
    assert s == s[..j] + [s[j]] + s[j + 1..];
  }

  lemma CountLeWithout<T>(s: seq<T>, j: nat, x: T, le: (T, T) -> bool)
    requires j < |s|
    ensures CountLe(s, x, le) == CountLe(Without(s, j), x, le) + if le(s[j], x) then 1 else 0
  {
    TakeStep(s, j);
    assert s == s[..j + 1] + s[j + 1..];
    CountLeAppend(s[..j + 1], s[j + 1..], x, le);
    CountLeAppend(s[..j], s[j + 1..], x, le);
  }

  lemma {:induction false} CountLePermutation<T>(a: seq<T>, b: seq<T>, x: T, le: (T, T) -> bool)
    requires multiset(a) == multiset(b)
    ensures CountLe(a, x, le) == CountLe(b, x, le)
    decreases |a|
  {
    if a == [] {
      assert |multiset(b)| == 0;
    } else {
      var n := |a| - 1;
      WithoutMultiset(a, n);
      assert a[n] in multiset(b);
      var j :| 0 <= j < |b| && b[j] == a[n];
      WithoutMultiset(b, j);
      CountLePermutation(Without(a, n), Without(b, j), x, le);
      CountLeWithout(a, n, x, le);
      CountLeWithout(b, j, x, le);
    }
  }

  lemma {:induction false} CountLeAll<T>(s: seq<T>, x: T, le: (T, T) -> bool)
    requires forall i :: 0 <= i < |s| ==> le(s[i], x)
    ensures CountLe(s, x, le) == |s|
  {
    if s != [] { CountLeAll(s[..|s| - 1], x, le); }
  }

  lemma {:induction false} CountLeNone<T>(s: seq<T>, x: T, le: (T, T) -> bool)
    requires forall i :: 0 <= i < |s| ==> !le(s[i], x)
    ensures CountLe(s, x, le) == 0
  {
    if s != [] { CountLeNone(s[..|s| - 1], x, le); }
  }

  lemma {:induction false} CountLeAtMost<T>(s: seq<T>, x: T, le: (T, T) -> bool)
    ensures CountLe(s, x, le) <= |s|
  {
    if s != [] { CountLeAtMost(s[..|s| - 1], x, le); }
  }

  lemma RankOrder<T(!new)>(a: seq<T>, b: seq<T>, i: nat, le: (T, T) -> bool)
    requires TotalPreorder(le) && Ordered(a, le) && Ordered(b, le)
    requires multiset(a) == multiset(b) && i < |a| == |b|
    ensures le(a[i], b[i])
  {
    if !le(a[i], b[i]) {
      var x := b[i];
      assert b == b[..i + 1] + b[i + 1..] && a == a[..i] + a[i..];
      CountLeAppend(b[..i + 1], b[i + 1..], x, le);
      CountLeAll(b[..i + 1], x, le);
      CountLeAppend(a[..i], a[i..], x, le);
      CountLeAtMost(a[..i], x, le);
      assert forall j :: 0 <= j < |a[i..]| ==> !le(a[i..][j], x);
      CountLeNone(a[i..], x, le);
      CountLePermutation(a, b, x, le);
      assert false;
    }
  }

  /** Two sorted arrangements of the same rows have the same sequence of sort keys. */
  lemma SortedAgree<T(!new)>(a: seq<T>, b: seq<T>, le: (T, T) -> bool)
    requires TotalPreorder(le) && Ordered(a, le) && Ordered(b, le) && multiset(a) == multiset(b)
    ensures |a| == |b| && forall i :: 0 <= i < |a| ==> le(a[i], b[i]) && le(b[i], a[i])
  {
    assert |multiset(a)| == |a| && |multiset(b)| == |b|;
    forall i | 0 <= i < |a| ensures le(a[i], b[i]) && le(b[i], a[i]) {
      RankOrder(a, b, i, le);
      RankOrder(b, a, i, le);
    }
  }
}
