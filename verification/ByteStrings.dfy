/** Byte strings: the keys and cells of the storage engine, in lexicographic order. */
module ByteStrings {

  type Byte = b: int | 0 <= b < 256
  type Bytes = seq<Byte>

  const NUL: Byte := 0
  const DOT: Byte := 46

  // ----- prefixes of sequences -----

  lemma TakeStep<T>(s: seq<T>, i: nat)
    requires i < |s|
    ensures s[..i + 1] == s[..i] + [s[i]]
    ensures s[..i + 1][..i] == s[..i]
  {
  }

  lemma DropStep<T>(s: seq<T>, i: nat)
    requires i < |s|
    ensures s[i..][1..] == s[i + 1..] && s[i..][0] == s[i] && s[i..] != []
  {
  }

  lemma SameElements<T>(a: seq<T>, b: seq<T>)
    requires |a| == |b| && forall i :: 0 <= i < |a| ==> a[i] == b[i]
    ensures a == b
  {
  }

  lemma TakeAll<T>(s: seq<T>)
    ensures s[..|s|] == s
  {
  }

  // ----- lexicographic order -----

  predicate Less(a: Bytes, b: Bytes) {
    b != [] && (a == [] || a[0] < b[0] || (a[0] == b[0] && Less(a[1..], b[1..])))
  }

  predicate Leq(a: Bytes, b: Bytes) {
    a == b || Less(a, b)
  }

  lemma {:induction false} Trichotomy(a: Bytes, b: Bytes)
    ensures !(Less(a, b) && a == b)
    ensures !(Less(a, b) && Less(b, a))
    ensures Less(a, b) || a == b || Less(b, a)
  {
    if a != [] && b != [] {
      Trichotomy(a[1..], b[1..]);
      assert a[0] == b[0] && a[1..] == b[1..] ==> a == [a[0]] + a[1..] == b;
    }
  }

  lemma {:induction false} LessTransitive(a: Bytes, b: Bytes, c: Bytes)
    requires Less(a, b) && Less(b, c)
    ensures Less(a, c)
  {
    if a != [] && a[0] == b[0] == c[0] {
      LessTransitive(a[1..], b[1..], c[1..]);
    }
  }

  lemma LeqTransitive(a: Bytes, b: Bytes, c: Bytes)
    requires Leq(a, b) && Leq(b, c)
    ensures Leq(a, c)
    ensures Less(a, b) || Less(b, c) ==> Less(a, c)
  {
    if Less(a, b) && Less(b, c) {
      LessTransitive(a, b, c);
    }
  }

  /** A common prefix does not influence the order. */
  lemma {:induction false} LessCommonPrefix(p: Bytes, a: Bytes, b: Bytes)
    ensures Less(p + a, p + b) == Less(a, b)
  {
    if p == [] {
      assert p + a == a && p + b == b;
    } else {
      assert (p + a)[1..] == p[1..] + a;
      assert (p + b)[1..] == p[1..] + b;
      LessCommonPrefix(p[1..], a, b);
    }
  }

  // ----- exclusive end of a prefix range -----

  /** The exclusive upper bound of the keys that start with `p`; empty when `p` is all 0xFF. */
  function PrefixEnd(p: Bytes): Bytes {
    if p == [] then []
    else if p[|p| - 1] == 255 then PrefixEnd(p[..|p| - 1])
    else p[..|p| - 1] + [p[|p| - 1] + 1]
  }

  /** The loop of the storage engine: pop trailing 0xFF bytes, increment the last other one. */
  method ComputePrefixEnd(prefix: Bytes) returns (end: Bytes)
    ensures end == PrefixEnd(prefix)
  {
    end := prefix;
    while end != []
      invariant PrefixEnd(end) == PrefixEnd(prefix)
    {
      if end[|end| - 1] == 255 {
        end := end[..|end| - 1];
      } else {
        end := end[..|end| - 1] + [end[|end| - 1] + 1];
        return;
      }
    }
  }

  predicate Bounded(p: Bytes) {
    exists i :: 0 <= i < |p| && p[i] != 255
  }

  /** `[p, PrefixEnd(p))` holds exactly the keys that start with `p`, unless `p` is all 0xFF. */
  lemma {:induction false} PrefixRange(p: Bytes, k: Bytes)
    requires Bounded(p)
    ensures Leq(p, k) && Less(k, PrefixEnd(p)) <==> p <= k
    decreases |p|
  {
    var n := |p| - 1;
    if p[n] == 255 {
      assert forall i :: 0 <= i < n ==> p[..n][i] == p[i];
      PrefixRange(p[..n], k);
      PrefixLeq(p[..n], p);
      if Leq(p, k) && Less(k, PrefixEnd(p)) {
        LeqTransitive(p[..n], p, k);
        LastByteMax(p, k);
      }
      if p <= k {
        assert p[..n] <= k;
        PrefixLeq(p, k);
      }
    } else {
      PrefixRangeLast(p, k);
    }
  }

  lemma {:induction false} PrefixLeq(p: Bytes, k: Bytes)
    requires p <= k
    ensures Leq(p, k)
  {
    if p != [] {
      PrefixLeq(p[1..], k[1..]);
      assert p[1..] == k[1..] ==> p == k;
    }
  }

  lemma {:induction false} LastByteMax(p: Bytes, k: Bytes)
    requires p != [] && p[|p| - 1] == 255
    requires p[..|p| - 1] <= k
    requires Leq(p, k)
    ensures p <= k
  {
    var q := p[..|p| - 1];
    assert k == q + k[|q|..];
    assert p == q + [255];
    LessCommonPrefix(q, [255], k[|q|..]);
    assert p != k ==> Less([255], k[|q|..]);
  }

  lemma {:induction false} PrefixRangeLast(p: Bytes, k: Bytes)
    requires p != [] && p[|p| - 1] != 255
    ensures Leq(p, k) && Less(k, PrefixEnd(p)) <==> p <= k
    decreases |p|
  {
    var e := PrefixEnd(p);
    if |p| == 1 {
      if k != [] && p[0] == k[0] {
        assert [] <= k[1..];
        assert Leq([], k[1..]);
        assert k == [k[0]] + k[1..];
        assert p == [k[0]];
        assert Less(p[1..], k[1..]) || k[1..] == [];
      }
    } else if k != [] {
      assert PrefixEnd(p[1..]) == e[1..];
      PrefixRangeLast(p[1..], k[1..]);
      assert p == [p[0]] + p[1..] && k == [k[0]] + k[1..];
    }
  }

  // ----- NUL-separated segments -----

  predicate NulFree(s: Bytes) {
    NUL !in s
  }

  /** One segment of a storage key: the bytes of `a`, a zero byte, then the rest. */
  function Seg(a: Bytes, rest: Bytes): Bytes {
    a + [NUL] + rest
  }

  /** The zero byte ends a NUL-free segment unambiguously, also between a key and a prefix of it. */
  lemma SegPrefix(a: Bytes, x: Bytes, b: Bytes, y: Bytes)
    requires NulFree(a) && NulFree(b)
    ensures Seg(a, x) <= Seg(b, y) <==> a == b && x <= y
  {
    var s, t := Seg(a, x), Seg(b, y);
    if s <= t {
      assert s[|a|] == NUL && t[|b|] == NUL;
      assert forall i :: 0 <= i < |a| ==> s[i] == a[i] != NUL;
      assert forall i :: 0 <= i < |b| ==> t[i] == b[i] != NUL;
      assert |a| == |b|;
      assert a == s[..|a|] == t[..|a|] == b;
      assert x == s[|a| + 1..] && y == t[|a| + 1..];
    }
  }

  lemma SegInjective(a: Bytes, x: Bytes, b: Bytes, y: Bytes)
    requires NulFree(a) && NulFree(b)
    ensures Seg(a, x) == Seg(b, y) <==> a == b && x == y
  {
    SegPrefix(a, x, b, y);
    SegPrefix(b, y, a, x);
  }

  /** A NUL-free tail is unambiguous too: it follows the last zero byte. */
  lemma SegTailInjective(a: Bytes, x: Bytes, b: Bytes, y: Bytes)
    requires NulFree(x) && NulFree(y)
    ensures Seg(a, x) == Seg(b, y) <==> a == b && x == y
  {
    var s, t := Seg(a, x), Seg(b, y);
    if s == t {
      assert s[|a|] == NUL && t[|b|] == NUL;
      assert forall i :: |a| < i < |s| ==> s[i] == x[i - |a| - 1] != NUL;
      assert forall i :: |b| < i < |t| ==> t[i] == y[i - |b| - 1] != NUL;
      assert |a| == |b|;
      assert a == s[..|a|] == t[..|a|] == b;
      assert x == s[|a| + 1..] && y == t[|a| + 1..];
    }
  }

  /** The bytes before the first zero byte (all of them when there is none). */
  function Head(s: Bytes): (h: Bytes)
    ensures NulFree(h) && h <= s
    ensures |h| < |s| ==> s[|h|] == NUL
    ensures NulFree(s) ==> h == s
  {
    if s == [] || s[0] == NUL then [] else [s[0]] + Head(s[1..])
  }

  function Tail(s: Bytes): (t: Bytes)
    requires !NulFree(s)
    ensures s == Seg(Head(s), t)
  {
    var n := |Head(s)|;
    assert Head(s) == s[..n];
    assert n == |s| ==> s == Head(s);
    s[n + 1..]
  }

  /** Lexicographic key order never contradicts the order of the leading segments. */
  lemma {:induction false} HeadMonotone(a: Bytes, b: Bytes)
    requires Less(a, b)
    ensures Leq(Head(a), Head(b))
  {
    if a != [] && a[0] != NUL && a[0] == b[0] {
      HeadMonotone(a[1..], b[1..]);
      assert Head(a)[1..] == Head(a[1..]) && Head(b)[1..] == Head(b[1..]);
    }
  }

  // ----- sorted listing of a finite set of keys -----

  predicate Ascending(s: seq<Bytes>) {
    forall i, j :: 0 <= i < j < |s| ==> Less(s[i], s[j])
  }

  predicate IsLeast(k: Bytes, keys: set<Bytes>) {
    k in keys && forall x :: x in keys ==> Leq(k, x)
  }

  lemma {:induction false} LeastExists(keys: set<Bytes>)
    requires keys != {}
    ensures exists k :: IsLeast(k, keys)
  {
    var k :| k in keys;
    var rest := keys - {k};
    if rest == {} {
      assert keys == {k};
      assert IsLeast(k, keys);
    } else {
      LeastExists(rest);
      var m :| IsLeast(m, rest);
      Trichotomy(k, m);
      var w := if Less(k, m) then k else m;
      forall x | x in keys ensures Leq(w, x) {
        if x != k {
          assert x in rest;
          if w == k { LeqTransitive(k, m, x); }
        }
      }
      assert IsLeast(w, keys);
    }
  }

  lemma LeastUnique(k: Bytes, m: Bytes, keys: set<Bytes>)
    requires IsLeast(k, keys) && IsLeast(m, keys)
    ensures k == m
  {
    Trichotomy(k, m);
  }

  /** The keys in the order in which the storage engine iterates them. */
  function SortedKeys(keys: set<Bytes>): (s: seq<Bytes>)
    ensures forall k :: k in s <==> k in keys
    ensures |s| == |keys|
  {
    if keys == {} then []
    else
      LeastExists(keys);
      assert forall a, b :: IsLeast(a, keys) && IsLeast(b, keys) ==> a == b by {
        forall a, b | IsLeast(a, keys) && IsLeast(b, keys) ensures a == b { LeastUnique(a, b, keys); }
      }
      var k :| k in keys && IsLeast(k, keys);
      [k] + SortedKeys(keys - {k})
  }

  lemma {:induction false} SortedAscending(keys: set<Bytes>)
    ensures Ascending(SortedKeys(keys)) && Distinct(SortedKeys(keys))
  {
    var s := SortedKeys(keys);
    if keys != {} {
      SortedAscending(keys - {s[0]});
      var rest := s[1..];
      assert rest == SortedKeys(keys - {s[0]});
      assert IsLeast(s[0], keys);
      forall i | 0 <= i < |rest| ensures Less(s[0], rest[i]) && s[0] != rest[i] {
        assert rest[i] in keys - {s[0]};
      }
    }
  }

  predicate Distinct<T(==)>(s: seq<T>) {
    forall i, j :: 0 <= i < j < |s| ==> s[i] != s[j]
  }

  /** An ascending listing is determined by its set of keys. */
  lemma {:induction false} AscendingUnique(s: seq<Bytes>, t: seq<Bytes>)
    requires Ascending(s) && Ascending(t)
    requires forall k :: k in s <==> k in t
    ensures s == t
  {
    assert t != [] ==> t[0] in t;
    if s != [] {
      assert s[0] in t;
      assert t[0] in s;
      var i :| 0 <= i < |t| && t[i] == s[0];
      var j :| 0 <= j < |s| && s[j] == t[0];
      Trichotomy(s[0], t[0]);
      assert s[0] == t[0];
      forall k ensures k in s[1..] <==> k in t[1..] {
        Trichotomy(k, k);
        assert k in s[1..] ==> k in s && k != s[0];
        assert k in t[1..] ==> k in t && k != t[0];
        assert k in s <==> k == s[0] || k in s[1..];
        assert k in t <==> k == t[0] || k in t[1..];
      }
      AscendingUnique(s[1..], t[1..]);
    }
  }
}
