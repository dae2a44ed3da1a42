/** Row fingerprints and UNION / INTERSECT / EXCEPT on bags of rows. */
module SetOps {
  import opened ByteStrings
  import opened Values
  import opened Sorting

  // ----- fingerprints -----

  type Cell = (Bytes, Bytes)

  function Cells(env: Env, row: Row): seq<Cell> {
    if row == [] then [] else Cells(env, row[..|row| - 1]) + [(row[|row| - 1].0, AsBytes(env, row[|row| - 1].1))]
  }

  predicate ByName(a: Cell, b: Cell) {
    Leq(a.0, b.0)
  }

  /** Every name and every cell followed by a zero byte. */
  function Join(cells: seq<Cell>): Bytes {
    if cells == [] then [] else Seg(cells[0].0, Seg(cells[0].1, Join(cells[1..])))
  }

  function RowKey(env: Env, row: Row): Bytes {
    Join(Sort(Cells(env, row), ByName))
  }

  method ComputeRowKey(env: Env, row: Row) returns (key: Bytes)
    ensures key == RowKey(env, row)
  {
    var cols := Sort(Cells(env, row), ByName);
    key := [];
    for i := 0 to |cols|
      invariant key + Join(cols[i..]) == Join(cols)
    {
      ghost var before, rest := key, Join(cols[i + 1..]);
      DropStep(cols, i);
      key := key + cols[i].0;
      key := key + [0];
      key := key + cols[i].1;
      key := key + [0];
      assert key + rest == before + Seg(cols[i].0, Seg(cols[i].1, rest));
    }
  }

  lemma ByNameTotal()
    ensures TotalPreorder(ByName)
  {
    forall a: Cell, b: Cell ensures ByName(a, b) || ByName(b, a) { Trichotomy(a.0, b.0); }
    forall a: Cell, b: Cell, c: Cell | ByName(a, b) && ByName(b, c) ensures ByName(a, c) { LeqTransitive(a.0, b.0, c.0); }
  }

  predicate NulFreeCells(cells: seq<Cell>) {
    forall i :: 0 <= i < |cells| ==> NulFree(cells[i].0) && NulFree(cells[i].1)
  }

  predicate NamesApart(cells: seq<Cell>) {
    forall i, j :: 0 <= i < j < |cells| ==> cells[i].0 != cells[j].0
  }

  lemma {:induction false} JoinInjective(a: seq<Cell>, b: seq<Cell>)
    requires NulFreeCells(a) && NulFreeCells(b) && Join(a) == Join(b)
    ensures a == b
  {
    if a != [] && b != [] {
      SegInjective(a[0].0, Seg(a[0].1, Join(a[1..])), b[0].0, Seg(b[0].1, Join(b[1..])));
      SegInjective(a[0].1, Join(a[1..]), b[0].1, Join(b[1..]));
      JoinInjective(a[1..], b[1..]);
      assert a == [a[0]] + a[1..] && b == [b[0]] + b[1..];
    }
  }

  /** Cells with distinct names have one sorted arrangement. */
  lemma SortedOnce(a: seq<Cell>, b: seq<Cell>)
    requires NamesApart(a) && multiset(a) == multiset(b)
    ensures Sort(a, ByName) == Sort(b, ByName)
  {
    var s, t := Sort(a, ByName), Sort(b, ByName);
    ByNameTotal();
    SortPermutes(a, ByName);
    SortPermutes(b, ByName);
    SortOrdered(a, ByName);
    SortOrdered(b, ByName);
    SortedAgree(s, t, ByName);
    forall i | 0 <= i < |s| ensures s[i] == t[i] {
      Trichotomy(s[i].0, t[i].0);
      assert s[i] in multiset(a) && t[i] in multiset(a);
    }
  }

  lemma SortNulFree(a: seq<Cell>)
    requires NulFreeCells(a)
    ensures NulFreeCells(Sort(a, ByName))
  {
    SortPermutes(a, ByName);
    var s := Sort(a, ByName);
    forall i | 0 <= i < |s| ensures NulFree(s[i].0) && NulFree(s[i].1) { assert s[i] in multiset(a); }
  }

  /**
   * Two rows with NUL-free names and cells have the same fingerprint exactly when they hold the
   * same cells, in whatever column order.
   */
  lemma RowKeyFaithful(env: Env, a: Row, b: Row)
    requires NulFreeCells(Cells(env, a)) && NulFreeCells(Cells(env, b)) && NamesApart(Cells(env, a))
    ensures RowKey(env, a) == RowKey(env, b) <==> multiset(Cells(env, a)) == multiset(Cells(env, b))
  {
    var s, t := Cells(env, a), Cells(env, b);
    if multiset(s) == multiset(t) {
      SortedOnce(s, t);
    }
    if RowKey(env, a) == RowKey(env, b) {
      SortNulFree(s);
      SortNulFree(t);
      JoinInjective(Sort(s, ByName), Sort(t, ByName));
      SortPermutes(s, ByName);
      SortPermutes(t, ByName);
    }
  }

  /**
   * A zero byte inside a cell can imitate a column boundary: two different rows with the same two
   * columns share a fingerprint.
   */
  lemma RowKeyCollision(env: Env, n1: Bytes, n2: Bytes, x: Bytes, y: Bytes, z: Bytes)
    requires Leq(n1, n2)
    ensures var a: Row, b: Row := [(n1, Text(x)), (n2, Text(Seg(y, Seg(n2, z))))], [(n1, Text(Seg(x, Seg(n2, y)))), (n2, Text(z))];
            a != b && RowKey(env, a) == RowKey(env, b)
  {
    var a: Row, b: Row := [(n1, Text(x)), (n2, Text(Seg(y, Seg(n2, z))))], [(n1, Text(Seg(x, Seg(n2, y)))), (n2, Text(z))];
    KeyOfTwo(env, n1, x, n2, Seg(y, Seg(n2, z)));
    KeyOfTwo(env, n1, Seg(x, Seg(n2, y)), n2, z);
    SegsShift(x, n2, y, z);
    assert |a[0].1.bytes| < |b[0].1.bytes|;
  }

  // ----- exactly when a fingerprint of two columns is ambiguous -----

  /** The second column's name between zero bytes, as it stands in the fingerprint. */
  function Boundary(n: Bytes): Bytes {
    [NUL] + n + [NUL]
  }

  predicate OccursAt(part: Bytes, s: Bytes, j: nat) {
    j + |part| <= |s| && s[j..j + |part|] == part
  }

  /** The boundary occurs in the first cell and the zero byte after it, or in the zero byte before the second and the cell. */
  predicate Confusable(n: Bytes, c1: Bytes, c2: Bytes) {
    || (exists j :: 0 <= j <= |c1| && OccursAt(Boundary(n), c1 + [NUL], j))
    || (exists j :: 0 <= j <= |c2| && OccursAt(Boundary(n), [NUL] + c2, j))
  }

  lemma OccursByte(part: Bytes, s: Bytes, j: nat, k: nat)
    requires OccursAt(part, s, j) && k < |part|
    ensures s[j + k] == part[k]
  {
    assert s[j + k] == s[j..j + |part|][k];
  }

  /** Two boundaries at different places do not overlap in more than a zero byte. */
  lemma BoundariesApart(n: Bytes, w: Bytes, i: nat, j: nat)
    requires NulFree(n) && OccursAt(Boundary(n), w, i) && OccursAt(Boundary(n), w, j) && i < j
    ensures i + 1 + |n| <= j
  {
    if j < i + 1 + |n| {
      OccursByte(Boundary(n), w, i, j - i);
      OccursByte(Boundary(n), w, j, 0);
    }
  }

  lemma BoundaryAt(n: Bytes, c1: Bytes, c2: Bytes)
    ensures var w := c1 + Boundary(n) + c2;
            OccursAt(Boundary(n), w, |c1|) && w[..|c1|] == c1 && w[|c1| + |Boundary(n)|..] == c2
  {
  }

  lemma OtherBoundary(n: Bytes, c1: Bytes, c2: Bytes, d1: Bytes, d2: Bytes)
    requires NulFree(n) && c1 + Boundary(n) + c2 == d1 + Boundary(n) + d2 && (c1 != d1 || c2 != d2)
    ensures Confusable(n, c1, c2)
  {
    var b, w := Boundary(n), c1 + Boundary(n) + c2;
    BoundaryAt(n, c1, c2);
    BoundaryAt(n, d1, d2);
    if |d1| < |c1| {
      BoundariesApart(n, w, |d1|, |c1|);
      assert (c1 + [NUL])[|d1|..|d1| + |b|] == w[|d1|..|d1| + |b|];
      assert OccursAt(b, c1 + [NUL], |d1|);
    } else if |c1| < |d1| {
      BoundariesApart(n, w, |c1|, |d1|);
      var j := |d1| - |c1| - 1 - |n|;
      assert ([NUL] + c2)[j..j + |b|] == w[|d1|..|d1| + |b|];
      assert OccursAt(b, [NUL] + c2, j);
    }
  }

  lemma SplitAt(part: Bytes, w: Bytes, j: nat)
    requires OccursAt(part, w, j)
    ensures w == w[..j] + part + w[j + |part|..]
  {
    assert w == w[..j] + w[j..j + |part|] + w[j + |part|..];
  }

  lemma OccursInside(part: Bytes, s: Bytes, j: nat, before: Bytes, after: Bytes)
    requires OccursAt(part, s, j)
    ensures OccursAt(part, before + s + after, |before| + j)
  {
    assert (before + s + after)[|before| + j..|before| + j + |part|] == s[j..j + |part|];
  }

  lemma SplitElsewhere(n: Bytes, c1: Bytes, c2: Bytes) returns (d1: Bytes, d2: Bytes)
    requires Confusable(n, c1, c2)
    ensures c1 + Boundary(n) + c2 == d1 + Boundary(n) + d2 && |c1| != |d1|
  {
    var b := Boundary(n);
    var w, j := LaterBoundary(n, c1, c2);
    SplitAt(b, w, j);
    d1, d2 := w[..j], w[j + |b|..];
  }

  lemma LaterBoundary(n: Bytes, c1: Bytes, c2: Bytes) returns (w: Bytes, j: nat)
    requires Confusable(n, c1, c2)
    ensures w == c1 + Boundary(n) + c2 && OccursAt(Boundary(n), w, j) && j != |c1|
  {
    var b := Boundary(n);
    if i :| 0 <= i <= |c1| && OccursAt(b, c1 + [NUL], i) {
      w, j := InFirst(n, c1, c2, i);
    } else {
      var i :| 0 <= i <= |c2| && OccursAt(b, [NUL] + c2, i);
      w, j := InSecond(n, c1, c2, i);
    }
  }

  lemma InFirst(n: Bytes, c1: Bytes, c2: Bytes, i: nat) returns (w: Bytes, j: nat)
    requires OccursAt(Boundary(n), c1 + [NUL], i)
    ensures w == c1 + Boundary(n) + c2 && OccursAt(Boundary(n), w, j) && j != |c1|
  {
    OccursInside(Boundary(n), c1 + [NUL], i, [], n + [NUL] + c2);
    w, j := [] + (c1 + [NUL]) + (n + [NUL] + c2), i;
  }

  lemma InSecond(n: Bytes, c1: Bytes, c2: Bytes, i: nat) returns (w: Bytes, j: nat)
    requires OccursAt(Boundary(n), [NUL] + c2, i)
    ensures w == c1 + Boundary(n) + c2 && OccursAt(Boundary(n), w, j) && j != |c1|
  {
    OccursInside(Boundary(n), [NUL] + c2, i, c1 + [NUL] + n, []);
    w, j := c1 + [NUL] + n + ([NUL] + c2) + [], |c1 + [NUL] + n| + i;
  }

  lemma KeyAroundBoundary(n1: Bytes, n2: Bytes, c1: Bytes, c2: Bytes)
    ensures Seg(n1, Seg(c1, Seg(n2, Seg(c2, [])))) == n1 + [NUL] + (c1 + Boundary(n2) + c2) + [NUL]
  {
  }

  lemma AroundCancels(n1: Bytes, w: Bytes, v: Bytes)
    ensures n1 + [NUL] + w + [NUL] == n1 + [NUL] + v + [NUL] <==> w == v
  {
    var s, t := n1 + [NUL] + w + [NUL], n1 + [NUL] + v + [NUL];
    assert s[|n1| + 1..|s| - 1] == w && t[|n1| + 1..|t| - 1] == v;
  }

  function TwoCells(n1: Bytes, n2: Bytes, c1: Bytes, c2: Bytes): Row {
    [(n1, Text(c1)), (n2, Text(c2))]
  }

  lemma TwoCellsKey(env: Env, n1: Bytes, n2: Bytes, c1: Bytes, c2: Bytes, d1: Bytes, d2: Bytes)
    requires Leq(n1, n2)
    ensures RowKey(env, TwoCells(n1, n2, c1, c2)) == RowKey(env, TwoCells(n1, n2, d1, d2))
       <==> c1 + Boundary(n2) + c2 == d1 + Boundary(n2) + d2
  {
    KeyOfTwo(env, n1, c1, n2, c2);
    KeyOfTwo(env, n1, d1, n2, d2);
    KeyAroundBoundary(n1, n2, c1, c2);
    KeyAroundBoundary(n1, n2, d1, d2);
    AroundCancels(n1, c1 + Boundary(n2) + c2, d1 + Boundary(n2) + d2);
  }

  /** Another row with the same two columns shares the fingerprint exactly when a cell imitates the boundary between them. */
  lemma RowKeyAmbiguous(env: Env, n1: Bytes, n2: Bytes, c1: Bytes, c2: Bytes)
    requires Leq(n1, n2) && NulFree(n2)
    ensures (exists d1, d2 :: (d1 != c1 || d2 != c2) && RowKey(env, TwoCells(n1, n2, d1, d2)) == RowKey(env, TwoCells(n1, n2, c1, c2)))
       <==> Confusable(n2, c1, c2)
  {
    if d1, d2 :| (d1 != c1 || d2 != c2) && RowKey(env, TwoCells(n1, n2, d1, d2)) == RowKey(env, TwoCells(n1, n2, c1, c2)) {
      TwoCellsKey(env, n1, n2, c1, c2, d1, d2);
      OtherBoundary(n2, c1, c2, d1, d2);
    }
    if Confusable(n2, c1, c2) {
      var d1, d2 := SplitElsewhere(n2, c1, c2);
      TwoCellsKey(env, n1, n2, c1, c2, d1, d2);
      assert d1 != c1;
    }
  }

  lemma SegsShift(x: Bytes, n: Bytes, y: Bytes, z: Bytes)
    ensures Seg(x, Seg(n, Seg(Seg(y, Seg(n, z)), []))) == Seg(Seg(x, Seg(n, y)), Seg(n, Seg(z, [])))
  {
    SegNests(y, Seg(n, z), []);
    SegNests(n, z, []);
    SegNests(x, Seg(n, y), Seg(n, Seg(z, [])));
    SegNests(n, y, Seg(n, Seg(z, [])));
  }

  lemma SegNests(a: Bytes, b: Bytes, rest: Bytes)
    ensures Seg(Seg(a, b), rest) == Seg(a, Seg(b, rest))
  {
  }

  lemma KeyOfTwo(env: Env, n1: Bytes, c1: Bytes, n2: Bytes, c2: Bytes)
    requires Leq(n1, n2)
    ensures RowKey(env, [(n1, Text(c1)), (n2, Text(c2))]) == Seg(n1, Seg(c1, Seg(n2, Seg(c2, []))))
  {
    SortTwo((n1, c1), (n2, c2));
    var two: Row, cells: seq<Cell> := [(n1, Text(c1)), (n2, Text(c2))], [(n1, c1), (n2, c2)];
    assert two[..1] == [(n1, Text(c1))] && cells[1..] == [(n2, c2)];
    KeyOfOne(env, n1, c1);
    KeyOfOne(env, n2, c2);
    assert Cells(env, two) == cells;
  }

  lemma SortTwo(a: Cell, b: Cell)
    requires ByName(a, b)
    ensures Sort([a, b], ByName) == [a, b]
  {
    assert [a, b][..1] == [a] && [a][..0] == [];
    assert Sort([a], ByName) == [a];
  }

  lemma KeyOfOne(env: Env, n: Bytes, c: Bytes)
    ensures Cells(env, [(n, Text(c))]) == [(n, c)] && Sort([(n, c)], ByName) == [(n, c)]
    ensures Join([(n, c)]) == Seg(n, Seg(c, []))
  {
    var row: Row, cells: seq<Cell> := [(n, Text(c))], [(n, c)];
    assert row[..0] == [] && cells[..0] == [] && cells[1..] == [];
  }

  // ----- which rows a set operation keeps -----

  function Count<T>(fp: T -> Bytes, rows: seq<T>, k: Bytes): nat {
    if rows == [] then 0
    else Count(fp, rows[..|rows| - 1], k) + if fp(rows[|rows| - 1]) == k then 1 else 0
  }

  datatype Rule = Once | CommonAll | CommonOnce | RestAll | RestOnce

  /** Whether a row is kept after `l` equal rows on its own side, with `r` equal rows on the right. */
  predicate Keeps(rule: Rule, l: nat, r: nat) {
    match rule
    case Once => l == 0
    case CommonAll => l < r
    case CommonOnce => l == 0 && r > 0
    case RestAll => l >= r
    case RestOnce => l == 0 && r == 0
  }

  function Selected<T>(fp: T -> Bytes, rule: Rule, rows: seq<T>, right: seq<T>): seq<T> {
    if rows == [] then []
    else
      var n := |rows| - 1;
      var k := fp(rows[n]);
      Selected(fp, rule, rows[..n], right) + if Keeps(rule, Count(fp, rows[..n], k), Count(fp, right, k)) then [rows[n]] else []
  }

  datatype Op = Union | Intersect | Except

  /** Copies of a row in the result, from `l` left and `r` right copies (section 7.10 of SQL-92). */
  function Copies(op: Op, all: bool, l: nat, r: nat): nat {
    match op
    case Union => if all then l + r else if l + r > 0 then 1 else 0
    case Intersect => if all then (if l < r then l else r) else if l > 0 && r > 0 then 1 else 0
    case Except => if all then (if l > r then l - r else 0) else if l > 0 && r == 0 then 1 else 0
  }

  function RuleOf(op: Op, all: bool): Rule {
    match op
    case Union => Once
    case Intersect => if all then CommonAll else CommonOnce
    case Except => if all then RestAll else RestOnce
  }

  function Combined<T>(fp: T -> Bytes, op: Op, all: bool, left: seq<T>, right: seq<T>): seq<T> {
    if op.Union? then (if all then left + right else Selected(fp, Once, left + right, []))
    else Selected(fp, RuleOf(op, all), left, right)
  }

  lemma CountSnoc<T>(fp: T -> Bytes, rows: seq<T>, row: T, k: Bytes)
    ensures Count(fp, rows + [row], k) == Count(fp, rows, k) + if fp(row) == k then 1 else 0
  {
    assert (rows + [row])[..|rows|] == rows;
  }

  lemma {:induction false} CountAppend<T>(fp: T -> Bytes, a: seq<T>, b: seq<T>, k: Bytes)
    ensures Count(fp, a + b, k) == Count(fp, a, k) + Count(fp, b, k)
  {
    if b == [] {
      assert a + b == a;
    } else {
      var n := |b| - 1;
      assert (a + b)[..|a + b| - 1] == a + b[..n];
      CountAppend(fp, a, b[..n], k);
    }
  }

  lemma {:induction false} SelectedCopies<T>(fp: T -> Bytes, op: Op, all: bool, rows: seq<T>, right: seq<T>, k: Bytes)
    requires !op.Union? || right == []
    ensures Count(fp, Selected(fp, RuleOf(op, all), rows, right), k)
         == Copies(op, if op.Union? then false else all, Count(fp, rows, k), Count(fp, right, k))
  {
    if rows != [] {
      var n := |rows| - 1;
      var rule := RuleOf(op, all);
      SelectedCopies(fp, op, all, rows[..n], right, k);
      var key := fp(rows[n]);
      if Keeps(rule, Count(fp, rows[..n], key), Count(fp, right, key)) {
        CountSnoc(fp, Selected(fp, rule, rows[..n], right), rows[n], k);
      } else {
        assert Selected(fp, rule, rows, right) == Selected(fp, rule, rows[..n], right);
      }
    }
  }

  /** Every fingerprint comes out as often as the standard says. */
  lemma CombinedCopies<T>(fp: T -> Bytes, op: Op, all: bool, left: seq<T>, right: seq<T>, k: Bytes)
    ensures Count(fp, Combined(fp, op, all, left, right), k) == Copies(op, all, Count(fp, left, k), Count(fp, right, k))
  {
    if op.Union? {
      CountAppend(fp, left, right, k);
      SelectedCopies(fp, op, all, left + right, [], k);
    } else {
      SelectedCopies(fp, op, all, left, right, k);
    }
  }

  /** `out` is the subsequence of `rows` at the positions `at`. */
  predicate PicksOut<T(==)>(out: seq<T>, rows: seq<T>, at: seq<nat>) {
    && |at| == |out|
    && (forall i, j :: 0 <= i < j < |at| ==> at[i] < at[j])
    && (forall i :: 0 <= i < |at| ==> at[i] < |rows| && out[i] == rows[at[i]])
  }

  /** One more row, kept or not. */
  lemma PicksSnoc<T>(out: seq<T>, rows: seq<T>, at: seq<nat>, row: T, keep: bool, out': seq<T>, rows': seq<T>) returns (at': seq<nat>)
    requires PicksOut(out, rows, at) && rows' == rows + [row] && out' == if keep then out + [row] else out
    ensures PicksOut(out', rows', at')
  {
    at' := if keep then at + [|rows|] else at;
  }

  /** INTERSECT and EXCEPT return rows of the left input, in its order. */
  lemma {:induction false} SelectedInOrder<T>(fp: T -> Bytes, rule: Rule, rows: seq<T>, right: seq<T>) returns (at: seq<nat>)
    ensures PicksOut(Selected(fp, rule, rows, right), rows, at)
  {
    if rows == [] {
      at := [];
    } else {
      var n := |rows| - 1;
      var k := fp(rows[n]);
      var keep := Keeps(rule, Count(fp, rows[..n], k), Count(fp, right, k));
      at := SelectedInOrder(fp, rule, rows[..n], right);
      at := PicksSnoc(Selected(fp, rule, rows[..n], right), rows[..n], at, rows[n], keep, Selected(fp, rule, rows, right), rows);
    }
  }

  // ----- the loops -----

  function Get(counts: map<Bytes, nat>, k: Bytes): nat {
    if k in counts then counts[k] else 0
  }

  method CountKeys<T>(fp: T -> Bytes, rows: seq<T>) returns (counts: map<Bytes, nat>)
    ensures forall k :: Get(counts, k) == Count(fp, rows, k)
  {
    counts := map[];
    for i := 0 to |rows|
      invariant forall k :: Get(counts, k) == Count(fp, rows[..i], k)
    {
      TakeStep(rows, i);
      var key := fp(rows[i]);
      counts := counts[key := Get(counts, key) + 1];
    }
    TakeAll(rows);
  }

  method KeySet<T>(fp: T -> Bytes, rows: seq<T>) returns (keys: set<Bytes>)
    ensures forall k :: k in keys <==> Count(fp, rows, k) > 0
  {
    keys := {};
    for i := 0 to |rows|
      invariant forall k :: k in keys <==> Count(fp, rows[..i], k) > 0
    {
      TakeStep(rows, i);
      var key := fp(rows[i]);
      keys := keys + {key};
    }
    TakeAll(rows);
  }

  method UnionRows<T>(fp: T -> Bytes, left: seq<T>, right: seq<T>, all: bool) returns (out: seq<T>)
    ensures out == Combined(fp, Union, all, left, right)
  {
    if all { return left + right; }
    var rows := left + right;
    var seen: set<Bytes> := {};
    out := [];
    for i := 0 to |rows|
      invariant forall k :: k in seen <==> Count(fp, rows[..i], k) > 0
      invariant out == Selected(fp, Once, rows[..i], [])
    {
      TakeStep(rows, i);
      var key := fp(rows[i]);
      if key !in seen { out := out + [rows[i]]; }
      seen := seen + {key};
    }
    TakeAll(rows);
  }

  /** The shared loop of the ALL forms: equal right rows are used up one by one. */
  method SpendCounts<T>(fp: T -> Bytes, left: seq<T>, right: seq<T>, keepMatched: bool) returns (out: seq<T>)
    ensures out == Selected(fp, if keepMatched then CommonAll else RestAll, left, right)
  {
    var counts: map<Bytes, nat> := CountKeys(fp, right);
    out := [];
    for i := 0 to |left|
      invariant forall k :: Get(counts, k) == Copies(Except, true, Count(fp, right, k), Count(fp, left[..i], k))
      invariant out == Selected(fp, if keepMatched then CommonAll else RestAll, left[..i], right)
    {
      TakeStep(left, i);
      var key := fp(left[i]);
      var remaining := Get(counts, key);
      var matched := remaining > 0;
      if matched {
        var fewer: nat := remaining - 1;
        counts := counts[key := fewer];
      }
      if matched == keepMatched { out := out + [left[i]]; }
    }
    TakeAll(left);
  }

  /** The shared filter of the distinct forms. */
  method FirstOnly<T>(fp: T -> Bytes, left: seq<T>, right: seq<T>, inRight: bool) returns (out: seq<T>)
    ensures out == Selected(fp, if inRight then CommonOnce else RestOnce, left, right)
  {
    var keys := KeySet(fp, right);
    var seen: set<Bytes> := {};
    out := [];
    for i := 0 to |left|
      invariant forall k :: k in seen <==> Count(fp, left[..i], k) > 0 && (k in keys) == inRight
      invariant out == Selected(fp, if inRight then CommonOnce else RestOnce, left[..i], right)
    {
      TakeStep(left, i);
      var key := fp(left[i]);
      if (key in keys) == inRight {
        if key !in seen { out := out + [left[i]]; }
        seen := seen + {key};
      }
    }
    TakeAll(left);
  }

  /** UNION, INTERSECT and EXCEPT, with and without ALL, on column-aligned rows. */
  method CombineRows<T>(fp: T -> Bytes, op: Op, all: bool, left: seq<T>, right: seq<T>) returns (out: seq<T>)
    ensures out == Combined(fp, op, all, left, right)
    ensures forall k :: Count(fp, out, k) == Copies(op, all, Count(fp, left, k), Count(fp, right, k))
  {
    match op {
      case Union => out := UnionRows(fp, left, right, all);
      case Intersect => if all { out := SpendCounts(fp, left, right, true); } else { out := FirstOnly(fp, left, right, true); }
      case Except => if all { out := SpendCounts(fp, left, right, false); } else { out := FirstOnly(fp, left, right, false); }
    }
    forall k ensures Count(fp, out, k) == Copies(op, all, Count(fp, left, k), Count(fp, right, k)) {
      CombinedCopies(fp, op, all, left, right, k);
    }
  }

  // ----- column alignment -----

  /** Name the values of a right row, in order, after `names`; surplus on either side is dropped. */
  function Renamed(names: seq<Bytes>, row: Row): (r: Row)
    ensures |r| == if |names| < |row| then |names| else |row|
    ensures forall i :: 0 <= i < |r| ==> r[i] == (names[i], row[i].1)
  {
    if names == [] || row == [] then [] else [(names[0], row[0].1)] + Renamed(names[1..], row[1..])
  }

  function RenamedAll(names: seq<Bytes>, rows: seq<Row>): seq<Row> {
    if rows == [] then [] else RenamedAll(names, rows[..|rows| - 1]) + [Renamed(names, rows[|rows| - 1])]
  }

  /** Right rows take the sorted column names of the first left row. */
  function Aligned(left: seq<Row>, right: seq<Row>): seq<Row> {
    if left == [] || right == [] then right else RenamedAll(Sort(Names(left[0]), Leq), right)
  }

  /** Alignment is by position exactly when the left columns are already in name order. */
  lemma AlignedByPosition(left: seq<Row>, row: Row)
    requires left != [] && |row| >= |left[0]|
    ensures Names(Aligned(left, [row])[0]) == Names(left[0]) <==> Ordered(Names(left[0]), Leq)
  {
    var names := Names(left[0]);
    var sorted := Sort(names, Leq);
    LeqTotal();
    SortPermutes(names, Leq);
    SortOrdered(names, Leq);
    assert RenamedAll(sorted, [row]) == [Renamed(sorted, row)] by {
      assert [row][..0] == [];
      assert RenamedAll(sorted, [row][..0]) == [];
    }
    assert Names(Renamed(sorted, row)) == sorted;
    if Ordered(names, Leq) { SortFixed(names, Leq); }
  }

  /** `SELECT b, a` on both sides with `b = 1, a = 2`: the right row becomes `a = 1, b = 2`. */
  lemma AlignmentSwaps()
    ensures var a, b: Bytes := [97], [98];
            var row: Row := [(b, Text([49])), (a, Text([50]))];
            Aligned([row], [row]) == [[(a, Text([49])), (b, Text([50]))]]
  {
    var a, b: Bytes := [97], [98];
    var row: Row := [(b, Text([49])), (a, Text([50]))];
    var names := [b, a];
    assert Names([row][0]) == names && names[..1] == [b] && [b][..0] == [];
    assert Less(a, b) && !Leq(b, a) by { assert a[0] < b[0]; }
    assert Sort([b], Leq) == [b];
    assert Insert([b], a, Leq) == [a, b] by { assert [b][..0] == []; }
    assert Sort(names, Leq) == [a, b];
    assert [row][..0] == [];
    assert RenamedAll([a, b], [row][..0]) == [];
    SameElements(Renamed([a, b], row), [(a, Text([49])), (b, Text([50]))]);
  }

  lemma LeqTotal()
    ensures TotalPreorder(Leq)
  {
    forall a: Bytes, b: Bytes ensures Leq(a, b) || Leq(b, a) { Trichotomy(a, b); }
    forall a: Bytes, b: Bytes, c: Bytes | Leq(a, b) && Leq(b, c) ensures Leq(a, c) { LeqTransitive(a, b, c); }
  }

  function Fingerprint(env: Env): Row -> Bytes {
    row => RowKey(env, row)
  }

  method CombineSetOp(env: Env, op: Op, all: bool, left: seq<Row>, right: seq<Row>) returns (out: seq<Row>)
    ensures var fp, aligned := Fingerprint(env), Aligned(left, right);
            && out == Combined(fp, op, all, left, aligned)
            && forall k :: Count(fp, out, k) == Copies(op, all, Count(fp, left, k), Count(fp, aligned, k))
  {
    out := CombineRows(Fingerprint(env), op, all, left, Aligned(left, right));
  }
}
