/** Window functions: partitions and ranking. */
module Windows {
  import opened ByteStrings
  import opened Values
  import opened Columns
  import opened Expressions
  import opened Sorting
  import opened SortOrder
  import PartitionKeys

  // ----- ranks on a sorted partition -----

  datatype RankFunc = RowNumber | Rank | DenseRank

  /** Where the run of equal rows that holds row `i` starts. */
  function RunStart<T>(p: seq<T>, same: (T, T) -> bool, i: nat): (s: nat)
    requires i < |p|
    ensures s <= i
  {
    if i == 0 || !same(p[i - 1], p[i]) then i else RunStart(p, same, i - 1)
  }

  /** How many runs have started up to row `i`. */
  function Runs<T>(p: seq<T>, same: (T, T) -> bool, i: nat): nat
    requires i < |p|
  {
    if i == 0 then 1 else Runs(p, same, i - 1) + if same(p[i - 1], p[i]) then 0 else 1
  }

  function RankValue<T>(func: RankFunc, p: seq<T>, same: (T, T) -> bool, i: nat): nat
    requires i < |p|
  {
    match func
    case RowNumber => i + 1
    case Rank => RunStart(p, same, i) + 1
    case DenseRank => Runs(p, same, i)
  }

  function Alike<T>(le: (T, T) -> bool): (T, T) -> bool {
    (a, b) => le(a, b) && le(b, a)
  }

  function Strictly<T>(le: (T, T) -> bool): (T, T) -> bool {
    (a, b) => !le(b, a)
  }

  lemma {:induction false} RunAlike<T(!new)>(p: seq<T>, le: (T, T) -> bool, i: nat)
    requires TotalPreorder(le) && i < |p|
    ensures var s := RunStart(p, Alike(le), i);
            && (forall j :: s <= j <= i ==> le(p[i], p[j]))
            && (s > 0 ==> !Alike(le)(p[s - 1], p[s]))
  {
    if i > 0 && Alike(le)(p[i - 1], p[i]) { RunAlike(p, le, i - 1); }
  }

  lemma BeforeRun<T(!new)>(p: seq<T>, le: (T, T) -> bool, i: nat, s: nat, j: nat)
    requires TotalPreorder(le) && Ordered(p, le) && j < s <= i < |p| && !le(p[s], p[s - 1])
    ensures !le(p[i], p[j])
  {
    assert le(p[s], p[i]) && le(p[j], p[s - 1]);
  }

  lemma RunSplits<T(!new)>(p: seq<T>, le: (T, T) -> bool, i: nat)
    requires TotalPreorder(le) && Ordered(p, le) && i < |p|
    ensures var s := RunStart(p, Alike(le), i);
            && (forall j :: 0 <= j < s ==> Strictly(le)(p[j], p[i]))
            && (forall j :: s <= j < |p| ==> !Strictly(le)(p[j], p[i]))
  {
    var s := RunStart(p, Alike(le), i);
    RunAlike(p, le, i);
    forall j | 0 <= j < s ensures !le(p[i], p[j]) {
      assert le(p[s - 1], p[s]);
      BeforeRun(p, le, i, s, j);
    }
  }

  /** RANK is one more than the number of rows strictly before. */
  lemma RankExact<T(!new)>(p: seq<T>, le: (T, T) -> bool, i: nat)
    requires TotalPreorder(le) && Ordered(p, le) && i < |p|
    ensures RankValue(Rank, p, Alike(le), i) == 1 + CountLe(p, p[i], Strictly(le))
  {
    var s := RunStart(p, Alike(le), i);
    RunSplits(p, le, i);
    CountSplit(p, s, p[i], Strictly(le));
  }

  lemma CountSplit<T>(p: seq<T>, s: nat, x: T, r: (T, T) -> bool)
    requires s <= |p|
    requires (forall j :: 0 <= j < s ==> r(p[j], x)) && (forall j :: s <= j < |p| ==> !r(p[j], x))
    ensures CountLe(p, x, r) == s
  {
    assert p == p[..s] + p[s..];
    CountLeAppend(p[..s], p[s..], x, r);
    CountLeAll(p[..s], x, r);
    CountLeNone(p[s..], x, r);
  }

  /** The number of order classes among the rows: rows with no equal row before them. */
  function Classes<T>(s: seq<T>, le: (T, T) -> bool): nat {
    if s == [] then 0
    else
      var n := |s| - 1;
      Classes(s[..n], le) + if exists j :: 0 <= j < n && le(s[n], s[j]) && le(s[j], s[n]) then 0 else 1
  }

  /** DENSE_RANK is the number of order classes up to the row. */
  lemma {:induction false} DenseExact<T(!new)>(p: seq<T>, le: (T, T) -> bool, i: nat)
    requires TotalPreorder(le) && Ordered(p, le) && i < |p|
    ensures RankValue(DenseRank, p, Alike(le), i) == Classes(p[..i + 1], le)
  {
    TakeStep(p, i);
    var s := p[..i + 1];
    if i > 0 {
      DenseExact(p, le, i - 1);
      if Alike(le)(p[i - 1], p[i]) {
        assert le(s[i], s[i - 1]) && le(s[i - 1], s[i]);
      } else {
        assert le(p[i - 1], p[i]);
        forall j | 0 <= j < i ensures !(le(s[i], s[j]) && le(s[j], s[i])) {
          assert le(p[j], p[i - 1]);
        }
      }
    } else {
      assert p[..0] == [];
      assert Classes(p[..0], le) == 0;
    }
  }

  // ----- ranking a partition in place -----

  /** The new column cannot be taken for a sort column: each is there already, or has another name. */
  predicate KeepsKeys(row: Row, output: Bytes, keys: SortKeys) {
    forall i :: 0 <= i < |keys| ==> FindMatch(row, keys[i].0).Some? || !NameMatches(output, keys[i].0)
  }

  function Push(output: Bytes): (Row, nat) -> Row {
    (row, v) => row + [(output, Integer(v))]
  }

  lemma {:induction false} FindMatchAppend(row: Row, x: (Bytes, Value), c: Bytes)
    ensures FindMatch(row + [x], c) == if FindMatch(row, c).Some? then FindMatch(row, c) else if NameMatches(x.0, c) then Some(x.1) else None
  {
    if row == [] {
      assert row + [x] == [x] && [x][1..] == [];
    } else {
      assert (row + [x])[1..] == row[1..] + [x];
      FindMatchAppend(row[1..], x, c);
    }
  }

  lemma {:induction false} CompareIgnores(env: Env, keys: SortKeys, a: Row, b: Row, output: Bytes, v: Value)
    requires KeepsKeys(a, output, keys)
    ensures Compare(env, keys, a + [(output, v)], b) == Compare(env, keys, a, b)
  {
    if keys != [] {
      FindMatchAppend(a, (output, v), keys[0].0);
      assert KeepsKeys(a, output, keys[1..]);
      CompareIgnores(env, keys[1..], a, b, output, v);
    }
  }

  /** Attaching a rank to a row does not change how it compares with a later one. */
  ghost predicate Unmoved<T>(p: seq<T>, same: (T, T) -> bool, attach: (T, nat) -> T) {
    forall i, j, v {:trigger same(attach(p[i], v), p[j])} ::
      0 <= i < j < |p| ==> same(attach(p[i], v), p[j]) == same(p[i], p[j])
  }

  /** The ranks of the first `n` rows. */
  function Ranks<T>(func: RankFunc, p: seq<T>, same: (T, T) -> bool, n: nat): (r: seq<nat>)
    requires n <= |p|
    ensures |r| == n
  {
    if n == 0 then [] else Ranks(func, p, same, n - 1) + [RankValue(func, p, same, n - 1)]
  }

  lemma {:induction false} RanksAt<T>(func: RankFunc, p: seq<T>, same: (T, T) -> bool, n: nat, i: nat)
    requires i < n <= |p|
    ensures Ranks(func, p, same, n)[i] == RankValue(func, p, same, i)
  {
    if i < n - 1 { RanksAt(func, p, same, n - 1, i); }
  }

  /** The partition and the two counters in the middle of the loop. */
  datatype Ranking<T> = Ranking(part: seq<T>, rank: nat, dense: nat)

  /** After `n` rounds: each compares with a row that already carries its rank. */
  function AfterRanks<T>(func: RankFunc, same: (T, T) -> bool, attach: (T, nat) -> T, p: seq<T>, n: nat): (r: Ranking<T>)
    requires n <= |p|
    ensures |r.part| == |p|
  {
    if n == 0 then Ranking(p, 1, 1)
    else
      var i := n - 1;
      var before := AfterRanks(func, same, attach, p, i);
      var starts := i > 0 && !same(before.part[i - 1], before.part[i]);
      var rank, dense := if starts then i + 1 else before.rank, if starts then before.dense + 1 else before.dense;
      var value := match func case RowNumber => i + 1 case Rank => rank case DenseRank => dense;
      Ranking(before.part[i := attach(before.part[i], value)], rank, dense)
  }

  method AssignRanks<T>(func: RankFunc, same: (T, T) -> bool, attach: (T, nat) -> T, part: array<T>)
    modifies part
    ensures part[..] == AfterRanks(func, same, attach, old(part[..]), part.Length).part
  {
    ghost var p := part[..];
    var dense: nat, rank: nat := 1, 1;
    for i := 0 to part.Length
      invariant AfterRanks(func, same, attach, p, i) == Ranking(part[..], rank, dense)
    {
      var rows := part[..];
      if i > 0 && !same(part[i - 1], part[i]) {
        rank := i + 1;
        dense := dense + 1;
      }
      var value: nat := match func case RowNumber => i + 1 case Rank => rank case DenseRank => dense;
      part[i] := attach(rows[i], value);
      assert part[..] == rows[i := attach(rows[i], value)];
    }
  }

  /** The first rows with the values attached to them. */
  function Attached<T, V>(attach: (T, V) -> T, p: seq<T>, values: seq<V>): (r: seq<T>)
    requires |values| <= |p|
    ensures |r| == |p|
    ensures forall i :: 0 <= i < |values| ==> r[i] == attach(p[i], values[i])
    ensures forall i :: |values| <= i < |p| ==> r[i] == p[i]
  {
    seq(|p|, i requires 0 <= i < |p| => if i < |values| then attach(p[i], values[i]) else p[i])
  }

  lemma AttachedSnoc<T, V>(attach: (T, V) -> T, p: seq<T>, values: seq<V>, v: V)
    requires |values| < |p|
    ensures Attached(attach, p, values + [v]) == Attached(attach, p, values)[|values| := attach(p[|values|], v)]
  {
  }

  /** The counters after `n` rounds. */
  predicate Counted<T>(same: (T, T) -> bool, p: seq<T>, n: nat, rank: nat, dense: nat)
    requires n <= |p|
  {
    if n == 0 then rank == dense == 1 else rank == RunStart(p, same, n - 1) + 1 && dense == Runs(p, same, n - 1)
  }

  /** The state after `n` rounds when no rank moves a row. */
  predicate RankedSoFar<T(==)>(func: RankFunc, same: (T, T) -> bool, attach: (T, nat) -> T, p: seq<T>, n: nat, s: Ranking<T>)
    requires n <= |p|
  {
    s.part == Attached(attach, p, Ranks(func, p, same, n)) && Counted(same, p, n, s.rank, s.dense)
  }

  /** The comparison of a round, made on rows that already carry ranks, is that of the rows as they were. */
  lemma SameAsBefore<T>(same: (T, T) -> bool, attach: (T, nat) -> T, p: seq<T>, i: nat, ranks: seq<nat>)
    requires 0 < i < |p| && |ranks| == i && Unmoved(p, same, attach)
    ensures var q := Attached(attach, p, ranks); same(q[i - 1], q[i]) == same(p[i - 1], p[i])
  {
    assert same(attach(p[i - 1], ranks[i - 1]), p[i]) == same(p[i - 1], p[i]);
  }

  lemma CountersStep<T>(func: RankFunc, same: (T, T) -> bool, p: seq<T>, i: nat, rank: nat, dense: nat)
    requires i < |p| && Counted(same, p, i, rank, dense)
    ensures var starts := i > 0 && !same(p[i - 1], p[i]);
            var r, d := if starts then i + 1 else rank, if starts then dense + 1 else dense;
            && Counted(same, p, i + 1, r, d)
            && RankValue(func, p, same, i) == match func case RowNumber => i + 1 case Rank => r case DenseRank => d
  {
  }

  lemma RankRound<T>(func: RankFunc, same: (T, T) -> bool, attach: (T, nat) -> T, p: seq<T>, i: nat)
    requires i < |p| && Unmoved(p, same, attach) && RankedSoFar(func, same, attach, p, i, AfterRanks(func, same, attach, p, i))
    ensures RankedSoFar(func, same, attach, p, i + 1, AfterRanks(func, same, attach, p, i + 1))
  {
    var s, ranks := AfterRanks(func, same, attach, p, i), Ranks(func, p, same, i);
    if i > 0 { SameAsBefore(same, attach, p, i, ranks); }
    CountersStep(func, same, p, i, s.rank, s.dense);
    AttachedSnoc(attach, p, ranks, RankValue(func, p, same, i));
  }

  /** When no rank moves a row, the loop appends to each row its rank among the rows as they were. */
  lemma {:induction false} InPlaceIsRanked<T>(func: RankFunc, same: (T, T) -> bool, attach: (T, nat) -> T, p: seq<T>, n: nat)
    requires n <= |p| && Unmoved(p, same, attach)
    ensures RankedSoFar(func, same, attach, p, n, AfterRanks(func, same, attach, p, n))
  {
    if n == 0 {
      SameElements(Attached(attach, p, []), p);
    } else {
      InPlaceIsRanked(func, same, attach, p, n - 1);
      RankRound(func, same, attach, p, n - 1);
    }
  }

  // ----- partitions -----

  type PartKey<!T> = T -> Result<Bytes>

  predicate AllKeyed<T>(key: PartKey<T>, rows: seq<T>) {
    forall i :: 0 <= i < |rows| ==> key(rows[i]).Ok?
  }

  function Groups<T>(key: PartKey<T>, rows: seq<T>): map<Bytes, seq<T>>
    requires AllKeyed(key, rows)
  {
    if rows == [] then map[]
    else
      var n := |rows| - 1;
      var before, k := Groups(key, rows[..n]), key(rows[n]).value;
      before[k := (if k in before then before[k] else []) + [rows[n]]]
  }

  /** The rows of one partition, in input order. */
  function InGroup<T>(key: PartKey<T>, rows: seq<T>, k: Bytes): seq<T> {
    if rows == [] then []
    else InGroup(key, rows[..|rows| - 1], k) + if key(rows[|rows| - 1]) == Ok(k) then [rows[|rows| - 1]] else []
  }

  lemma {:induction false} GroupsExact<T>(key: PartKey<T>, rows: seq<T>, k: Bytes)
    requires AllKeyed(key, rows)
    ensures var g := Groups(key, rows);
            (k in g <==> InGroup(key, rows, k) != []) && (k in g ==> g[k] == InGroup(key, rows, k))
  {
    if rows != [] { GroupsExact(key, rows[..|rows| - 1], k); }
  }

  method PartitionRows<T>(key: PartKey<T>, rows: seq<T>) returns (r: Result<map<Bytes, seq<T>>>)
    ensures r.Ok? ==> AllKeyed(key, rows) && r.value == Groups(key, rows)
    ensures r.Err? ==> exists i :: 0 <= i < |rows| && AllKeyed(key, rows[..i]) && key(rows[i]) == Err(r.error)
  {
    var groups: map<Bytes, seq<T>> := map[];
    for i := 0 to |rows|
      invariant AllKeyed(key, rows[..i]) && groups == Groups(key, rows[..i])
    {
      TakeStep(rows, i);
      var k := key(rows[i]);
      if k.Err? { return Err(k.error); }
      groups := groups[k.value := (if k.value in groups then groups[k.value] else []) + [rows[i]]];
    }
    TakeAll(rows);
    r := Ok(groups);
  }

  /** The partitions one after another, in some order of their keys. */
  function Parts<T>(key: PartKey<T>, rows: seq<T>, order: seq<Bytes>): seq<T> {
    if order == [] then [] else Parts(key, rows, order[..|order| - 1]) + InGroup(key, rows, order[|order| - 1])
  }

  lemma InGroupSnoc<T>(key: PartKey<T>, rows: seq<T>, row: T, k: Bytes)
    ensures InGroup(key, rows + [row], k) == InGroup(key, rows, k) + if key(row) == Ok(k) then [row] else []
  {
    assert (rows + [row])[..|rows|] == rows;
  }

  lemma DistinctSplit(order: seq<Bytes>, k: Bytes)
    requires order != [] && Distinct(order)
    ensures var n := |order| - 1;
            Distinct(order[..n]) && (k in order <==> k in order[..n] || k == order[n]) && (k == order[n] ==> k !in order[..n])
  {
    TakeStep(order, |order| - 1);
    TakeAll(order);
  }

  lemma {:induction false} PartsAdd<T>(key: PartKey<T>, rows: seq<T>, row: T, k: Bytes, order: seq<Bytes>)
    requires key(row) == Ok(k) && Distinct(order)
    ensures multiset(Parts(key, rows + [row], order)) == multiset(Parts(key, rows, order)) + if k in order then multiset{row} else multiset{}
  {
    if order != [] {
      var n := |order| - 1;
      InGroupSnoc(key, rows, row, order[n]);
      DistinctSplit(order, k);
      PartsAdd(key, rows, row, k, order[..n]);
    }
  }

  lemma {:induction false} PartsNone<T>(key: PartKey<T>, order: seq<Bytes>)
    ensures Parts(key, [], order) == []
  {
    if order != [] { PartsNone(key, order[..|order| - 1]); }
  }

  /** Partitioning loses and repeats no row. */
  lemma {:induction false} PartsPermute<T>(key: PartKey<T>, rows: seq<T>, order: seq<Bytes>)
    requires Distinct(order) && AllKeyed(key, rows)
    requires forall i :: 0 <= i < |rows| ==> key(rows[i]).value in order
    ensures multiset(Parts(key, rows, order)) == multiset(rows)
  {
    if rows == [] {
      PartsNone(key, order);
    } else {
      var n := |rows| - 1;
      PartsPermute(key, rows[..n], order);
      PartsAdd(key, rows[..n], rows[n], key(rows[n]).value, order);
      assert rows == rows[..n] + [rows[n]];
    }
  }

  // ----- the ranking window -----

  /** Everything a ranking window is given, apart from the rows. */
  datatype Window<!T> = Window(func: RankFunc, key: PartKey<T>, le: (T, T) -> bool, attach: (T, nat) -> T)

  function AttachAll<T>(attach: (T, nat) -> T, p: seq<T>, ranks: seq<nat>): (r: seq<T>)
    requires |p| == |ranks|
    ensures |r| == |p|
    ensures forall i :: 0 <= i < |p| ==> r[i] == attach(p[i], ranks[i])
  {
    if p == [] then [] else AttachAll(attach, p[..|p| - 1], ranks[..|p| - 1]) + [attach(p[|p| - 1], ranks[|p| - 1])]
  }

  function InPlacePart<T>(win: Window<T>, part: seq<T>): (r: seq<T>) {
    var p := Sort(part, win.le);
    AfterRanks(win.func, Alike(win.le), win.attach, p, |p|).part
  }

  /** The partitions one after another, each sorted and ranked in place. */
  function InPlaceAll<T>(win: Window<T>, rows: seq<T>, order: seq<Bytes>): seq<T> {
    if order == [] then []
    else InPlaceAll(win, rows, order[..|order| - 1]) + InPlacePart(win, InGroup(win.key, rows, order[|order| - 1]))
  }

  /** Each row of the sorted partition with its rank in it. */
  function RankedPart<T>(win: Window<T>, part: seq<T>): (r: seq<T>) {
    var p := Sort(part, win.le);
    AttachAll(win.attach, p, Ranks(win.func, p, Alike(win.le), |p|))
  }

  function RankedAll<T>(win: Window<T>, rows: seq<T>, order: seq<Bytes>): seq<T> {
    if order == [] then []
    else RankedAll(win, rows, order[..|order| - 1]) + RankedPart(win, InGroup(win.key, rows, order[|order| - 1]))
  }

  /** A rank column does not change how two of the rows compare. */
  ghost predicate RankInvisible<T(!new)>(win: Window<T>, rows: seq<T>) {
    forall a, b, v {:trigger win.attach(a, v), win.le(a, b)} :: a in rows && b in rows ==>
      win.le(win.attach(a, v), b) == win.le(a, b) && win.le(b, win.attach(a, v)) == win.le(b, a)
  }

  lemma SortedUnmoved<T(!new)>(win: Window<T>, part: seq<T>)
    requires RankInvisible(win, part)
    ensures Unmoved(Sort(part, win.le), Alike(win.le), win.attach)
  {
    var p := Sort(part, win.le);
    SortPermutes(part, win.le);
    forall i, j, v: nat | 0 <= i < j < |p|
      ensures Alike(win.le)(win.attach(p[i], v), p[j]) == Alike(win.le)(p[i], p[j])
    {
      assert p[i] in multiset(part) && p[j] in multiset(part);
      assert win.le(p[i], p[j]) == win.le(win.attach(p[i], v), p[j]);
    }
  }

  method RankPart<T(0)>(win: Window<T>, part: seq<T>) returns (out: seq<T>)
    ensures out == InPlacePart(win, part)
  {
    var sorted := Sort(part, win.le);
    var p := new T[|sorted|](i requires 0 <= i < |sorted| => sorted[i]);
    assert p[..] == sorted;
    AssignRanks(win.func, Alike(win.le), win.attach, p);
    out := p[..];
  }

  lemma InPlacePartRanked<T(!new)>(win: Window<T>, part: seq<T>)
    requires RankInvisible(win, part)
    ensures InPlacePart(win, part) == RankedPart(win, part)
  {
    var p := Sort(part, win.le);
    var ranks := Ranks(win.func, p, Alike(win.le), |p|);
    SortedUnmoved(win, part);
    InPlaceIsRanked(win.func, Alike(win.le), win.attach, p, |p|);
    SameElements(Attached(win.attach, p, ranks), AttachAll(win.attach, p, ranks));
  }

  /** When ranks do not show in the order, the window gives every row its rank in its sorted partition. */
  lemma {:induction false} RanksAreStandard<T(!new)>(win: Window<T>, rows: seq<T>, order: seq<Bytes>)
    requires RankInvisible(win, rows)
    ensures InPlaceAll(win, rows, order) == RankedAll(win, rows, order)
  {
    if order != [] {
      var n := |order| - 1;
      RanksAreStandard(win, rows, order[..n]);
      GroupInvisible(win, rows, order[n]);
      InPlacePartRanked(win, InGroup(win.key, rows, order[n]));
    }
  }

  lemma {:induction false} InGroupIn<T>(key: PartKey<T>, rows: seq<T>, k: Bytes, x: T)
    requires x in InGroup(key, rows, k)
    ensures x in rows
  {
    var n := |rows| - 1;
    if x != rows[n] { InGroupIn(key, rows[..n], k, x); }
  }

  lemma GroupInvisible<T(!new)>(win: Window<T>, rows: seq<T>, k: Bytes)
    requires RankInvisible(win, rows)
    ensures RankInvisible(win, InGroup(win.key, rows, k))
  {
    forall x | x in InGroup(win.key, rows, k) ensures x in rows { InGroupIn(win.key, rows, k, x); }
  }

  /** Partition, sort each partition, rank its rows; `order` is the hash map's order of the partitions. */
  method RankWindow<T(0)>(win: Window<T>, ordered: bool, rows: seq<T>, order: seq<Bytes>) returns (r: Result<seq<T>>)
    requires AllKeyed(win.key, rows) ==> ListsGroups(win.key, rows, order)
    ensures !ordered ==> r == Err(UnsupportedExpr)
    ensures ordered && r.Ok? ==> AllKeyed(win.key, rows) && r.value == InPlaceAll(win, rows, order)
    ensures ordered && r.Err? ==> exists i :: 0 <= i < |rows| && AllKeyed(win.key, rows[..i]) && win.key(rows[i]) == Err(r.error)
  {
    if !ordered { return Err(UnsupportedExpr); }
    var groups := PartitionRows(win.key, rows);
    if groups.Err? { return Err(groups.error); }
    var out: seq<T> := [];
    for i := 0 to |order|
      invariant out == InPlaceAll(win, rows, order[..i])
    {
      TakeStep(order, i);
      assert order[i] in order;
      GroupsExact(win.key, rows, order[i]);
      var part := RankPart(win, groups.value[order[i]]);
      out := out + part;
    }
    TakeAll(order);
    r := Ok(out);
  }

  /** `order` lists every partition once. */
  ghost predicate ListsGroups<T>(key: PartKey<T>, rows: seq<T>, order: seq<Bytes>)
    requires AllKeyed(key, rows)
  {
    Distinct(order) && forall k :: k in order <==> k in Groups(key, rows)
  }

  // ----- what the ranking window returns -----

  function Mapped<T>(s: seq<T>, f: T -> T): seq<T> {
    if s == [] then [] else Mapped(s[..|s| - 1], f) + [f(s[|s| - 1])]
  }

  lemma {:induction false} MappedAppend<T>(a: seq<T>, b: seq<T>, f: T -> T)
    ensures Mapped(a + b, f) == Mapped(a, f) + Mapped(b, f)
  {
    if b == [] {
      assert a + b == a;
    } else {
      assert (a + b)[..|a + b| - 1] == a + b[..|b| - 1];
      MappedAppend(a, b[..|b| - 1], f);
    }
  }

  lemma {:induction false} DetachAll<T(!new)>(attach: (T, nat) -> T, detach: T -> T, p: seq<T>, ranks: seq<nat>)
    requires |p| == |ranks| && forall x, v :: detach(attach(x, v)) == x
    ensures Mapped(AttachAll(attach, p, ranks), detach) == p
  {
    if p != [] {
      var n := |p| - 1;
      DetachAll(attach, detach, p[..n], ranks[..n]);
      MappedAppend(AttachAll(attach, p[..n], ranks[..n]), [attach(p[n], ranks[n])], detach);
      assert p == p[..n] + [p[n]];
    }
  }

  lemma {:induction false} RankedAllRows<T(!new)>(win: Window<T>, detach: T -> T, rows: seq<T>, order: seq<Bytes>)
    requires forall x, v :: detach(win.attach(x, v)) == x
    ensures multiset(Mapped(RankedAll(win, rows, order), detach)) == multiset(Parts(win.key, rows, order))
  {
    if order != [] {
      var n := |order| - 1;
      var part := InGroup(win.key, rows, order[n]);
      var p := Sort(part, win.le);
      RankedAllRows(win, detach, rows, order[..n]);
      MappedAppend(RankedAll(win, rows, order[..n]), RankedPart(win, part), detach);
      DetachAll(win.attach, detach, p, Ranks(win.func, p, Alike(win.le), |p|));
      SortPermutes(part, win.le);
    }
  }

  /** Without the new column, the window returns the rows it was given. */
  lemma WindowKeepsRows<T(!new)>(win: Window<T>, detach: T -> T, rows: seq<T>, order: seq<Bytes>)
    requires AllKeyed(win.key, rows) && ListsGroups(win.key, rows, order)
    requires forall x, v :: detach(win.attach(x, v)) == x
    ensures multiset(Mapped(RankedAll(win, rows, order), detach)) == multiset(rows)
  {
    RankedAllRows(win, detach, rows, order);
    forall i | 0 <= i < |rows| ensures win.key(rows[i]).value in order { HasGroup(win.key, rows, i); }
    PartsPermute(win.key, rows, order);
  }

  lemma {:induction false} HasGroup<T>(key: PartKey<T>, rows: seq<T>, i: nat)
    requires AllKeyed(key, rows) && i < |rows|
    ensures key(rows[i]).value in Groups(key, rows)
  {
    if i < |rows| - 1 { HasGroup(key, rows[..|rows| - 1], i); }
  }

  lemma RankedAt<T(!new)>(win: Window<T>, part: seq<T>, i: nat)
    requires TotalPreorder(win.le) && i < |part|
    ensures var p := Sort(part, win.le);
            && |p| == |part| == |RankedPart(win, part)| && Ordered(p, win.le) && multiset(p) == multiset(part)
            && RankedPart(win, part)[i] == win.attach(p[i], RankValue(win.func, p, Alike(win.le), i))
  {
    var p := Sort(part, win.le);
    SortPermutes(part, win.le);
    SortOrdered(part, win.le);
    RanksAt(win.func, p, Alike(win.le), |p|, i);
  }

  /**
   * In each partition ROW_NUMBER counts 1..n, RANK is one more than the number of the partition's
   * rows strictly before, DENSE_RANK the number of order classes up to the row.
   */
  lemma WindowRanks<T(!new)>(win: Window<T>, part: seq<T>, i: nat)
    requires TotalPreorder(win.le) && i < |part|
    ensures var p := Sort(part, win.le);
            && |p| == |part| == |RankedPart(win, part)| && Ordered(p, win.le) && multiset(p) == multiset(part)
            && RankedPart(win, part)[i] == win.attach(p[i], match win.func
                 case RowNumber => i + 1
                 case Rank => 1 + CountLe(part, p[i], Strictly(win.le))
                 case DenseRank => Classes(p[..i + 1], win.le))
  {
    var p := Sort(part, win.le);
    RankedAt(win, part, i);
    match win.func
    case RowNumber =>
    case Rank =>
      RankExact(p, win.le, i);
      CountLePermutation(p, part, p[i], Strictly(win.le));
    case DenseRank =>
      DenseExact(p, win.le, i);
  }

  // ----- rows -----

  function PartitionBy(env: Env, exprs: seq<Expr>): PartKey<Row> {
    row => PartitionKeys.PartitionKey(env, exprs, row)
  }

  function RowWindow(env: Env, func: RankFunc, exprs: seq<Expr>, keys: SortKeys, output: Bytes): Window<Row> {
    Window(func, PartitionBy(env, exprs), RowOrder(env, keys), Push(output))
  }

  lemma KeepsSplit(row: Row, output: Bytes, keys: SortKeys)
    requires keys != []
    ensures KeepsKeys(row, output, keys)
       <==> (FindMatch(row, keys[0].0).Some? || !NameMatches(output, keys[0].0)) && KeepsKeys(row, output, keys[1..])
  {
    assert forall i :: 1 <= i < |keys| ==> keys[i] == keys[1..][i - 1];
  }

  lemma {:induction false} RankShows(env: Env, keys: SortKeys, a: Row, output: Bytes, v: nat)
    requires !KeepsKeys(a, output, keys)
    ensures Compare(env, keys, a + [(output, Integer(v))], a) != Same
  {
    KeepsSplit(a, output, keys);
    FindMatchAppend(a, (output, Integer(v)), keys[0].0);
    if FindMatch(a, keys[0].0).Some? || !NameMatches(output, keys[0].0) {
      CompareOnOrder(env, keys[0], a, a, a);
      RankShows(env, keys[1..], a, output, v);
    }
  }

  /**
   * The rank column is invisible to the order of the rows, whatever the ranks, if and only if on every
   * row each sort column is there or has another name.
   */
  lemma PushInvisible(env: Env, func: RankFunc, exprs: seq<Expr>, keys: SortKeys, output: Bytes, rows: seq<Row>)
    ensures RankInvisible(RowWindow(env, func, exprs, keys, output), rows) <==> forall a :: a in rows ==> KeepsKeys(a, output, keys)
  {
    var win := RowWindow(env, func, exprs, keys, output);
    if a :| a in rows && !KeepsKeys(a, output, keys) {
      RankShows(env, keys, a, output, 1);
      CompareReversed(env, keys, a, a);
      CompareReversed(env, keys, a + [(output, Integer(1))], a);
      assert win.attach(a, 1) == a + [(output, Integer(1))] && win.le(a, a);
    } else {
      forall a, b, v: nat | a in rows && b in rows
        ensures win.le(win.attach(a, v), b) == win.le(a, b) && win.le(b, win.attach(a, v)) == win.le(b, a)
      {
        CompareIgnores(env, keys, a, b, output, Integer(v));
        CompareReversed(env, keys, a, b);
        CompareReversed(env, keys, a + [(output, Integer(v))], b);
      }
    }
  }

  lemma TwoRounds<T>(same: (T, T) -> bool, attach: (T, nat) -> T, a: T, b: T)
    requires !same(attach(a, 1), b)
    ensures AfterRanks(Rank, same, attach, [a, b], 2).part == [attach(a, 1), attach(b, 2)]
  {
    var p := [a, b];
    assert AfterRanks(Rank, same, attach, p, 0) == Ranking(p, 1, 1);
    assert AfterRanks(Rank, same, attach, p, 1) == Ranking(p[0 := attach(a, 1)], 1, 1);
    assert p[0 := attach(a, 1)][1 := attach(b, 2)] == [attach(a, 1), attach(b, 2)];
  }

  /** `RANK() OVER (ORDER BY c) AS c` on two rows without `c`, which tie for rank 1: the second is given rank 2. */
  lemma RankMoves(env: Env, c: Bytes, d: Bytes, x: Bytes, y: Bytes)
    requires Bare(c) != Bare(d)
    ensures var win := RowWindow(env, Rank, [], [(c, true)], c);
            var a: Row, b: Row := [(d, Text(x))], [(d, Text(y))];
            && RankedPart(win, [a, b]) == [win.attach(a, 1), win.attach(b, 1)]
            && InPlacePart(win, [a, b]) == [win.attach(a, 1), win.attach(b, 2)]
  {
    var win := RowWindow(env, Rank, [], [(c, true)], c);
    var a: Row, b: Row := [(d, Text(x))], [(d, Text(y))];
    LacksColumn(d, c, x);
    LacksColumn(d, c, y);
    NothingToCompare(env, c, a, b);
    TieMoves(win, a, b);
  }

  lemma LacksColumn(d: Bytes, c: Bytes, x: Bytes)
    requires Bare(c) != Bare(d)
    ensures FindMatch([(d, Text(x))], c) == None
  {
    var row: Row := [(d, Text(x))];
    NameMatchesBare(d, c);
    assert row[1..] == [];
  }

  /** Two rows that tie until the first carries its rank. */
  lemma TieMoves<T>(win: Window<T>, a: T, b: T)
    requires win.func.Rank? && win.le(a, b) && win.le(b, a) && !win.le(b, win.attach(a, 1))
    ensures RankedPart(win, [a, b]) == [win.attach(a, 1), win.attach(b, 1)]
    ensures InPlacePart(win, [a, b]) == [win.attach(a, 1), win.attach(b, 2)]
  {
    var p, same := [a, b], Alike(win.le);
    SortFixed(p, win.le);
    TiedRanks(p, same);
    SameElements(AttachAll(win.attach, p, [1, 1]), [win.attach(a, 1), win.attach(b, 1)]);
    TwoRounds(same, win.attach, a, b);
  }

  lemma TiedRanks<T>(p: seq<T>, same: (T, T) -> bool)
    requires |p| == 2 && same(p[0], p[1])
    ensures Ranks(Rank, p, same, 2) == [1, 1]
  {
    assert RunStart(p, same, 0) == 0 && RunStart(p, same, 1) == 0;
    var none: seq<nat> := [];
    assert Ranks(Rank, p, same, 0) == none && none + [1] == [1];
    assert Ranks(Rank, p, same, 1) == [1] && [1] + [1] == [1, 1];
  }

  /** Rows without the sort column tie, until one of them carries a rank under its name. */
  lemma NothingToCompare(env: Env, c: Bytes, a: Row, b: Row)
    requires FindMatch(a, c) == None && FindMatch(b, c) == None
    ensures var keys := [(c, true)];
            && Compare(env, keys, a, b) == Same && Compare(env, keys, b, a) == Same
            && Compare(env, keys, b, a + [(c, Integer(1))]) == Greater
  {
    var keys := [(c, true)];
    FindMatchAppend(a, (c, Integer(1)), c);
    assert keys[1..] == [];
  }
}
