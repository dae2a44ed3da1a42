/** Window functions: framed sums and averages, computed in place. */
module WindowSums {
  import opened ByteStrings
  import opened Values
  import opened Columns
  import opened Expressions
  import opened Sorting
  import opened SortOrder
  import opened Windows

  // ----- frames and their sums -----

  datatype Bound = UnboundedPreceding | Preceding(n: nat) | CurrentRow | Following(n: nat) | UnboundedFollowing

  datatype Frame = Frame(start: Bound, end: Bound)

  datatype SumFunc = SumOver | AvgOver

  function BoundIndex(b: Bound, len: nat, i: nat): nat
    requires i < len
  {
    match b
    case UnboundedPreceding => 0
    case Preceding(n) => if n <= i then i - n else 0
    case CurrentRow => i
    case Following(n) => if i + n < len then i + n else len - 1
    case UnboundedFollowing => len - 1
  }

  /** The frame of a window without one: up to the row when it is ordered, else the whole partition. */
  function EffectiveFrame(frame: Option<Frame>, ordered: bool): Frame {
    if frame.Some? then frame.value
    else Frame(UnboundedPreceding, if ordered then CurrentRow else UnboundedFollowing)
  }

  /** Sum and count of the numbers; the first evaluation error is the result. */
  function Total<T>(num: T -> Result<Option<real>>, rows: seq<T>): Result<(real, nat)> {
    if rows == [] then Ok((0.0, 0))
    else
      var n := |rows| - 1;
      match Total(num, rows[..n])
      case Err(e) => Err(e)
      case Ok((sum, count)) => match num(rows[n])
        case Err(e) => Err(e)
        case Ok(None) => Ok((sum, count))
        case Ok(Some(x)) => Ok((sum + x, count + 1))
  }

  /** Whole numbers come out as integers, nothing at all as NULL. */
  function SumValue(func: SumFunc, sum: real, count: nat): Value {
    if count == 0 then Null
    else
      var v := if func.SumOver? then sum else sum / count as real;
      if v == v.Floor as real then Integer(v.Floor) else Float(v)
  }

  function ValueOf(func: SumFunc, total: Result<(real, nat)>): Result<Value> {
    match total
    case Err(e) => Err(e)
    case Ok((sum, count)) => Ok(SumValue(func, sum, count))
  }

  /** The window value of row `i`: an inverted frame panics, an evaluation error is passed on. */
  function SumAt<T>(func: SumFunc, num: T -> Result<Option<real>>, frame: Frame, p: seq<T>, i: nat): Result<Value>
    requires i < |p|
  {
    var s, e := BoundIndex(frame.start, |p|, i), BoundIndex(frame.end, |p|, i);
    if s > e + 1 then Err(Panic) else ValueOf(func, Total(num, p[s..e + 1]))
  }

  method FrameTotal<T>(num: T -> Result<Option<real>>, rows: seq<T>) returns (r: Result<(real, nat)>)
    ensures r == Total(num, rows)
  {
    var sum, count: nat := 0.0, 0;
    for i := 0 to |rows|
      invariant Total(num, rows[..i]) == Ok((sum, count))
    {
      TakeStep(rows, i);
      var v := num(rows[i]);
      if v.Err? {
        TotalStops(num, rows, i + 1);
        return Err(v.error);
      }
      if v.value.Some? { sum, count := sum + v.value.value, count + 1; }
    }
    TakeAll(rows);
    r := Ok((sum, count));
  }

  lemma {:induction false} TotalStops<T>(num: T -> Result<Option<real>>, rows: seq<T>, i: nat)
    requires i <= |rows| && Total(num, rows[..i]).Err?
    ensures Total(num, rows) == Total(num, rows[..i])
    decreases |rows| - i
  {
    if i == |rows| {
      TakeAll(rows);
    } else {
      TakeStep(rows, i);
      TotalStops(num, rows, i + 1);
    }
  }

  lemma {:induction false} TotalSame<T>(num: T -> Result<Option<real>>, a: seq<T>, b: seq<T>)
    requires |a| == |b| && forall i :: 0 <= i < |a| ==> num(a[i]) == num(b[i])
    ensures Total(num, a) == Total(num, b)
  {
    if a != [] { TotalSame(num, a[..|a| - 1], b[..|b| - 1]); }
  }

  /** A window value does not change what the argument evaluates to on a row. */
  ghost predicate ValueInvisible<T>(num: T -> Result<Option<real>>, attach: (T, Value) -> T, rows: seq<T>) {
    forall i, v {:trigger num(attach(rows[i], v))} :: 0 <= i < |rows| ==> num(attach(rows[i], v)) == num(rows[i])
  }

  method SumRow<T>(func: SumFunc, num: T -> Result<Option<real>>, frame: Frame, rows: seq<T>, i: nat) returns (r: Result<Value>)
    requires i < |rows|
    ensures r == SumAt(func, num, frame, rows, i)
  {
    var s, e := BoundIndex(frame.start, |rows|, i), BoundIndex(frame.end, |rows|, i);
    if s > e + 1 { return Err(Panic); }
    var total := FrameTotal(num, rows[s..e + 1]);
    if total.Err? { return Err(total.error); }
    r := Ok(SumValue(func, total.value.0, total.value.1));
  }

  lemma SumAtSame<T>(func: SumFunc, num: T -> Result<Option<real>>, frame: Frame, a: seq<T>, b: seq<T>, i: nat)
    requires |a| == |b| && i < |a| && forall j :: 0 <= j < |a| ==> num(a[j]) == num(b[j])
    ensures SumAt(func, num, frame, a, i) == SumAt(func, num, frame, b, i)
  {
    var s, e := BoundIndex(frame.start, |a|, i), BoundIndex(frame.end, |a|, i);
    if s <= e + 1 { TotalSame(num, a[s..e + 1], b[s..e + 1]); }
  }

  /** Ordered and without a frame, SUM is the running total up to the row; unordered, the partition's total. */
  lemma DefaultFrame<T>(func: SumFunc, num: T -> Result<Option<real>>, p: seq<T>, i: nat, ordered: bool)
    requires i < |p|
    ensures SumAt(func, num, EffectiveFrame(None, ordered), p, i) == ValueOf(func, Total(num, if ordered then p[..i + 1] else p))
  {
    var frame := EffectiveFrame(None, ordered);
    var part := if ordered then p[..i + 1] else p;
    assert BoundIndex(frame.start, |p|, i) == 0 && BoundIndex(frame.end, |p|, i) + 1 == |part|;
    SameElements(p[0..|part|], part);
    FrameIs(func, num, frame, p, i, part);
  }

  lemma FrameIs<T>(func: SumFunc, num: T -> Result<Option<real>>, frame: Frame, p: seq<T>, i: nat, part: seq<T>)
    requires i < |p| && BoundIndex(frame.start, |p|, i) == 0 && BoundIndex(frame.end, |p|, i) + 1 == |part| <= |p|
    requires p[0..|part|] == part
    ensures SumAt(func, num, frame, p, i) == ValueOf(func, Total(num, part))
  {
  }

  // ----- in place -----

  /** What is summed, how a value is attached to its row, over which frame. */
  datatype Summing<!T> = Summing(func: SumFunc, num: T -> Result<Option<real>>, attach: (T, Value) -> T, frame: Frame)

  function ValueAt<T>(w: Summing<T>, p: seq<T>, i: nat): Result<Value>
    requires i < |p|
  {
    SumAt(w.func, w.num, w.frame, p, i)
  }

  /** The partition after `n` rounds: each sums rows of which the earlier ones already carry their value. */
  function AfterSums<T>(w: Summing<T>, p: seq<T>, n: nat): (r: Result<seq<T>>)
    requires n <= |p|
    ensures r.Ok? ==> |r.value| == |p|
  {
    if n == 0 then Ok(p)
    else match AfterSums(w, p, n - 1)
      case Err(e) => Err(e)
      case Ok(q) => match ValueAt(w, q, n - 1)
        case Err(e) => Err(e)
        case Ok(v) => Ok(q[n - 1 := w.attach(q[n - 1], v)])
  }

  lemma {:induction false} AfterStops<T>(w: Summing<T>, p: seq<T>, i: nat, n: nat)
    requires i <= n <= |p| && AfterSums(w, p, i).Err?
    ensures AfterSums(w, p, n) == AfterSums(w, p, i)
  {
    if i < n { AfterStops(w, p, i, n - 1); }
  }

  /** Round `i` on the partition as the earlier rounds left it. */
  lemma AfterRound<T>(w: Summing<T>, p: seq<T>, q: seq<T>, i: nat, value: Result<Value>)
    requires i < |p| == |q| && AfterSums(w, p, i) == Ok(q) && value == SumAt(w.func, w.num, w.frame, q, i)
    ensures value.Ok? ==> AfterSums(w, p, i + 1) == Ok(q[i := w.attach(q[i], value.value)])
    ensures value.Err? ==> AfterSums(w, p, |p|) == Err(value.error)
  {
    if value.Err? { AfterStops(w, p, i + 1, |p|); }
  }

  method AssignSums<T>(w: Summing<T>, part: array<T>) returns (r: Result<()>)
    modifies part
    ensures AfterSums(w, old(part[..]), part.Length) == if r.Ok? then Ok(part[..]) else Err(r.error)
  {
    ghost var p := part[..];
    for i := 0 to part.Length
      invariant AfterSums(w, p, i) == Ok(part[..])
    {
      var rows := part[..];
      var value := SumRow(w.func, w.num, w.frame, rows, i);
      AfterRound(w, p, rows, i, value);
      if value.Err? { return Err(value.error); }
      part[i] := w.attach(rows[i], value.value);
      assert part[..] == rows[i := w.attach(rows[i], value.value)];
    }
    r := Ok(());
  }

  /** The window values of the first `n` rows, on the rows as they were, or the first error. */
  function Framed<T>(w: Summing<T>, p: seq<T>, n: nat): (r: Result<seq<Value>>)
    requires n <= |p|
    ensures r.Ok? ==> |r.value| == n
  {
    if n == 0 then Ok([])
    else match Framed(w, p, n - 1)
      case Err(e) => Err(e)
      case Ok(values) => match ValueAt(w, p, n - 1)
        case Err(e) => Err(e)
        case Ok(v) => Ok(values + [v])
  }

  lemma AttachedValue<T>(w: Summing<T>, p: seq<T>, values: seq<Value>, i: nat)
    requires |values| <= |p| && i < |p| && ValueInvisible(w.num, w.attach, p)
    ensures ValueAt(w, Attached(w.attach, p, values), i) == ValueAt(w, p, i)
  {
    var q := Attached(w.attach, p, values);
    forall j | 0 <= j < |p| ensures w.num(q[j]) == w.num(p[j]) {
      if j < |values| { assert w.num(w.attach(p[j], values[j])) == w.num(p[j]); }
    }
    SumAtSame(w.func, w.num, w.frame, q, p, i);
  }

  function AttachAllOf<T>(w: Summing<T>, p: seq<T>, values: Result<seq<Value>>): Result<seq<T>>
    requires values.Ok? ==> |values.value| <= |p|
  {
    match values case Err(e) => Err(e) case Ok(vs) => Ok(Attached(w.attach, p, vs))
  }

  lemma InPlaceRound<T>(w: Summing<T>, p: seq<T>, i: nat, values: seq<Value>)
    requires i < |p| && ValueInvisible(w.num, w.attach, p) && Framed(w, p, i) == Ok(values)
    requires AfterSums(w, p, i) == Ok(Attached(w.attach, p, values))
    ensures AfterSums(w, p, i + 1) == AttachAllOf(w, p, Framed(w, p, i + 1))
  {
    var q, value := Attached(w.attach, p, values), ValueAt(w, p, i);
    AttachedValue(w, p, values, i);
    assert q[i] == p[i];
    if value.Ok? {
      AttachedSnoc(w.attach, p, values, value.value);
      assert Framed(w, p, i + 1) == Ok(values + [value.value]);
    } else {
      assert Framed(w, p, i + 1) == Err(value.error);
    }
  }

  /** When no value shows in the argument, the rounds attach the values of the original rows, or stop at the first error. */
  lemma {:induction false} InPlaceIsFramed<T>(w: Summing<T>, p: seq<T>, n: nat)
    requires n <= |p| && ValueInvisible(w.num, w.attach, p)
    ensures AfterSums(w, p, n) == AttachAllOf(w, p, Framed(w, p, n))
  {
    if n == 0 {
      assert Attached(w.attach, p, []) == p;
    } else {
      InPlaceIsFramed(w, p, n - 1);
      var before := Framed(w, p, n - 1);
      if before.Ok? {
        InPlaceRound(w, p, n - 1, before.value);
      } else {
        assert AfterSums(w, p, n) == Err(before.error);
      }
    }
  }

  // ----- the summing window -----

  datatype SumWindow<!T> = SumWindow(key: PartKey<T>, le: (T, T) -> bool, sums: Summing<T>)

  function SummedPart<T>(win: SumWindow<T>, part: seq<T>): Result<seq<T>> {
    var p := Sort(part, win.le);
    AfterSums(win.sums, p, |p|)
  }

  /** The partitions one after another; the first error ends the query. */
  function SummedAll<T>(win: SumWindow<T>, rows: seq<T>, order: seq<Bytes>): Result<seq<T>> {
    if order == [] then Ok([])
    else
      var n := |order| - 1;
      match SummedAll(win, rows, order[..n])
      case Err(e) => Err(e)
      case Ok(before) => match SummedPart(win, InGroup(win.key, rows, order[n]))
        case Err(e) => Err(e)
        case Ok(part) => Ok(before + part)
  }

  lemma {:induction false} SummedStops<T>(win: SumWindow<T>, rows: seq<T>, order: seq<Bytes>, i: nat)
    requires i <= |order| && SummedAll(win, rows, order[..i]).Err?
    ensures SummedAll(win, rows, order) == SummedAll(win, rows, order[..i])
    decreases |order| - i
  {
    if i == |order| {
      TakeAll(order);
    } else {
      TakeStep(order, i);
      SummedStops(win, rows, order, i + 1);
    }
  }

  method SumPart<T(0)>(win: SumWindow<T>, part: seq<T>) returns (r: Result<seq<T>>)
    ensures r == SummedPart(win, part)
  {
    var sorted := Sort(part, win.le);
    var p := new T[|sorted|](i requires 0 <= i < |sorted| => sorted[i]);
    assert p[..] == sorted;
    var done := AssignSums(win.sums, p);
    r := if done.Ok? then Ok(p[..]) else Err(done.error);
  }

  /** Partition, sort each partition, sum over frames in place; `order` is the hash map's order of the partitions. */
  method ApplySums<T(0)>(win: SumWindow<T>, rows: seq<T>, order: seq<Bytes>) returns (r: Result<seq<T>>)
    requires AllKeyed(win.key, rows) ==> ListsGroups(win.key, rows, order)
    ensures AllKeyed(win.key, rows) ==> r == SummedAll(win, rows, order)
    ensures !AllKeyed(win.key, rows) ==> exists i :: 0 <= i < |rows| && AllKeyed(win.key, rows[..i]) && r.Err? && win.key(rows[i]) == Err(r.error)
  {
    var groups := PartitionRows(win.key, rows);
    if groups.Err? { return Err(groups.error); }
    var out: seq<T> := [];
    for i := 0 to |order|
      invariant SummedAll(win, rows, order[..i]) == Ok(out)
    {
      TakeStep(order, i);
      assert order[i] in order;
      GroupsExact(win.key, rows, order[i]);
      var part := SumPart(win, groups.value[order[i]]);
      if part.Err? {
        SummedStops(win, rows, order, i + 1);
        return Err(part.error);
      }
      out := out + part.value;
    }
    TakeAll(order);
    r := Ok(out);
  }

  // ----- what the summing window returns -----

  /** Each partition sorted, with the framed value of every row. */
  function FramedAll<T>(win: SumWindow<T>, rows: seq<T>, order: seq<Bytes>): Result<seq<T>> {
    if order == [] then Ok([])
    else
      var n := |order| - 1;
      var p := Sort(InGroup(win.key, rows, order[n]), win.le);
      match FramedAll(win, rows, order[..n])
      case Err(e) => Err(e)
      case Ok(before) => match Framed(win.sums, p, |p|)
        case Err(e) => Err(e)
        case Ok(values) => Ok(before + Attached(win.sums.attach, p, values))
  }

  lemma SortedInvisible<T>(win: SumWindow<T>, rows: seq<T>, k: Bytes)
    requires ValueInvisible(win.sums.num, win.sums.attach, rows)
    ensures ValueInvisible(win.sums.num, win.sums.attach, Sort(InGroup(win.key, rows, k), win.le))
  {
    var part := InGroup(win.key, rows, k);
    var p := Sort(part, win.le);
    SortPermutes(part, win.le);
    forall i, v | 0 <= i < |p| ensures win.sums.num(win.sums.attach(p[i], v)) == win.sums.num(p[i]) {
      assert p[i] in multiset(part);
      InGroupIn(win.key, rows, k, p[i]);
      var j :| 0 <= j < |rows| && rows[j] == p[i];
      assert win.sums.num(win.sums.attach(rows[j], v)) == win.sums.num(rows[j]);
    }
  }

  /** When no value shows in the argument, every row gets the framed value of its sorted partition. */
  lemma {:induction false} SumsAreFramed<T>(win: SumWindow<T>, rows: seq<T>, order: seq<Bytes>)
    requires ValueInvisible(win.sums.num, win.sums.attach, rows)
    ensures SummedAll(win, rows, order) == FramedAll(win, rows, order)
  {
    if order != [] {
      var n := |order| - 1;
      var p := Sort(InGroup(win.key, rows, order[n]), win.le);
      SumsAreFramed(win, rows, order[..n]);
      SortedInvisible(win, rows, order[n]);
      InPlaceIsFramed(win.sums, p, |p|);
    }
  }

  lemma {:induction false} AfterDetached<T(!new)>(w: Summing<T>, detach: T -> T, p: seq<T>, n: nat)
    requires n <= |p| && AfterSums(w, p, n).Ok? && forall x, v :: detach(w.attach(x, v)) == x
    ensures var q := AfterSums(w, p, n).value;
            (forall i :: 0 <= i < n ==> detach(q[i]) == p[i]) && (forall i :: n <= i < |p| ==> q[i] == p[i])
  {
    if n > 0 { AfterDetached(w, detach, p, n - 1); }
  }

  lemma {:induction false} MappedAt<T>(q: seq<T>, p: seq<T>, f: T -> T)
    requires |q| == |p| && forall i :: 0 <= i < |p| ==> f(q[i]) == p[i]
    ensures Mapped(q, f) == p
  {
    if p != [] { MappedAt(q[..|q| - 1], p[..|p| - 1], f); }
  }

  lemma {:induction false} SummedRows<T(!new)>(win: SumWindow<T>, detach: T -> T, rows: seq<T>, order: seq<Bytes>)
    requires SummedAll(win, rows, order).Ok? && forall x, v :: detach(win.sums.attach(x, v)) == x
    ensures multiset(Mapped(SummedAll(win, rows, order).value, detach)) == multiset(Parts(win.key, rows, order))
  {
    if order != [] {
      var n := |order| - 1;
      var part := InGroup(win.key, rows, order[n]);
      var p := Sort(part, win.le);
      SummedRows(win, detach, rows, order[..n]);
      AfterDetached(win.sums, detach, p, |p|);
      MappedAt(SummedPart(win, part).value, p, detach);
      MappedAppend(SummedAll(win, rows, order[..n]).value, SummedPart(win, part).value, detach);
      SortPermutes(part, win.le);
    }
  }

  /** Whatever the sums are, without the new column the window returns the rows it was given. */
  lemma SumsKeepRows<T(!new)>(win: SumWindow<T>, detach: T -> T, rows: seq<T>, order: seq<Bytes>)
    requires AllKeyed(win.key, rows) && ListsGroups(win.key, rows, order)
    requires SummedAll(win, rows, order).Ok? && forall x, v :: detach(win.sums.attach(x, v)) == x
    ensures multiset(Mapped(SummedAll(win, rows, order).value, detach)) == multiset(rows)
  {
    SummedRows(win, detach, rows, order);
    forall i | 0 <= i < |rows| ensures win.key(rows[i]).value in order { HasGroup(win.key, rows, i); }
    PartsPermute(win.key, rows, order);
  }

  // ----- rows -----

  function ArgNumber(env: Env, arg: Expr, row: Row): Result<Option<real>> {
    match Eval(env, arg, row) case Err(e) => Err(e) case Ok(v) => Ok(Numeric(env, v))
  }

  function WithValue(row: Row, output: Bytes, v: Value): Row {
    row + [(output, v)]
  }

  /** `SUM(arg) OVER (...) AS output`, or AVG. */
  function SumOf(env: Env, func: SumFunc, arg: Expr, output: Bytes, frame: Frame): Summing<Row> {
    Summing(func, row => ArgNumber(env, arg, row), (row, v) => WithValue(row, output, v), frame)
  }

  /** A new column whose bare name the argument does not mention is invisible to it. */
  lemma ArgumentUnaffected(env: Env, e: Expr, row: Row, output: Bytes, v: Value, bares: set<Bytes>)
    requires Covers(bares, AllColumns(e)) && Bare(output) !in bares
    ensures Eval(env, e, row + [(output, v)]) == Eval(env, e, row)
  {
    EvalLocal(env, e, row, bares);
    EvalLocal(env, e, row + [(output, v)], bares);
    KeepAppend(row, [(output, v)], bares);
    assert [(output, v)][1..] == [];
    assert KeepBare([(output, v)], bares) == [];
    assert KeepBare(row, bares) + [] == KeepBare(row, bares);
  }

  /** So a window whose name the argument does not mention attaches framed values. */
  lemma ArgumentInvisible(env: Env, func: SumFunc, arg: Expr, output: Bytes, frame: Frame, rows: seq<Row>, bares: set<Bytes>)
    requires Covers(bares, AllColumns(arg)) && Bare(output) !in bares
    ensures var w := SumOf(env, func, arg, output, frame); ValueInvisible(w.num, w.attach, rows)
  {
    var w := SumOf(env, func, arg, output, frame);
    forall i, v | 0 <= i < |rows| ensures w.num(w.attach(rows[i], v)) == w.num(rows[i]) {
      ArgumentUnaffected(env, arg, rows[i], output, v, bares);
    }
  }

  /** `SUM(arg) OVER (PARTITION BY exprs ORDER BY keys) AS output` on rows. */
  function RowSums(env: Env, sums: Summing<Row>, exprs: seq<Expr>, keys: SortKeys): SumWindow<Row> {
    SumWindow(PartitionBy(env, exprs), RowOrder(env, keys), sums)
  }

  /** The window is right on all rows when its name is not a column that the argument mentions. */
  lemma RowSumsFramed(env: Env, func: SumFunc, arg: Expr, output: Bytes, frame: Frame, exprs: seq<Expr>, keys: SortKeys,
                      rows: seq<Row>, order: seq<Bytes>, bares: set<Bytes>)
    requires Covers(bares, AllColumns(arg)) && Bare(output) !in bares
    ensures var win := RowSums(env, SumOf(env, func, arg, output, frame), exprs, keys);
            SummedAll(win, rows, order) == FramedAll(win, rows, order)
  {
    var win := RowSums(env, SumOf(env, func, arg, output, frame), exprs, keys);
    ArgumentInvisible(env, func, arg, output, frame, rows, bares);
    SumsAreFramed(win, rows, order);
  }

  lemma ShadowedColumn(row: Row, c: Bytes, v: Value)
    ensures EvalColumn(None, c, row + [(c, v)]) == if c in Names(row) then EvalColumn(None, c, row) else Ok(v)
  {
    LookupAppend(row, (c, v), c);
    LookupFound(row, c);
  }

  /** What the argument `c` is once the row carries the window value `v` under the name `c`. */
  lemma ShadowedNumber(env: Env, func: SumFunc, c: Bytes, frame: Frame, row: Row, v: Value)
    ensures var w := SumOf(env, func, Column(None, c), c, frame);
            w.num(w.attach(row, v)) == if c in Names(row) then w.num(row) else Ok(Numeric(env, v))
  {
    ShadowedColumn(row, c, v);
  }

  /**
   * `SUM(c) OVER (...) AS c`: the new column is invisible to the argument, whatever its values, if
   * and only if every row has a field named exactly `c`. Rows that hold `c` only under a qualified
   * name are summed again by their window value.
   */
  lemma OutputShadows(env: Env, func: SumFunc, c: Bytes, frame: Frame, rows: seq<Row>)
    ensures var w := SumOf(env, func, Column(None, c), c, frame);
            ValueInvisible(w.num, w.attach, rows) <==> forall i :: 0 <= i < |rows| ==> c in Names(rows[i])
  {
    var w := SumOf(env, func, Column(None, c), c, frame);
    if i :| 0 <= i < |rows| && c !in Names(rows[i]) {
      ShadowedNumber(env, func, c, frame, rows[i], Integer(0));
      ShadowedNumber(env, func, c, frame, rows[i], Integer(1));
      assert w.num(w.attach(rows[i], Integer(0))) != w.num(w.attach(rows[i], Integer(1)));
    } else {
      forall i, v | 0 <= i < |rows| ensures w.num(w.attach(rows[i], v)) == w.num(rows[i]) {
        ShadowedNumber(env, func, c, frame, rows[i], v);
      }
    }
  }

  lemma TotalTwo<T>(w: Summing<T>, a: T, b: T, x: real, y: real, i: nat)
    requires w.func.SumOver? && w.frame == EffectiveFrame(None, false) && i < 2
    requires w.num(a) == Ok(Some(x)) && w.num(b) == Ok(Some(y))
    ensures ValueAt(w, [a, b], i) == Ok(SumValue(SumOver, x + y, 2))
  {
    var p := [a, b];
    DefaultFrame(w.func, w.num, p, i, false);
    assert p[..1] == [a] && [a][..0] == [];
    assert Total(w.num, [a][..0]) == Ok((0.0, 0));
    assert Total(w.num, [a]) == Ok((x, 1));
  }

  lemma TwoRounds<T>(w: Summing<T>, a: T, b: T, u: Value, v: Value)
    requires ValueAt(w, [a, b], 0) == Ok(u) && ValueAt(w, [w.attach(a, u), b], 1) == Ok(v)
    ensures AfterSums(w, [a, b], 2) == Ok([w.attach(a, u), w.attach(b, v)])
  {
    var p := [a, b];
    AfterRound(w, p, p, 0, Ok(u));
    var q := p[0 := w.attach(a, u)];
    assert q == [w.attach(a, u), b];
    AfterRound(w, p, q, 1, Ok(v));
    assert q[1 := w.attach(b, v)] == [w.attach(a, u), w.attach(b, v)];
  }

  lemma FramedTwo<T>(w: Summing<T>, p: seq<T>, u: Value, v: Value)
    requires |p| == 2 && ValueAt(w, p, 0) == Ok(u) && ValueAt(w, p, 1) == Ok(v)
    ensures Framed(w, p, 2) == Ok([u, v])
  {
    var none: seq<Value> := [];
    assert Framed(w, p, 0) == Ok(none) && none + [u] == [u];
    assert Framed(w, p, 1) == Ok([u]) && [u] + [v] == [u, v];
  }

  lemma SumNumber(env: Env, sum: real)
    ensures Numeric(env, SumValue(SumOver, sum, 2)) == Some(sum)
  {
  }

  lemma QualifiedNumber(env: Env, func: SumFunc, t: Bytes, c: Bytes, frame: Frame, a: Bytes, x: real)
    requires !Dotted(c) && env.number(a) == Some(x)
    ensures var row: Row := [(Qualify(t, c), Text(a))];
            c !in Names(row) && SumOf(env, func, Column(None, c), c, frame).num(row) == Ok(Some(x))
  {
    var row: Row := [(Qualify(t, c), Text(a))];
    assert |Qualify(t, c)| > |c|;
    BareAfterDot(t, c);
    assert row[1..] == [] && Qualify(t, c)[|t|] == DOT;
    assert Lookup(row, c) == None;
    assert SuffixMatches(row, c) == [Text(a)];
  }

  /**
   * `SUM(c) OVER () AS c` on two rows that hold `c` only as `t.c`, with `x` and `y`: the second row is
   * given `x + 2y`, which is the partition's sum if and only if `y` is zero.
   */
  lemma ShadowedSum(env: Env, t: Bytes, c: Bytes, a: Bytes, b: Bytes, x: real, y: real)
    requires !Dotted(c) && env.number(a) == Some(x) && env.number(b) == Some(y)
    ensures var w := SumOf(env, SumOver, Column(None, c), c, EffectiveFrame(None, false));
            var p: seq<Row> := [[(Qualify(t, c), Text(a))], [(Qualify(t, c), Text(b))]];
            var sum, wrong := SumValue(SumOver, x + y, 2), SumValue(SumOver, x + y + y, 2);
            && Framed(w, p, 2) == Ok([sum, sum])
            && AfterSums(w, p, 2) == Ok([p[0] + [(c, sum)], p[1] + [(c, wrong)]])
            && (sum == wrong <==> y == 0.0)
  {
    var w := SumOf(env, SumOver, Column(None, c), c, EffectiveFrame(None, false));
    var p: seq<Row> := [[(Qualify(t, c), Text(a))], [(Qualify(t, c), Text(b))]];
    var sum, wrong := SumValue(SumOver, x + y, 2), SumValue(SumOver, x + y + y, 2);
    QualifiedNumber(env, SumOver, t, c, w.frame, a, x);
    QualifiedNumber(env, SumOver, t, c, w.frame, b, y);
    TotalTwo(w, p[0], p[1], x, y, 0);
    TotalTwo(w, p[0], p[1], x, y, 1);
    SumNumber(env, x + y);
    SumNumber(env, x + y + y);
    ShadowedNumber(env, SumOver, c, w.frame, p[0], sum);
    TotalTwo(w, w.attach(p[0], sum), p[1], x + y, y, 1);
    TwoRounds(w, p[0], p[1], sum, wrong);
    FramedTwo(w, p, sum, sum);
  }
}
