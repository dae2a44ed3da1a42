/** Hash aggregation: accumulators, grouping, and the fold of filtered rows into groups. */
module Aggregation {
  import opened ByteStrings
  import opened Values
  import opened Columns
  import opened Expressions

  datatype AggFunc =
    | CountStar
    | CountCol(col: Bytes)
    | Sum(col: Bytes)
    | Avg(col: Bytes)
    | Min(col: Bytes)
    | Max(col: Bytes)

  datatype AggSlot = AggSlot(countStar: nat, countCol: nat, sum: real, sumCount: nat, min: Option<real>, max: Option<real>)

  const EMPTY_SLOT := AggSlot(0, 0, 0.0, 0, None, None)

  /** An aggregate with its output name. */
  type Agg = (Bytes, AggFunc)

  type GroupKey = seq<(Bytes, Bytes)>
  type Groups = map<GroupKey, seq<AggSlot>>

  function RowValue(row: Row, col: Bytes): Value {
    match FindMatch(row, col) case Some(v) => v case None => Null
  }

  function NumericCell(env: Env, v: Value): Option<real> {
    match v
    case Integer(n) => Some(n as real)
    case Float(x) => Some(x)
    case Text(t) => env.number(t)
    case _ => None
  }

  function Update(env: Env, s: AggSlot, f: AggFunc, row: Row): AggSlot {
    match f
    case CountStar => s.(countStar := s.countStar + 1)
    case CountCol(c) => if RowValue(row, c).Null? then s else s.(countCol := s.countCol + 1)
    case Min(c) => (
      match NumericCell(env, RowValue(row, c))
      case None => s
      case Some(x) => s.(min := Some(if s.min.Some? && s.min.value < x then s.min.value else x)))
    case Max(c) => (
      match NumericCell(env, RowValue(row, c))
      case None => s
      case Some(x) => s.(max := Some(if s.max.Some? && s.max.value > x then s.max.value else x)))
    case _ => (
      match NumericCell(env, RowValue(row, f.col))
      case None => s
      case Some(x) => s.(sum := s.sum + x, sumCount := s.sumCount + 1))
  }

  function KeyOf(env: Env, row: Row, groupBy: seq<Bytes>): (k: GroupKey)
    ensures |k| == |groupBy|
  {
    seq(|groupBy|, i requires 0 <= i < |groupBy| => (groupBy[i], AsBytes(env, RowValue(row, groupBy[i]))))
  }

  function FreshSlots(aggs: seq<Agg>): (s: seq<AggSlot>)
    ensures |s| == |aggs|
  {
    seq(|aggs|, i => EMPTY_SLOT)
  }

  function UpdateSlots(env: Env, slots: seq<AggSlot>, aggs: seq<Agg>, row: Row): (s: seq<AggSlot>)
    requires |slots| == |aggs|
    ensures |s| == |aggs|
  {
    seq(|aggs|, i requires 0 <= i < |aggs| => Update(env, slots[i], aggs[i].1, row))
  }

  predicate GroupsOk(groups: Groups, aggs: seq<Agg>) {
    forall k :: k in groups ==> |groups[k]| == |aggs|
  }

  function FoldRow(env: Env, groups: Groups, row: Row, groupBy: seq<Bytes>, aggs: seq<Agg>): (g: Groups)
    requires GroupsOk(groups, aggs)
    ensures GroupsOk(g, aggs)
  {
    var key := KeyOf(env, row, groupBy);
    groups[key := UpdateSlots(env, if key in groups then groups[key] else FreshSlots(aggs), aggs, row)]
  }

  function Keeps(env: Env, pred: Option<Expr>, row: Row): Result<bool> {
    if pred.None? then Ok(true) else EvalPredicate(env, pred.value, row)
  }

  /** Filter rows in order and fold the kept ones; the first predicate error is the result. */
  function FoldRows(env: Env, rows: seq<Row>, pred: Option<Expr>, groupBy: seq<Bytes>, aggs: seq<Agg>): (r: Result<Groups>)
    ensures r.Ok? ==> GroupsOk(r.value, aggs)
  {
    if rows == [] then Ok(map[])
    else
      var n := |rows| - 1;
      match FoldRows(env, rows[..n], pred, groupBy, aggs)
      case Err(e) => Err(e)
      case Ok(groups) => match Keeps(env, pred, rows[n])
        case Err(e) => Err(e)
        case Ok(keep) => Ok(if keep then FoldRow(env, groups, rows[n], groupBy, aggs) else groups)
  }

  /** A global aggregate over no rows still yields one group. */
  function WithGlobal(groups: Groups, groupBy: seq<Bytes>, aggs: seq<Agg>): Groups {
    if groups == map[] && groupBy == [] then map[[] := FreshSlots(aggs)] else groups
  }

  /** The aggregate of materialised rows. */
  function Aggregate(env: Env, rows: seq<Row>, pred: Option<Expr>, groupBy: seq<Bytes>, aggs: seq<Agg>): Result<Groups> {
    match FoldRows(env, rows, pred, groupBy, aggs)
    case Err(e) => Err(e)
    case Ok(groups) => Ok(WithGlobal(groups, groupBy, aggs))
  }

  /** An error part-way through the rows is the result of the fold. */
  lemma {:induction false} FoldStops(env: Env, rows: seq<Row>, pred: Option<Expr>, groupBy: seq<Bytes>, aggs: seq<Agg>, i: nat)
    requires i <= |rows| && FoldRows(env, rows[..i], pred, groupBy, aggs).Err?
    ensures FoldRows(env, rows, pred, groupBy, aggs) == FoldRows(env, rows[..i], pred, groupBy, aggs)
    decreases |rows| - i
  {
    if i == |rows| {
      TakeAll(rows);
    } else {
      TakeStep(rows, i);
      FoldStops(env, rows, pred, groupBy, aggs, i + 1);
    }
  }

  /** Filtering inside the fold is the filter operator followed by a fold without a predicate. */
  lemma {:induction false} FoldAfterFilter(env: Env, rows: seq<Row>, pred: Option<Expr>, groupBy: seq<Bytes>, aggs: seq<Agg>)
    ensures FoldRows(env, rows, pred, groupBy, aggs)
         == match FilterWhere(env, rows, pred)
            case Err(e) => Err(e)
            case Ok(kept) => FoldRows(env, kept, None, groupBy, aggs)
  {
    if rows != [] && pred.Some? {
      var n := |rows| - 1;
      FoldAfterFilter(env, rows[..n], pred, groupBy, aggs);
      var kept := FilterWhere(env, rows[..n], pred);
      if kept.Ok? { FoldSnoc(env, kept.value, rows[n], groupBy, aggs); }
    }
  }

  lemma {:induction false} FoldSucceeds(env: Env, rows: seq<Row>, groupBy: seq<Bytes>, aggs: seq<Agg>)
    ensures FoldRows(env, rows, None, groupBy, aggs).Ok?
  {
    if rows != [] { FoldSucceeds(env, rows[..|rows| - 1], groupBy, aggs); }
  }

  lemma FoldSnoc(env: Env, rows: seq<Row>, row: Row, groupBy: seq<Bytes>, aggs: seq<Agg>)
    ensures FoldRows(env, rows, None, groupBy, aggs).Ok?
    ensures FoldRows(env, rows + [row], None, groupBy, aggs)
         == Ok(FoldRow(env, FoldRows(env, rows, None, groupBy, aggs).value, row, groupBy, aggs))
  {
    assert (rows + [row])[..|rows|] == rows;
    FoldSucceeds(env, rows, groupBy, aggs);
  }

  // ----- slots found by output name -----

  type NamedGroups = map<GroupKey, map<Bytes, AggSlot>>

  function UpdateNamed(env: Env, slots: map<Bytes, AggSlot>, aggs: seq<Agg>, row: Row): map<Bytes, AggSlot> {
    if aggs == [] then slots
    else
      var n := |aggs| - 1;
      var (name, f) := aggs[n];
      var before := UpdateNamed(env, slots, aggs[..n], row);
      before[name := Update(env, if name in before then before[name] else EMPTY_SLOT, f, row)]
  }

  function FoldNamed(env: Env, groups: NamedGroups, row: Row, groupBy: seq<Bytes>, aggs: seq<Agg>): NamedGroups {
    var key := KeyOf(env, row, groupBy);
    groups[key := UpdateNamed(env, if key in groups then groups[key] else map[], aggs, row)]
  }

  function FoldAllNamed(env: Env, rows: seq<Row>, groupBy: seq<Bytes>, aggs: seq<Agg>): NamedGroups {
    if rows == [] then map[]
    else FoldNamed(env, FoldAllNamed(env, rows[..|rows| - 1], groupBy, aggs), rows[|rows| - 1], groupBy, aggs)
  }

  /** The materialising operator: one accumulator per output name, and one group for a global aggregate over no rows. */
  function NamedAggregate(env: Env, rows: seq<Row>, groupBy: seq<Bytes>, aggs: seq<Agg>): NamedGroups {
    var groups := FoldAllNamed(env, rows, groupBy, aggs);
    if groups == map[] && groupBy == [] then map[[] := NameSlots(FreshSlots(aggs), aggs)] else groups
  }

  method AggregateNamed(env: Env, rows: seq<Row>, groupBy: seq<Bytes>, aggs: seq<Agg>) returns (groups: NamedGroups)
    ensures groups == NamedAggregate(env, rows, groupBy, aggs)
  {
    groups := map[];
    for i := 0 to |rows|
      invariant groups == FoldAllNamed(env, rows[..i], groupBy, aggs)
    {
      TakeStep(rows, i);
      groups := FoldNamed(env, groups, rows[i], groupBy, aggs);
    }
    TakeAll(rows);
    if groups == map[] && groupBy == [] { groups := map[[] := NameSlots(FreshSlots(aggs), aggs)]; }
  }

  lemma {:induction false} FoldNamedAll(env: Env, rows: seq<Row>, groupBy: seq<Bytes>, aggs: seq<Agg>)
    requires Distinct(Names(aggs))
    ensures FoldRows(env, rows, None, groupBy, aggs).Ok?
    ensures FoldAllNamed(env, rows, groupBy, aggs) == ByName(FoldRows(env, rows, None, groupBy, aggs).value, aggs)
  {
    if rows != [] {
      var n := |rows| - 1;
      FoldNamedAll(env, rows[..n], groupBy, aggs);
      FoldNamedStep(env, FoldRows(env, rows[..n], None, groupBy, aggs).value, rows[n], groupBy, aggs);
    }
  }

  /** With distinct output names, the accumulators by name are those by position. */
  lemma NamedIsPositional(env: Env, rows: seq<Row>, groupBy: seq<Bytes>, aggs: seq<Agg>)
    requires Distinct(Names(aggs))
    ensures Aggregate(env, rows, None, groupBy, aggs).Ok? && GroupsOk(Aggregate(env, rows, None, groupBy, aggs).value, aggs)
    ensures NamedAggregate(env, rows, groupBy, aggs) == ByName(Aggregate(env, rows, None, groupBy, aggs).value, aggs)
  {
    FoldNamedAll(env, rows, groupBy, aggs);
    var groups := FoldRows(env, rows, None, groupBy, aggs).value;
    assert groups == map[] <==> ByName(groups, aggs) == map[] by {
      if k :| k in groups { assert k in ByName(groups, aggs); }
    }
  }

  function NameSlots(slots: seq<AggSlot>, aggs: seq<Agg>): map<Bytes, AggSlot>
    requires |slots| == |aggs|
  {
    if aggs == [] then map[]
    else
      var n := |aggs| - 1;
      NameSlots(slots[..n], aggs[..n])[aggs[n].0 := slots[n]]
  }

  /** Positional accumulators, filed under the aggregates' output names. */
  function ByName(groups: Groups, aggs: seq<Agg>): NamedGroups
    requires GroupsOk(groups, aggs)
  {
    map k | k in groups :: NameSlots(groups[k], aggs)
  }

  lemma NamesSnoc(aggs: seq<Agg>, name: Bytes)
    requires aggs != []
    ensures var n := |aggs| - 1; name in Names(aggs) <==> name in Names(aggs[..n]) || name == aggs[n].0
    ensures Distinct(Names(aggs)) ==> Distinct(Names(aggs[..|aggs| - 1])) && aggs[|aggs| - 1].0 !in Names(aggs[..|aggs| - 1])
  {
    var n := |aggs| - 1;
    NamesTake(aggs, n);
    TakeStep(Names(aggs), n);
    TakeAll(Names(aggs));
  }

  lemma {:induction false} NameSlotsKeys(slots: seq<AggSlot>, aggs: seq<Agg>, name: Bytes)
    requires |slots| == |aggs|
    ensures name in NameSlots(slots, aggs) <==> name in Names(aggs)
  {
    if aggs != [] {
      var n := |aggs| - 1;
      NamesSnoc(aggs, name);
      NameSlotsKeys(slots[..n], aggs[..n], name);
    }
  }

  lemma {:induction false} NameSlotsAt(slots: seq<AggSlot>, aggs: seq<Agg>, i: nat)
    requires |slots| == |aggs| && Distinct(Names(aggs)) && i < |aggs|
    ensures aggs[i].0 in NameSlots(slots, aggs) && NameSlots(slots, aggs)[aggs[i].0] == slots[i]
  {
    var n := |aggs| - 1;
    NamesSnoc(aggs, aggs[i].0);
    if i < n {
      NameSlotsAt(slots[..n], aggs[..n], i);
      assert aggs[..n][i].0 == Names(aggs[..n])[i];
    }
  }

  function SlotOf(slots: map<Bytes, AggSlot>, name: Bytes): AggSlot {
    if name in slots then slots[name] else EMPTY_SLOT
  }

  lemma {:induction false} UpdateNamedKeys(env: Env, start: map<Bytes, AggSlot>, aggs: seq<Agg>, row: Row, name: Bytes)
    ensures name in UpdateNamed(env, start, aggs, row) <==> name in start || name in Names(aggs)
    ensures name !in Names(aggs) ==> SlotOf(UpdateNamed(env, start, aggs, row), name) == SlotOf(start, name)
  {
    if aggs != [] {
      NamesSnoc(aggs, name);
      UpdateNamedKeys(env, start, aggs[..|aggs| - 1], row, name);
    }
  }

  lemma {:induction false} UpdateNamedAt(env: Env, start: map<Bytes, AggSlot>, aggs: seq<Agg>, row: Row, i: nat)
    requires Distinct(Names(aggs)) && i < |aggs|
    ensures SlotOf(UpdateNamed(env, start, aggs, row), aggs[i].0) == Update(env, SlotOf(start, aggs[i].0), aggs[i].1, row)
  {
    var n := |aggs| - 1;
    NamesSnoc(aggs, aggs[i].0);
    if i < n {
      UpdateNamedAt(env, start, aggs[..n], row, i);
      assert aggs[..n][i].0 == Names(aggs[..n])[i];
    } else {
      UpdateNamedKeys(env, start, aggs[..n], row, aggs[n].0);
    }
  }

  /** Updating by name updates each position, as long as no two aggregates share a name. */
  lemma UpdateNamedExact(env: Env, start: map<Bytes, AggSlot>, slots: seq<AggSlot>, aggs: seq<Agg>, row: Row)
    requires |slots| == |aggs| && Distinct(Names(aggs))
    requires forall i :: 0 <= i < |aggs| ==> slots[i] == SlotOf(start, aggs[i].0)
    requires forall name :: name in start ==> name in Names(aggs)
    ensures UpdateNamed(env, start, aggs, row) == NameSlots(UpdateSlots(env, slots, aggs, row), aggs)
  {
    var after := UpdateSlots(env, slots, aggs, row);
    var a, b := UpdateNamed(env, start, aggs, row), NameSlots(after, aggs);
    forall name ensures name in a <==> name in b {
      UpdateNamedKeys(env, start, aggs, row, name);
      NameSlotsKeys(after, aggs, name);
    }
    forall name | name in a ensures a[name] == b[name] {
      NameSlotsKeys(after, aggs, name);
      var i :| 0 <= i < |aggs| && Names(aggs)[i] == name;
      NameSlotsAt(after, aggs, i);
      UpdateNamedAt(env, start, aggs, row, i);
    }
  }

  lemma StartSlots(slots: seq<AggSlot>, start: map<Bytes, AggSlot>, known: bool, aggs: seq<Agg>)
    requires |slots| == |aggs| && Distinct(Names(aggs))
    requires if known then start == NameSlots(slots, aggs) else slots == FreshSlots(aggs) && start == map[]
    ensures forall i :: 0 <= i < |aggs| ==> slots[i] == SlotOf(start, aggs[i].0)
    ensures forall name :: name in start ==> name in Names(aggs)
  {
    if known {
      forall i | 0 <= i < |aggs| ensures slots[i] == SlotOf(start, aggs[i].0) { NameSlotsAt(slots, aggs, i); }
      forall name | name in start ensures name in Names(aggs) { NameSlotsKeys(slots, aggs, name); }
    }
  }

  lemma FoldNamedStep(env: Env, groups: Groups, row: Row, groupBy: seq<Bytes>, aggs: seq<Agg>)
    requires GroupsOk(groups, aggs) && Distinct(Names(aggs))
    ensures FoldNamed(env, ByName(groups, aggs), row, groupBy, aggs) == ByName(FoldRow(env, groups, row, groupBy, aggs), aggs)
  {
    var key := KeyOf(env, row, groupBy);
    var slots := if key in groups then groups[key] else FreshSlots(aggs);
    var start := if key in groups then NameSlots(groups[key], aggs) else map[];
    StartSlots(slots, start, key in groups, aggs);
    UpdateNamedExact(env, start, slots, aggs, row);
  }

  // ----- which columns an aggregate reads -----

  function AggColumns(aggs: seq<Agg>): seq<Bytes> {
    if aggs == [] then []
    else
      var n := |aggs| - 1;
      AggColumns(aggs[..n]) + if aggs[n].1.CountStar? then [] else [aggs[n].1.col]
  }

  function PredColumns(pred: Option<Expr>): seq<Bytes> {
    if pred.None? then [] else AllColumns(pred.value)
  }

  /** The columns a filtered aggregate reads. */
  function ReadColumns(pred: Option<Expr>, groupBy: seq<Bytes>, aggs: seq<Agg>): seq<Bytes> {
    groupBy + AggColumns(aggs) + PredColumns(pred)
  }

  lemma {:induction false} AggColumnsCover(bares: set<Bytes>, aggs: seq<Agg>)
    requires Covers(bares, AggColumns(aggs))
    ensures forall i :: 0 <= i < |aggs| && !aggs[i].1.CountStar? ==> Bare(aggs[i].1.col) in bares
  {
    if aggs != [] {
      var n := |aggs| - 1;
      var last := if aggs[n].1.CountStar? then [] else [aggs[n].1.col];
      CoversAppend(bares, AggColumns(aggs[..n]), last);
      AggColumnsCover(bares, aggs[..n]);
      assert !aggs[n].1.CountStar? ==> last[0] == aggs[n].1.col;
    }
  }

  lemma RowValueLocal(row: Row, bares: set<Bytes>, col: Bytes)
    requires Bare(col) in bares
    ensures RowValue(KeepBare(row, bares), col) == RowValue(row, col)
  {
    KeepFindMatch(row, bares, col);
  }

  lemma FoldRowLocal(env: Env, groups: Groups, row: Row, groupBy: seq<Bytes>, aggs: seq<Agg>, bares: set<Bytes>)
    requires GroupsOk(groups, aggs) && Covers(bares, groupBy) && Covers(bares, AggColumns(aggs))
    ensures FoldRow(env, groups, KeepBare(row, bares), groupBy, aggs) == FoldRow(env, groups, row, groupBy, aggs)
  {
    var small := KeepBare(row, bares);
    forall i | 0 <= i < |groupBy| ensures RowValue(small, groupBy[i]) == RowValue(row, groupBy[i]) {
      RowValueLocal(row, bares, groupBy[i]);
    }
    assert KeyOf(env, small, groupBy) == KeyOf(env, row, groupBy);
    AggColumnsCover(bares, aggs);
    var key := KeyOf(env, row, groupBy);
    var slots := if key in groups then groups[key] else FreshSlots(aggs);
    forall i | 0 <= i < |aggs| ensures Update(env, slots[i], aggs[i].1, small) == Update(env, slots[i], aggs[i].1, row) {
      if !aggs[i].1.CountStar? { RowValueLocal(row, bares, aggs[i].1.col); }
    }
    assert UpdateSlots(env, slots, aggs, small) == UpdateSlots(env, slots, aggs, row);
  }

  function KeepAll(rows: seq<Row>, bares: set<Bytes>): (r: seq<Row>)
    ensures |r| == |rows| && forall i :: 0 <= i < |rows| ==> r[i] == KeepBare(rows[i], bares)
  {
    seq(|rows|, i requires 0 <= i < |rows| => KeepBare(rows[i], bares))
  }

  lemma KeepAllSnoc(rows: seq<Row>, row: Row, bares: set<Bytes>)
    ensures KeepAll(rows + [row], bares) == KeepAll(rows, bares) + [KeepBare(row, bares)]
  {
    SameElements(KeepAll(rows + [row], bares), KeepAll(rows, bares) + [KeepBare(row, bares)]);
  }

  /** Dropping columns that are never read changes neither the groups nor the error. */
  lemma {:induction false} FoldLocal(env: Env, rows: seq<Row>, pred: Option<Expr>, groupBy: seq<Bytes>, aggs: seq<Agg>, bares: set<Bytes>)
    requires Covers(bares, ReadColumns(pred, groupBy, aggs))
    ensures FoldRows(env, KeepAll(rows, bares), pred, groupBy, aggs) == FoldRows(env, rows, pred, groupBy, aggs)
  {
    if rows != [] {
      var n := |rows| - 1;
      SameElements(KeepAll(rows, bares)[..n], KeepAll(rows[..n], bares));
      FoldLocal(env, rows[..n], pred, groupBy, aggs, bares);
      CoversAppend(bares, groupBy + AggColumns(aggs), PredColumns(pred));
      CoversAppend(bares, groupBy, AggColumns(aggs));
      KeepsLocal(env, pred, rows[n], bares);
      var before := FoldRows(env, rows[..n], pred, groupBy, aggs);
      if before.Ok? { FoldRowLocal(env, before.value, rows[n], groupBy, aggs, bares); }
    }
  }

  lemma KeepsLocal(env: Env, pred: Option<Expr>, row: Row, bares: set<Bytes>)
    requires Covers(bares, PredColumns(pred))
    ensures Keeps(env, pred, KeepBare(row, bares)) == Keeps(env, pred, row)
  {
    if pred.Some? { EvalLocal(env, pred.value, row, bares); }
  }
}
