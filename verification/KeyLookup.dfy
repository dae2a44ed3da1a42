/** Which field a join key is read from: by bare name, the first that matches. */
module KeyLookup {
  import opened ByteStrings
  import opened Values
  import opened Columns
  import opened Expressions
  import Pruning

  // ----- a column reference against the bare lookup -----

  /** The first field whose name the executor takes for the column. */
  function FirstNamed(row: Row, column: Bytes): Option<Bytes> {
    if row == [] then None
    else if NameMatches(row[0].0, column) then Some(row[0].0)
    else FirstNamed(row[1..], column)
  }

  lemma {:induction false} FirstNamedReads(row: Row, column: Bytes)
    ensures FindMatch(row, column) == match FirstNamed(row, column) case Some(n) => Lookup(row, n) case None => None
    ensures FirstNamed(row, column).Some? ==> NameMatches(FirstNamed(row, column).value, column) && FindMatch(row, column).Some?
  {
    if row != [] { FirstNamedReads(row[1..], column); }
  }

  lemma {:induction false} SuffixIsMatch(row: Row, column: Bytes)
    requires column !in Names(row)
    ensures SuffixMatches(row, column) != [] ==> FindMatch(row, column) == Some(SuffixMatches(row, column)[0])
  {
    if row != [] {
      assert Names(row)[0] == row[0].0 && Names(row)[1..] == Names(row[1..]);
      NameMatchesBare(row[0].0, column);
      SuffixIsMatch(row[1..], column);
      if SuffixMatches(row[1..], column) != [] { SuffixUndotted(row[1..], column); }
    }
  }

  lemma {:induction false} SuffixUndotted(row: Row, column: Bytes)
    requires SuffixMatches(row, column) != []
    ensures !Dotted(column)
  {
    if !(Dotted(row[0].0) && Bare(row[0].0) == column) { SuffixUndotted(row[1..], column); }
  }

  /**
   * The semi-join's lookup drops the qualifier. On rows with these column names it reads the field
   * the reference means: the first match is the exact name, or there is only one match.
   */
  predicate BareReads(table: Option<Bytes>, column: Bytes, row: Row) {
    if table.Some? && Qualify(table.value, column) in Names(row) then FirstNamed(row, column) == Some(Qualify(table.value, column))
    else if column in Names(row) then FirstNamed(row, column) == Some(column)
    else table.None? && |SuffixMatches(row, column)| == 1
  }

  predicate ReadsSame(table: Option<Bytes>, column: Bytes, row: Row) {
    EvalColumn(table, column, row).Ok? && FindMatch(row, column) == Some(EvalColumn(table, column, row).value)
  }

  lemma BareReadsSame(table: Option<Bytes>, column: Bytes, row: Row)
    requires BareReads(table, column, row)
    ensures ReadsSame(table, column, row)
  {
    FirstNamedReads(row, column);
    LookupFound(row, column);
    if table.Some? { LookupFound(row, Qualify(table.value, column)); }
    if column !in Names(row) { SuffixIsMatch(row, column); }
  }

  // ----- the lookup is right for these column names exactly when they say so -----

  /** A row with the given column names and cells that are all different. */
  function Numbered(names: seq<Bytes>): (row: Row)
    ensures |row| == |names| && forall i :: 0 <= i < |row| ==> row[i] == (names[i], Integer(i))
  {
    seq(|names|, i requires 0 <= i < |names| => (names[i], Integer(i)))
  }

  lemma NumberedReads(names: seq<Bytes>, a: Bytes, b: Bytes)
    requires Lookup(Numbered(names), a).Some? && Lookup(Numbered(names), a) == Lookup(Numbered(names), b)
    ensures a == b
  {
    LookupFound(Numbered(names), a);
    LookupFound(Numbered(names), b);
  }

  lemma {:induction false} NamesDecide(a: Row, b: Row, column: Bytes)
    requires Names(a) == Names(b)
    ensures FirstNamed(a, column) == FirstNamed(b, column)
    ensures |SuffixMatches(a, column)| == |SuffixMatches(b, column)|
  {
    assert |a| == |Names(a)| == |b|;
    if a != [] {
      assert a[0].0 == Names(a)[0] == b[0].0;
      assert Names(a[1..]) == Names(a)[1..] && Names(b[1..]) == Names(b)[1..];
      NamesDecide(a[1..], b[1..], column);
    }
  }

  lemma SameReadsBare(table: Option<Bytes>, column: Bytes, names: seq<Bytes>)
    requires ReadsSame(table, column, Numbered(names))
    ensures BareReads(table, column, Numbered(names))
  {
    var row := Numbered(names);
    FirstNamedReads(row, column);
    LookupFound(row, column);
    if table.Some? && Qualify(table.value, column) in Names(row) {
      LookupFound(row, Qualify(table.value, column));
      NumberedReads(names, FirstNamed(row, column).value, Qualify(table.value, column));
    } else if column in Names(row) {
      if table.Some? { LookupFound(row, Qualify(table.value, column)); }
      NumberedReads(names, FirstNamed(row, column).value, column);
    } else if table.Some? {
      LookupFound(row, Qualify(table.value, column));
    }
  }

  /** Whatever the cells are, the bare lookup reads what the reference means, exactly when the names say so. */
  lemma BareReadsExact(table: Option<Bytes>, column: Bytes, row: Row)
    ensures (forall r: Row :: Names(r) == Names(row) ==> ReadsSame(table, column, r)) <==> BareReads(table, column, row)
  {
    var numbered := Numbered(Names(row));
    assert Names(numbered) == Names(row);
    NamesDecide(row, numbered, column);
    if ReadsSame(table, column, numbered) { SameReadsBare(table, column, Names(row)); }
    if BareReads(table, column, row) {
      forall r: Row | Names(r) == Names(row) ensures ReadsSame(table, column, r) {
        NamesDecide(row, r, column);
        BareReadsSame(table, column, r);
      }
    }
  }

  // ----- the subquery's column -----

  /** The name under which the keys of a subquery are looked up: its first column, or that item's alias. */
  function SubqueryColumn(item: Pruning.Item): Option<Bytes> {
    if item.expr.Column? then Some(item.expr.column) else item.alias
  }

  /** Whatever the cells are, the lookup finds the first cell exactly when the first name matches. */
  lemma FirstCellRead(names: seq<Bytes>, column: Bytes)
    requires names != []
    ensures (forall r: Row :: Names(r) == names ==> FindMatch(r, column) == Some(r[0].1)) <==> NameMatches(names[0], column)
  {
    var row := Numbered(names);
    assert Names(row) == names;
    FirstNamedReads(row, column);
    if FindMatch(row, column) == Some(row[0].1) {
      NumberedReads(names, names[0], FirstNamed(row, column).value);
    }
    if NameMatches(names[0], column) {
      forall r: Row | Names(r) == names ensures FindMatch(r, column) == Some(r[0].1) {
        assert Names(r)[0] == r[0].0;
      }
    }
  }

  /**
   * A subquery's keys are looked up under the column's own name, its rows carry the alias. The first
   * item is found under that name exactly when it is not a column renamed to another bare name.
   */
  lemma ItemFound(env: Env, items: seq<Pruning.Item>, row: Row)
    requires items != [] && SubqueryColumn(items[0]).Some? && Pruning.ProjectRow(env, items, row).Ok?
    ensures var out := Pruning.ProjectRow(env, items, row).value;
            && out != [] && Ok(out[0].1) == Eval(env, items[0].expr, row)
            && (NameMatches(out[0].0, SubqueryColumn(items[0]).value) <==>
                  !(items[0].expr.Column? && items[0].alias.Some? && Bare(items[0].alias.value) != Bare(items[0].expr.column)))
  {
    var out := Pruning.ProjectRow(env, items, row).value;
    NameMatchesBare(out[0].0, SubqueryColumn(items[0]).value);
  }
}
