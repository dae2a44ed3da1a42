/** Column names: bare and qualified, and which stored field a reference finds. */
module Columns {
  import opened ByteStrings
  import opened Values

  predicate Dotted(s: Bytes) {
    DOT in s
  }

  /** The part after the last dot. */
  function Bare(s: Bytes): (b: Bytes)
    ensures !Dotted(b)
    ensures !Dotted(s) ==> b == s
  {
    if s == [] then []
    else if Dotted(s[1..]) then Bare(s[1..])
    else if s[0] == DOT then s[1..]
    else s
  }

  function Qualify(table: Bytes, column: Bytes): Bytes {
    table + [DOT] + column
  }

  /** Stored field against referenced column, as the executor compares them: exact, bare or qualified. */
  predicate NameMatches(stored: Bytes, wanted: Bytes) {
    || stored == wanted
    || (Dotted(stored) && Bare(stored) == wanted)
    || (Dotted(wanted) && (stored == Bare(wanted) || (Dotted(stored) && Bare(stored) == Bare(wanted))))
  }

  /** The comparison ignores qualifiers altogether: it holds exactly when the bare names agree. */
  lemma NameMatchesBare(stored: Bytes, wanted: Bytes)
    ensures NameMatches(stored, wanted) <==> Bare(stored) == Bare(wanted)
  {
  }

  /** The cell of the first field whose name matches. */
  function FindMatch(row: Row, wanted: Bytes): Option<Value> {
    if row == [] then None
    else if NameMatches(row[0].0, wanted) then Some(row[0].1)
    else FindMatch(row[1..], wanted)
  }

  /** The fields whose bare name is in the set. */
  function KeepBare(row: Row, bares: set<Bytes>): Row {
    if row == [] then []
    else if Bare(row[0].0) in bares then [row[0]] + KeepBare(row[1..], bares)
    else KeepBare(row[1..], bares)
  }

  lemma {:induction false} KeepLookup(row: Row, bares: set<Bytes>, name: Bytes)
    requires Bare(name) in bares
    ensures Lookup(KeepBare(row, bares), name) == Lookup(row, name)
  {
    if row != [] {
      KeepLookup(row[1..], bares, name);
    }
  }

  lemma {:induction false} KeepFindMatch(row: Row, bares: set<Bytes>, wanted: Bytes)
    requires Bare(wanted) in bares
    ensures FindMatch(KeepBare(row, bares), wanted) == FindMatch(row, wanted)
  {
    if row != [] {
      NameMatchesBare(row[0].0, wanted);
      KeepFindMatch(row[1..], bares, wanted);
    }
  }

  /** The cells of the qualified fields with this bare name. */
  function SuffixMatches(row: Row, column: Bytes): seq<Value> {
    if row == [] then []
    else if Dotted(row[0].0) && Bare(row[0].0) == column then [row[0].1] + SuffixMatches(row[1..], column)
    else SuffixMatches(row[1..], column)
  }

  lemma {:induction false} KeepSuffixMatches(row: Row, bares: set<Bytes>, column: Bytes)
    requires Bare(column) in bares
    ensures SuffixMatches(KeepBare(row, bares), column) == SuffixMatches(row, column)
  {
    if row != [] {
      KeepSuffixMatches(row[1..], bares, column);
    }
  }

  lemma {:induction false} KeepAppend(a: Row, b: Row, bares: set<Bytes>)
    ensures KeepBare(a + b, bares) == KeepBare(a, bares) + KeepBare(b, bares)
  {
    if a == [] {
      assert a + b == b;
    } else {
      assert (a + b)[1..] == a[1..] + b;
      KeepAppend(a[1..], b, bares);
    }
  }
}
