/** Runtime values, rows and errors shared by the engine, the planner and the executor. */
module Values {
  import opened ByteStrings

  datatype Option<+T> = None | Some(value: T)

  datatype Result<+T> = Ok(value: T) | Err(error: Error)

  datatype Error =
    | UnknownColumn(name: Bytes)
    | TypeMismatch(message: string, operands: seq<Value>)
    | Constraint(message: string, column: Bytes)
    | UnsupportedExpr
    | Panic

  datatype Value = Null | Integer(n: int) | Float(x: real) | Text(bytes: Bytes) | Bool(b: bool)

  /** Stored columns of a row: names and encoded cells, in column order. */
  type Cols = seq<(Bytes, Bytes)>

  /** A row as the executor sees it. */
  type Row = seq<(Bytes, Value)>

  /** Text and float functions outside the engine's own code: results hold for every choice of them. */
  datatype Env = Env(
    number: Bytes -> Option<real>,
    floatBytes: real -> Bytes,
    floatText: real -> Bytes,
    chars: Bytes -> seq<char>,
    upper: Bytes -> Bytes,
    lower: Bytes -> Bytes,
    trim: Bytes -> Bytes,
    round: real -> real,
    remainder: (real, real) -> real,
    distance: (Value, Value) -> Result<real>,
    cast: (Value, Bytes) -> Result<Value>)

  // ----- association lists -----

  /** The cell of the first field with this exact name. */
  function Lookup<K(==), V>(row: seq<(K, V)>, name: K): (r: Option<V>) {
    if row == [] then None
    else if row[0].0 == name then Some(row[0].1)
    else Lookup(row[1..], name)
  }

  /** Overwrite the first field with this name, or append one. */
  function SetColumn<K(==), V>(row: seq<(K, V)>, name: K, val: V): (r: seq<(K, V)>) {
    if row == [] then [(name, val)]
    else if row[0].0 == name then [(name, val)] + row[1..]
    else [row[0]] + SetColumn(row[1..], name, val)
  }

  function Names<K, V>(row: seq<(K, V)>): (r: seq<K>)
    ensures |r| == |row| && forall i :: 0 <= i < |r| ==> r[i] == row[i].0
  {
    seq(|row|, i requires 0 <= i < |row| => row[i].0)
  }

  lemma {:induction false} LookupFound<K, V>(row: seq<(K, V)>, name: K)
    ensures Lookup(row, name).Some? <==> name in Names(row)
    ensures Lookup(row, name).Some? ==> (name, Lookup(row, name).value) in row
  {
    if row != [] {
      LookupFound(row[1..], name);
      assert row == [row[0]] + row[1..];
      assert Names(row) == [row[0].0] + Names(row[1..]);
    }
  }

  lemma {:induction false} LookupAt<K, V>(row: seq<(K, V)>, i: nat)
    requires i < |row| && Distinct(Names(row))
    ensures Lookup(row, row[i].0) == Some(row[i].1)
  {
    if i > 0 {
      assert Names(row)[0] != Names(row)[i];
      assert row[1..][i - 1] == row[i];
      assert Names(row[1..]) == Names(row)[1..];
      LookupAt(row[1..], i - 1);
    }
  }

  lemma NamesTake<K, V>(row: seq<(K, V)>, i: nat)
    requires i <= |row|
    ensures Names(row[..i]) == Names(row)[..i]
  {
  }

  lemma NamesStep<K, V>(row: seq<(K, V)>, i: nat)
    requires i < |row| && Distinct(Names(row))
    ensures Names(row[..i + 1]) == Names(row[..i]) + [row[i].0]
    ensures row[i].0 !in Names(row[..i])
    ensures Lookup(row, row[i].0) == Some(row[i].1)
  {
    LookupAt(row, i);
    NamesTake(row, i);
    NamesTake(row, i + 1);
    TakeStep(Names(row), i);
  }

  /** Writing a column reads back, and leaves every other column as it was. */
  lemma {:induction false} SetColumnReads<K, V>(row: seq<(K, V)>, name: K, val: V, other: K)
    ensures Lookup(SetColumn(row, name, val), other) == if other == name then Some(val) else Lookup(row, other)
  {
    if row != [] && row[0].0 != name {
      SetColumnReads(row[1..], name, val, other);
      assert SetColumn(row, name, val)[1..] == SetColumn(row[1..], name, val);
    } else if row != [] {
      assert SetColumn(row, name, val)[1..] == row[1..];
    } else {
      assert SetColumn(row, name, val)[1..] == [];
    }
  }

  lemma {:induction false} SetColumnNames<K, V>(row: seq<(K, V)>, name: K, val: V)
    ensures Names(SetColumn(row, name, val)) == if name in Names(row) then Names(row) else Names(row) + [name]
  {
    if row == [] {
    } else if row[0].0 == name {
      assert SetColumn(row, name, val)[1..] == row[1..];
      assert Names(row)[0] == name;
    } else {
      SetColumnNames(row[1..], name, val);
      assert SetColumn(row, name, val)[1..] == SetColumn(row[1..], name, val);
      assert Names(row) == [row[0].0] + Names(row[1..]);
    }
  }

  lemma SetColumnDistinct<K, V>(row: seq<(K, V)>, name: K, val: V)
    requires Distinct(Names(row))
    ensures Distinct(Names(SetColumn(row, name, val)))
  {
    SetColumnNames(row, name, val);
  }

  /** Cells read from storage come back as text values under the same names. */
  function ToRow(cols: Cols): (r: Row)
    ensures |r| == |cols| && forall i :: 0 <= i < |r| ==> r[i] == (cols[i].0, Text(cols[i].1))
  {
    seq(|cols|, i requires 0 <= i < |cols| => (cols[i].0, Text(cols[i].1)))
  }

  lemma {:induction false} LookupToRow(cols: Cols, name: Bytes)
    ensures Lookup(ToRow(cols), name) ==
            match Lookup(cols, name) case Some(b) => Some(Text(b)) case None => None
  {
    if cols != [] {
      LookupToRow(cols[1..], name);
      assert ToRow(cols)[1..] == ToRow(cols[1..]);
    }
  }

  // ----- encodings -----

  function Digits(n: nat): (d: Bytes)
    ensures d != [] && forall i :: 0 <= i < |d| ==> 48 <= d[i] < 58
  {
    if n < 10 then [48 + n] else Digits(n / 10) + [48 + n % 10]
  }

  /** Decimal text of an integer. */
  function Decimal(n: int): (d: Bytes)
    ensures NulFree(d)
  {
    if n < 0 then [45] + Digits(-n) else Digits(n)
  }

  /** Big-endian bytes of `n`, most significant first. */
  function BigEndian(n: nat, width: nat): (b: Bytes)
    ensures |b| == width
  {
    if width == 0 then [] else BigEndian(n / 256, width - 1) + [n % 256]
  }

  const TwoTo64: nat := 0x1_0000_0000_0000_0000

  /** Canonical bytes for join keys, grouping and sorting. */
  function AsBytes(env: Env, v: Value): Bytes {
    match v
    case Null => []
    case Integer(n) => BigEndian(n % TwoTo64, 8)
    case Float(x) => env.floatBytes(x)
    case Text(b) => b
    case Bool(b) => [if b then 1 else 0]
  }

  /** The cell bytes a value is stored as. */
  function CellBytes(env: Env, v: Value): Bytes {
    match v
    case Null => []
    case Integer(n) => Decimal(n)
    case Float(x) => env.floatText(x)
    case Text(b) => b
    case Bool(b) => [if b then 1 else 0]
  }

  const NULL_TEXT: Bytes := [110, 117, 108, 108]
  const TRUE_TEXT: Bytes := [116, 114, 117, 101]
  const FALSE_TEXT: Bytes := [102, 97, 108, 115, 101]

  /** The row identifier a value of the first column gives. */
  function RowId(env: Env, v: Value): Bytes {
    match v
    case Null => NULL_TEXT
    case Integer(n) => Decimal(n)
    case Float(x) => env.floatText(x)
    case Text(b) => b
    case Bool(b) => if b then TRUE_TEXT else FALSE_TEXT
  }

  /** Equality with SQL NULL semantics; `None` is unknown. */
  function SqlEq(env: Env, a: Value, b: Value): Option<bool> {
    match (a, b)
    case (Null, Null) => Some(true)
    case (Null, _) => None
    case (_, Null) => None
    case (Integer(x), Integer(y)) => Some(x == y)
    case (Float(x), Float(y)) => Some(x == y)
    case (Bool(x), Bool(y)) => Some(x == y)
    case (Bool(x), Text(t)) => if |t| == 1 then Some(x == (t[0] != 0)) else Some(false)
    case (Text(t), Bool(x)) => if |t| == 1 then Some(x == (t[0] != 0)) else Some(false)
    case (Text(s), Text(t)) => Some(s == t)
    case (Integer(x), Float(y)) => Some(x as real == y)
    case (Float(x), Integer(y)) => Some(x == y as real)
    case (Text(t), Integer(y)) => NumberIs(env, t, y as real)
    case (Integer(x), Text(t)) => NumberIs(env, t, x as real)
    case (Text(t), Float(y)) => NumberIs(env, t, y)
    case (Float(x), Text(t)) => NumberIs(env, t, x)
    case _ => Some(false)
  }

  function NumberIs(env: Env, t: Bytes, y: real): Option<bool> {
    match env.number(t)
    case Some(x) => Some(x == y)
    case None => None
  }

  lemma SqlEqSymmetric(env: Env, a: Value, b: Value)
    ensures SqlEq(env, a, b) == SqlEq(env, b, a)
  {
  }

  lemma {:induction false} LookupAppend<K, V>(row: seq<(K, V)>, x: (K, V), c: K)
    ensures Lookup(row + [x], c) == if Lookup(row, c).Some? then Lookup(row, c) else if x.0 == c then Some(x.1) else None
  {
    if row == [] {
      assert row + [x] == [x];
      assert Lookup([x][1..], c) == None;
    } else {
      assert (row + [x])[1..] == row[1..] + [x];
      LookupAppend(row[1..], x, c);
    }
  }
}
