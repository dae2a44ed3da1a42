/** WITH RECURSIVE: the loop that runs the recursive member until it derives nothing new. */
module RecursiveCte {
  import opened ByteStrings
  import opened Values

  /** The recursive member: the rows it returns when the CTE holds the given rows. */
  type Member<!T> = seq<T> -> Result<seq<T>>

  function Keys<T>(fp: T -> Bytes, rows: seq<T>): set<Bytes> {
    set i | 0 <= i < |rows| :: fp(rows[i])
  }

  /** `fps` holds everything the member derives from it. */
  ghost predicate Closed<T(!new)>(fp: T -> Bytes, member: Member<T>, fps: set<Bytes>) {
    forall rows {:trigger member(rows)} ::
      Keys(fp, rows) <= fps && member(rows).Ok? ==> Keys(fp, member(rows).value) <= fps
  }

  /** More fingerprints in, no fewer out; and a row is judged by its fingerprint alone. */
  ghost predicate Monotone<T(!new)>(fp: T -> Bytes, member: Member<T>) {
    forall a, b {:trigger member(a), member(b)} ::
      Keys(fp, a) <= Keys(fp, b) && member(b).Ok? && member(a).Ok? ==> Keys(fp, member(a).value) <= Keys(fp, member(b).value)
  }

  /** Every row whose fingerprint is new, once. */
  function AddNew<T>(fp: T -> Bytes, acc: seq<T>, found: seq<T>): seq<T> {
    if found == [] then acc
    else
      var n := |found| - 1;
      var before := AddNew(fp, acc, found[..n]);
      if fp(found[n]) in Keys(fp, before) then before else before + [found[n]]
  }

  /** The table after `n` rounds, or the first error. */
  function Rounds<T>(fp: T -> Bytes, anchor: seq<T>, member: Member<T>, n: nat): Result<seq<T>> {
    if n == 0 then Ok(anchor)
    else match Rounds(fp, anchor, member, n - 1)
      case Err(e) => Err(e)
      case Ok(acc) => match member(acc)
        case Err(e) => Err(e)
        case Ok(found) => Ok(AddNew(fp, acc, found))
  }

  lemma KeysSnoc<T>(fp: T -> Bytes, rows: seq<T>, row: T)
    ensures Keys(fp, rows + [row]) == Keys(fp, rows) + {fp(row)}
  {
    var more := rows + [row];
    forall k | k in Keys(fp, rows) + {fp(row)} ensures k in Keys(fp, more) {
      if k in Keys(fp, rows) {
        var i :| 0 <= i < |rows| && fp(rows[i]) == k;
        assert more[i] == rows[i];
      } else {
        assert more[|rows|] == row;
      }
    }
    forall k | k in Keys(fp, more) ensures k in Keys(fp, rows) + {fp(row)} {
      var i :| 0 <= i < |more| && fp(more[i]) == k;
      if i < |rows| { assert more[i] == rows[i]; }
    }
  }

  lemma KeysTake<T>(fp: T -> Bytes, rows: seq<T>)
    requires rows != []
    ensures var n := |rows| - 1; Keys(fp, rows) == Keys(fp, rows[..n]) + {fp(rows[n])}
  {
    var n := |rows| - 1;
    KeysSnoc(fp, rows[..n], rows[n]);
    assert rows == rows[..n] + [rows[n]];
  }

  /** No fingerprint occurs twice from position `from` on, nor both before and after it. */
  predicate AddedOnce<T>(fp: T -> Bytes, rows: seq<T>, from: nat) {
    forall i, j :: 0 <= i < j < |rows| && from <= j ==> fp(rows[i]) != fp(rows[j])
  }

  lemma {:induction false} AddNewExact<T>(fp: T -> Bytes, acc: seq<T>, found: seq<T>, from: nat)
    requires from <= |acc| && AddedOnce(fp, acc, from)
    ensures var after := AddNew(fp, acc, found);
            && acc <= after && AddedOnce(fp, after, from)
            && Keys(fp, after) == Keys(fp, acc) + Keys(fp, found)
            && (|after| == |acc| <==> Keys(fp, found) <= Keys(fp, acc))
  {
    if found != [] {
      var n := |found| - 1;
      AddNewExact(fp, acc, found[..n], from);
      KeysTake(fp, found);
      var before := AddNew(fp, acc, found[..n]);
      KeysSnoc(fp, before, found[n]);
    }
  }

  /** The anchor is a prefix of every round's table and no fingerprint is added twice. */
  lemma {:induction false} RoundsGrow<T>(fp: T -> Bytes, anchor: seq<T>, member: Member<T>, n: nat)
    requires Rounds(fp, anchor, member, n).Ok?
    ensures var acc := Rounds(fp, anchor, member, n).value; anchor <= acc && AddedOnce(fp, acc, |anchor|)
  {
    if n > 0 {
      RoundsGrow(fp, anchor, member, n - 1);
      var acc := Rounds(fp, anchor, member, n - 1).value;
      AddNewExact(fp, acc, member(acc).value, |anchor|);
    }
  }

  /** Rounds never leave a closed set that holds the anchor. */
  lemma {:induction false} RoundsInside<T(!new)>(fp: T -> Bytes, anchor: seq<T>, member: Member<T>, n: nat, fps: set<Bytes>)
    requires Rounds(fp, anchor, member, n).Ok? && Keys(fp, anchor) <= fps && Closed(fp, member, fps)
    ensures Keys(fp, Rounds(fp, anchor, member, n).value) <= fps
  {
    if n > 0 {
      RoundsInside(fp, anchor, member, n - 1, fps);
      RoundsGrow(fp, anchor, member, n - 1);
      var acc := Rounds(fp, anchor, member, n - 1).value;
      AddNewExact(fp, acc, member(acc).value, |anchor|);
    }
  }

  /** A table the member adds nothing to is closed, when the member is monotone. */
  lemma FixpointClosed<T(!new)>(fp: T -> Bytes, member: Member<T>, acc: seq<T>)
    requires Monotone(fp, member) && member(acc).Ok? && Keys(fp, member(acc).value) <= Keys(fp, acc)
    ensures Closed(fp, member, Keys(fp, acc))
  {
    forall rows | Keys(fp, rows) <= Keys(fp, acc) && member(rows).Ok? ensures Keys(fp, member(rows).value) <= Keys(fp, acc) {
      assert Keys(fp, member(rows).value) <= Keys(fp, member(acc).value);
    }
  }

  /** The loop over one round's rows. */
  method AddRows<T>(fp: T -> Bytes, acc: seq<T>, found: seq<T>) returns (after: seq<T>, added: nat)
    ensures after == AddNew(fp, acc, found) && |after| == |acc| + added
  {
    var seen := Keys(fp, acc);
    after := acc;
    added := 0;
    for i := 0 to |found|
      invariant after == AddNew(fp, acc, found[..i]) && |after| == |acc| + added && seen == Keys(fp, after)
    {
      TakeStep(found, i);
      if fp(found[i]) !in seen {
        KeysSnoc(fp, after, found[i]);
        seen := seen + {fp(found[i])};
        after := after + [found[i]];
        added := added + 1;
      }
    }
    TakeAll(found);
  }

  /**
   * Materialise a recursive CTE whose derivable fingerprints lie in a finite set. The result has
   * exactly the least set of fingerprints that holds the anchor's and is closed under the member.
   */
  method Materialize<T(!new)>(fp: T -> Bytes, start: Result<seq<T>>, member: Member<T>, ghost all: set<Bytes>)
    returns (r: Result<seq<T>>, ghost n: nat)
    requires start.Ok? ==> Keys(fp, start.value) <= all
    requires Closed(fp, member, all)
    ensures start.Err? ==> r == Err(start.error)
    ensures start.Ok? && r.Err? ==>
              Rounds(fp, start.value, member, n).Ok? && member(Rounds(fp, start.value, member, n).value) == Err(r.error)
    ensures start.Ok? && r.Ok? ==>
              && Rounds(fp, start.value, member, n) == r
              && start.value <= r.value && AddedOnce(fp, r.value, |start.value|)
              && member(r.value).Ok? && Keys(fp, member(r.value).value) <= Keys(fp, r.value)
  {
    n := 0;
    if start.Err? { return Err(start.error), n; }
    var acc := start.value;
    while true
      invariant Rounds(fp, start.value, member, n) == Ok(acc)
      decreases |all - Keys(fp, acc)|
    {
      var found := member(acc);
      if found.Err? { return Err(found.error), n; }
      var after, added := AddRows(fp, acc, found.value);
      NextRound(fp, start.value, member, n, all);
      if added == 0 { return Ok(acc), n; }
      acc := after;
      n := n + 1;
    }
  }

  /** One more round either derives nothing new or comes closer to the finite set. */
  lemma NextRound<T(!new)>(fp: T -> Bytes, anchor: seq<T>, member: Member<T>, n: nat, all: set<Bytes>)
    requires Rounds(fp, anchor, member, n).Ok? && member(Rounds(fp, anchor, member, n).value).Ok?
    requires Keys(fp, anchor) <= all && Closed(fp, member, all)
    ensures var acc := Rounds(fp, anchor, member, n).value;
            var found := member(acc).value;
            var after := AddNew(fp, acc, found);
            && anchor <= acc && AddedOnce(fp, acc, |anchor|)
            && Rounds(fp, anchor, member, n + 1) == Ok(after)
            && if |after| == |acc| then Keys(fp, found) <= Keys(fp, acc) else |all - Keys(fp, after)| < |all - Keys(fp, acc)|
  {
    var acc := Rounds(fp, anchor, member, n).value;
    RoundsGrow(fp, anchor, member, n);
    RoundsInside(fp, anchor, member, n, all);
    AddNewExact(fp, acc, member(acc).value, |anchor|);
    if !(Keys(fp, member(acc).value) <= Keys(fp, acc)) {
      Shrinks(all, Keys(fp, acc), Keys(fp, AddNew(fp, acc, member(acc).value)));
    }
  }

  lemma Shrinks(all: set<Bytes>, a: set<Bytes>, b: set<Bytes>)
    requires a < b <= all
    ensures |all - b| < |all - a|
  {
    var x :| x in b && x !in a;
    assert all - b < all - a by { assert x in all - a && x !in all - b; }
    SmallerSet(all - b, all - a);
  }

  lemma {:induction false} SmallerSet(a: set<Bytes>, b: set<Bytes>)
    requires a < b
    ensures |a| < |b|
  {
    if a == {} {
      assert b != {};
    } else {
      var x :| x in a;
      SmallerSet(a - {x}, b - {x});
    }
  }

  /** The result is the least fixpoint: closed, and inside every other closed set with the anchor. */
  lemma LeastFixpoint<T(!new)>(fp: T -> Bytes, anchor: seq<T>, member: Member<T>, n: nat, other: set<Bytes>)
    requires Monotone(fp, member) && Rounds(fp, anchor, member, n).Ok?
    requires var acc := Rounds(fp, anchor, member, n).value;
             member(acc).Ok? && Keys(fp, member(acc).value) <= Keys(fp, acc)
    ensures var fps := Keys(fp, Rounds(fp, anchor, member, n).value);
            && Keys(fp, anchor) <= fps && Closed(fp, member, fps)
            && (Keys(fp, anchor) <= other && Closed(fp, member, other) ==> fps <= other)
  {
    var acc := Rounds(fp, anchor, member, n).value;
    RoundsGrow(fp, anchor, member, n);
    FixpointClosed(fp, member, acc);
    forall i | 0 <= i < |anchor| ensures fp(anchor[i]) in Keys(fp, acc) { assert acc[i] == anchor[i]; }
    if Keys(fp, anchor) <= other && Closed(fp, member, other) {
      RoundsInside(fp, anchor, member, n, other);
    }
  }
}
