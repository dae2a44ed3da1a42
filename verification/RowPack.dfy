/** Packed row records: the self-describing byte layout of a whole row. */
module RowPack {
  import opened ByteStrings
  import opened Values

  /** "NRP1" */
  const MAGIC: Bytes := [78, 82, 80, 49]

  const MAX16: nat := 0xFFFF
  const MAX32: nat := 0xFFFF_FFFF

  function LittleEndian(n: nat, width: nat): (b: Bytes)
    ensures |b| == width
  {
    if width == 0 then [] else [n % 256] + LittleEndian(n / 256, width - 1)
  }

  function FromLittleEndian(b: Bytes): nat {
    if b == [] then 0 else b[0] + 256 * FromLittleEndian(b[1..])
  }

  lemma Read16(n: nat)
    requires n <= MAX16
    ensures FromLittleEndian(LittleEndian(n, 2)) == n
  {
    assert LittleEndian(n / 256, 1) == [n / 256 % 256] + LittleEndian(n / 256 / 256, 0) == [n / 256];
    assert LittleEndian(n, 2) == [n % 256, n / 256];
    assert FromLittleEndian([n / 256]) == n / 256 by { assert [n / 256][1..] == []; }
    assert [n % 256, n / 256][1..] == [n / 256];
  }

  lemma Read32(n: nat)
    requires n <= MAX32
    ensures FromLittleEndian(LittleEndian(n, 4)) == n
  {
    var m := n / 256 / 256;
    assert LittleEndian(n / 256, 3) == [n / 256 % 256] + LittleEndian(m, 2);
    assert LittleEndian(n, 4) == [n % 256] + LittleEndian(n / 256, 3);
    Read16(m);
    assert FromLittleEndian(LittleEndian(n / 256, 3)) == n / 256 by {
      assert LittleEndian(n / 256, 3)[1..] == LittleEndian(m, 2);
    }
    assert LittleEndian(n, 4)[1..] == LittleEndian(n / 256, 3);
  }

  function Min(a: nat, b: nat): nat { if a < b then a else b }

  // ----- encoding -----

  function EncodeField(name: Bytes, val: Bytes): Bytes {
    var n, v := Min(|name|, MAX16), Min(|val|, MAX32);
    LittleEndian(n, 2) + name[..n] + LittleEndian(v, 4) + val[..v]
  }

  function EncodeFields(cols: Cols): Bytes {
    if cols == [] then [] else EncodeField(cols[0].0, cols[0].1) + EncodeFields(cols[1..])
  }

  function EncodeRow(cols: Cols): Bytes {
    var count := Min(|cols|, MAX16);
    MAGIC + LittleEndian(count, 2) + EncodeFields(cols[..count])
  }

  /** What the layout can carry: at most 65535 columns and name bytes, at most 4 GiB - 1 of cell. */
  predicate Fits(cols: Cols) {
    |cols| <= MAX16 && forall i :: 0 <= i < |cols| ==> |cols[i].0| <= MAX16 && |cols[i].1| <= MAX32
  }

  function ClampFields(cols: Cols): (r: Cols)
    ensures |r| == |cols|
    ensures forall i :: 0 <= i < |cols| ==> r[i] == (cols[i].0[..Min(|cols[i].0|, MAX16)], cols[i].1[..Min(|cols[i].1|, MAX32)])
  {
    if cols == [] then []
    else [(cols[0].0[..Min(|cols[0].0|, MAX16)], cols[0].1[..Min(|cols[0].1|, MAX32)])] + ClampFields(cols[1..])
  }

  // ----- decoding -----

  predicate IsPacked(bytes: Bytes) {
    |bytes| >= 6 && bytes[..4] == MAGIC
  }

  /** One field at the front of `bytes` and what follows it, or nothing when it is cut short. */
  function DecodeField(bytes: Bytes): (r: Option<(Bytes, Bytes, Bytes)>) {
    if |bytes| < 2 then None
    else
      var n := FromLittleEndian(bytes[..2]);
      if |bytes| < 2 + n + 4 then None
      else
        var v := FromLittleEndian(bytes[2 + n..2 + n + 4]);
        if |bytes| < 2 + n + 4 + v then None
        else Some((bytes[2..2 + n], bytes[2 + n + 4..2 + n + 4 + v], bytes[2 + n + 4 + v..]))
  }

  function DecodeFields(bytes: Bytes, count: nat): Option<Cols> {
    if count == 0 then Some([])
    else match DecodeField(bytes)
      case None => None
      case Some((name, val, rest)) => match DecodeFields(rest, count - 1)
        case None => None
        case Some(cols) => Some([(name, val)] + cols)
  }

  function DecodeRow(bytes: Bytes): Option<Cols> {
    if IsPacked(bytes) then DecodeFields(bytes[6..], FromLittleEndian(bytes[4..6])) else None
  }

  function After(out: Cols, more: Option<Cols>): Option<Cols> {
    if more.None? then None else Some(out + more.value)
  }

  lemma AfterNothing(more: Option<Cols>)
    ensures After([], more) == more
  {
    if more.Some? { assert [] + more.value == more.value; }
  }

  lemma AfterField(out: Cols, name: Bytes, val: Bytes, more: Option<Cols>)
    ensures After(out, if more.None? then None else Some([(name, val)] + more.value)) == After(out + [(name, val)], more)
  {
    if more.Some? { assert out + ([(name, val)] + more.value) == (out + [(name, val)]) + more.value; }
  }

  /** One field at an offset, and the offset after it. */
  method DecodeAt(bytes: Bytes, off: nat) returns (r: Option<(Bytes, Bytes, nat)>)
    requires off <= |bytes|
    ensures match r
            case None => DecodeField(bytes[off..]) == None
            case Some((name, val, next)) => off <= next <= |bytes| && DecodeField(bytes[off..]) == Some((name, val, bytes[next..]))
  {
    ghost var rest := bytes[off..];
    if off + 2 > |bytes| { return None; }
    var n := FromLittleEndian(bytes[off..off + 2]);
    assert rest[..2] == bytes[off..off + 2];
    if off + 2 + n + 4 > |bytes| { return None; }
    var v := FromLittleEndian(bytes[off + 2 + n..off + 2 + n + 4]);
    assert rest[2 + n..2 + n + 4] == bytes[off + 2 + n..off + 2 + n + 4];
    if off + 2 + n + 4 + v > |bytes| { return None; }
    var name, val := bytes[off + 2..off + 2 + n], bytes[off + 2 + n + 4..off + 2 + n + 4 + v];
    var next := off + 2 + n + 4 + v;
    assert rest[2..2 + n] == name && rest[2 + n + 4..2 + n + 4 + v] == val && rest[2 + n + 4 + v..] == bytes[next..];
    r := Some((name, val, next));
  }

  /** The decoder's loop over a byte offset. */
  method Decode(bytes: Bytes) returns (r: Option<Cols>)
    ensures r == DecodeRow(bytes)
  {
    if !IsPacked(bytes) { return None; }
    var count := FromLittleEndian(bytes[4..6]);
    var off := 6;
    var out: Cols := [];
    AfterNothing(DecodeRow(bytes));
    for i := 0 to count
      invariant 6 <= off <= |bytes|
      invariant DecodeRow(bytes) == After(out, DecodeFields(bytes[off..], count - i))
    {
      var field := DecodeAt(bytes, off);
      if field.None? { return None; }
      var (name, val, next) := field.value;
      AfterField(out, name, val, DecodeFields(bytes[next..], count - i - 1));
      out := out + [(name, val)];
      off := next;
    }
    assert out + [] == out;
    r := Some(out);
  }

  /** The zero-copy walk: fields up to the first one that is cut short. */
  function IterFields(bytes: Bytes, count: nat): Cols {
    if count == 0 then []
    else match DecodeField(bytes)
      case None => []
      case Some((name, val, rest)) => [(name, val)] + IterFields(rest, count - 1)
  }

  function IterRow(bytes: Bytes): Cols {
    if IsPacked(bytes) then IterFields(bytes[6..], FromLittleEndian(bytes[4..6])) else []
  }

  // ----- round trip -----

  lemma FieldRoundTrip(name: Bytes, val: Bytes, rest: Bytes)
    ensures DecodeField(EncodeField(name, val) + rest) ==
            Some((name[..Min(|name|, MAX16)], val[..Min(|val|, MAX32)], rest))
  {
    var n, v := Min(|name|, MAX16), Min(|val|, MAX32);
    var bytes := EncodeField(name, val) + rest;
    Read16(n);
    Read32(v);
    assert bytes[..2] == LittleEndian(n, 2);
    assert bytes[2 + n..2 + n + 4] == LittleEndian(v, 4);
    assert bytes[2..2 + n] == name[..n];
    assert bytes[2 + n + 4..2 + n + 4 + v] == val[..v];
    assert bytes[2 + n + 4 + v..] == rest;
  }

  lemma {:induction false} FieldsRoundTrip(cols: Cols, rest: Bytes)
    ensures DecodeFields(EncodeFields(cols) + rest, |cols|) == Some(ClampFields(cols))
  {
    if cols != [] {
      var more := EncodeFields(cols[1..]) + rest;
      assert EncodeFields(cols) + rest == EncodeField(cols[0].0, cols[0].1) + more;
      FieldRoundTrip(cols[0].0, cols[0].1, more);
      FieldsRoundTrip(cols[1..], rest);
    }
  }

  /** Decoding an encoded row gives back its columns in order, cut to what the layout can carry. */
  lemma RowRoundTrip(cols: Cols)
    ensures DecodeRow(EncodeRow(cols)) == Some(ClampFields(cols[..Min(|cols|, MAX16)]))
  {
    var count := Min(|cols|, MAX16);
    var bytes := EncodeRow(cols);
    assert bytes[..4] == MAGIC;
    assert bytes[4..6] == LittleEndian(count, 2);
    assert bytes[6..] == EncodeFields(cols[..count]) + [];
    Read16(count);
    FieldsRoundTrip(cols[..count], []);
  }

  /** The record is faithful exactly for the rows that fit. */
  lemma RowFaithful(cols: Cols)
    ensures DecodeRow(EncodeRow(cols)) == Some(cols) <==> Fits(cols)
  {
    RowRoundTrip(cols);
    var count := Min(|cols|, MAX16);
    var r := ClampFields(cols[..count]);
    if Fits(cols) {
      assert cols[..count] == cols;
      forall i | 0 <= i < |cols| ensures r[i] == cols[i] {
        assert cols[i].0[..|cols[i].0|] == cols[i].0 && cols[i].1[..|cols[i].1|] == cols[i].1;
      }
      assert r == cols;
    }
    if r == cols {
      forall i | 0 <= i < |cols| ensures |cols[i].0| <= MAX16 && |cols[i].1| <= MAX32 {
        assert r[i] == cols[i];
      }
    }
  }

  // ----- truncation -----

  lemma FieldTruncated(name: Bytes, val: Bytes, n: nat)
    requires n < |EncodeField(name, val)|
    ensures DecodeField(EncodeField(name, val)[..n]) == None
  {
    var full := EncodeField(name, val);
    var cut := full[..n];
    var a, v := Min(|name|, MAX16), Min(|val|, MAX32);
    Read16(a);
    Read32(v);
    if n >= 2 {
      assert cut[..2] == full[..2] == LittleEndian(a, 2);
      if n >= 2 + a + 4 {
        assert cut[2 + a..2 + a + 4] == full[2 + a..2 + a + 4] == LittleEndian(v, 4);
      }
    }
  }

  lemma {:induction false} FieldsTruncated(cols: Cols, n: nat)
    requires n < |EncodeFields(cols)|
    ensures DecodeFields(EncodeFields(cols)[..n], |cols|) == None
  {
    var first, rest := EncodeField(cols[0].0, cols[0].1), EncodeFields(cols[1..]);
    var cut := EncodeFields(cols)[..n];
    if n < |first| {
      assert cut == first[..n];
      FieldTruncated(cols[0].0, cols[0].1, n);
    } else {
      assert cut == first + rest[..n - |first|];
      FieldRoundTrip(cols[0].0, cols[0].1, rest[..n - |first|]);
      FieldsTruncated(cols[1..], n - |first|);
    }
  }

  /** No record cut short anywhere is read as a row. */
  lemma RowTruncated(cols: Cols, n: nat)
    requires n < |EncodeRow(cols)|
    ensures DecodeRow(EncodeRow(cols)[..n]) == None
  {
    var count := Min(|cols|, MAX16);
    var full := EncodeRow(cols);
    var cut := full[..n];
    assert |EncodeFields([])| == 0;
    if n >= 6 {
      assert cut[4..6] == full[4..6] == LittleEndian(count, 2);
      assert full[6..] == EncodeFields(cols[..count]);
      assert cut[6..] == full[6..][..n - 6];
      Read16(count);
      FieldsTruncated(cols[..count], n - 6);
    }
  }

  lemma {:induction false} FieldsWalk(bytes: Bytes, count: nat)
    ensures DecodeFields(bytes, count).Some? ==> IterFields(bytes, count) == DecodeFields(bytes, count).value
    ensures DecodeFields(bytes, count).None? ==> |IterFields(bytes, count)| < count
    decreases count
  {
    if count > 0 && DecodeField(bytes).Some? {
      FieldsWalk(DecodeField(bytes).value.2, count - 1);
    }
  }

  /** The zero-copy walk sees the decoded columns of every readable record, and stops early on any other. */
  lemma WalkAgrees(bytes: Bytes)
    requires IsPacked(bytes)
    ensures DecodeRow(bytes).Some? ==> IterRow(bytes) == DecodeRow(bytes).value
    ensures DecodeRow(bytes).None? ==> |IterRow(bytes)| < FromLittleEndian(bytes[4..6])
  {
    FieldsWalk(bytes[6..], FromLittleEndian(bytes[4..6]));
  }
}
