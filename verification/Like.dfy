/** SQL LIKE: `%` stands for any sequence of characters and `_` for any one character. */
module Like {

  type Text = seq<char>

  predicate PieceOk(p: char, piece: Text) {
    p == '%' || (|piece| == 1 && (p == '_' || piece[0] == p))
  }

  function Concat(parts: seq<Text>): Text {
    if parts == [] then [] else Concat(parts[..|parts| - 1]) + parts[|parts| - 1]
  }

  ghost predicate Splits(t: Text, p: Text, parts: seq<Text>) {
    && |parts| == |p|
    && Concat(parts) == t
    && forall i :: 0 <= i < |p| ==> PieceOk(p[i], parts[i])
  }

  /** The text can be cut into one piece per pattern character so that each piece matches its character. */
  ghost predicate Matches(t: Text, p: Text) {
    exists parts :: Splits(t, p, parts)
  }

  /** The recurrence behind the table: does a prefix of the text match a prefix of the pattern? */
  predicate PrefixMatch(t: Text, p: Text)
    decreases |t| + |p|
  {
    if p == [] then t == []
    else
      var n := |p| - 1;
      if p[n] == '%' then PrefixMatch(t, p[..n]) || (t != [] && PrefixMatch(t[..|t| - 1], p))
      else t != [] && (p[n] == '_' || t[|t| - 1] == p[n]) && PrefixMatch(t[..|t| - 1], p[..n])
  }

  lemma ConcatSnoc(parts: seq<Text>, piece: Text)
    ensures Concat(parts + [piece]) == Concat(parts) + piece
  {
    assert (parts + [piece])[..|parts|] == parts;
  }

  lemma SplitsSnoc(t: Text, p: Text, parts: seq<Text>, piece: Text, c: char)
    requires Splits(t, p, parts) && PieceOk(c, piece)
    ensures Splits(t + piece, p + [c], parts + [piece])
  {
    ConcatSnoc(parts, piece);
  }

  lemma SplitsInit(t: Text, p: Text, parts: seq<Text>)
    requires Splits(t, p, parts) && p != []
    ensures var n := |p| - 1;
            var piece := parts[n];
            && |piece| <= |t| && t == t[..|t| - |piece|] + piece
            && Splits(t[..|t| - |piece|], p[..n], parts[..n]) && PieceOk(p[n], piece)
  {
    var n := |p| - 1;
    var init := Concat(parts[..n]);
    assert t == init + parts[n];
    assert t[..|init|] == init;
  }

  /** The recurrence accepts exactly the texts that can be split along the pattern. */
  lemma {:induction false} PrefixMatchExact(t: Text, p: Text)
    ensures PrefixMatch(t, p) <==> Matches(t, p)
    decreases |t| + |p|
  {
    if p == [] {
      if t == [] { assert Splits(t, p, []); }
    } else {
      var n := |p| - 1;
      assert p == p[..n] + [p[n]];
      if p[n] == '%' {
        PrefixMatchExact(t, p[..n]);
        if t != [] { PrefixMatchExact(t[..|t| - 1], p); }
        Percent(t, p);
      } else if t != [] {
        PrefixMatchExact(t[..|t| - 1], p[..n]);
        OneChar(t, p);
      } else if Matches(t, p) {
        var parts :| Splits(t, p, parts);
        SplitsInit(t, p, parts);
      }
    }
  }

  lemma PercentEmpty(t: Text, p: Text)
    requires Matches(t, p)
    ensures Matches(t, p + ['%'])
  {
    var parts :| Splits(t, p, parts);
    SplitsSnoc(t, p, parts, [], '%');
    assert t + [] == t;
  }

  lemma PercentGrow(t: Text, c: char, p: Text)
    requires Matches(t, p + ['%'])
    ensures Matches(t + [c], p + ['%'])
  {
    var parts :| Splits(t, p + ['%'], parts);
    SplitsInit(t, p + ['%'], parts);
    var piece := parts[|p|];
    var init := t[..|t| - |piece|];
    assert (p + ['%'])[..|p|] == p;
    SplitsSnoc(init, p, parts[..|p|], piece + [c], '%');
    assert init + (piece + [c]) == t + [c];
  }

  lemma PercentShrink(t: Text, p: Text)
    requires Matches(t, p + ['%'])
    ensures Matches(t, p) || (t != [] && Matches(t[..|t| - 1], p + ['%']))
  {
    var parts :| Splits(t, p + ['%'], parts);
    SplitsInit(t, p + ['%'], parts);
    var piece := parts[|p|];
    assert (p + ['%'])[..|p|] == p;
    if piece == [] {
      assert t[..|t| - |piece|] == t;
    } else {
      var shorter := piece[..|piece| - 1];
      SplitsSnoc(t[..|t| - |piece|], p, parts[..|p|], shorter, '%');
      assert t[..|t| - |piece|] + shorter == t[..|t| - 1];
    }
  }

  lemma Percent(t: Text, p: Text)
    requires p != [] && p[|p| - 1] == '%'
    ensures Matches(t, p) <==> Matches(t, p[..|p| - 1]) || (t != [] && Matches(t[..|t| - 1], p))
  {
    var q := p[..|p| - 1];
    assert p == q + ['%'];
    if Matches(t, q) { PercentEmpty(t, q); }
    if t != [] && Matches(t[..|t| - 1], p) {
      PercentGrow(t[..|t| - 1], t[|t| - 1], q);
      assert t[..|t| - 1] + [t[|t| - 1]] == t;
    }
    if Matches(t, p) { PercentShrink(t, q); }
  }

  lemma OneChar(t: Text, p: Text)
    requires p != [] && t != [] && p[|p| - 1] != '%'
    ensures var n, m := |p| - 1, |t| - 1;
            Matches(t, p) <==> (p[n] == '_' || t[m] == p[n]) && Matches(t[..m], p[..n])
  {
    var n, m := |p| - 1, |t| - 1;
    assert p == p[..n] + [p[n]];
    if (p[n] == '_' || t[m] == p[n]) && Matches(t[..m], p[..n]) {
      var parts :| Splits(t[..m], p[..n], parts);
      SplitsSnoc(t[..m], p[..n], parts, [t[m]], p[n]);
      assert t[..m] + [t[m]] == t;
    }
    if Matches(t, p) {
      var parts :| Splits(t, p, parts);
      SplitsInit(t, p, parts);
    }
  }

  /** The dynamic-programming table, filled row by row. */
  method SqlLike(t: Text, p: Text) returns (r: bool)
    ensures r <==> Matches(t, p)
  {
    var dp := new bool[|t| + 1, |p| + 1]((i, j) => false);
    dp[0, 0] := true;
    for j := 1 to |p| + 1
      invariant forall b :: 0 <= b < j ==> dp[0, b] == PrefixMatch([], p[..b])
      invariant forall a, b :: 0 <= a <= |t| && 0 <= b <= |p| && (a > 0 || b >= j) ==> !dp[a, b]
    {
      assert p[..j][..j - 1] == p[..j - 1];
      if p[j - 1] == '%' {
        dp[0, j] := dp[0, j - 1];
      }
    }
    for i := 1 to |t| + 1
      invariant forall a, b :: 0 <= a < i && 0 <= b <= |p| ==> dp[a, b] == PrefixMatch(t[..a], p[..b])
      invariant forall a, b :: i <= a <= |t| && 0 <= b <= |p| ==> !dp[a, b]
    {
      assert t[..i][..i - 1] == t[..i - 1];
      for j := 1 to |p| + 1
        invariant forall a, b :: 0 <= a < i && 0 <= b <= |p| ==> dp[a, b] == PrefixMatch(t[..a], p[..b])
        invariant forall b :: 0 <= b < j ==> dp[i, b] == PrefixMatch(t[..i], p[..b])
        invariant forall b :: j <= b <= |p| ==> !dp[i, b]
        invariant forall a, b :: i < a <= |t| && 0 <= b <= |p| ==> !dp[a, b]
      {
        assert p[..j][..j - 1] == p[..j - 1];
        if p[j - 1] == '%' {
          dp[i, j] := dp[i, j - 1] || dp[i - 1, j];
        } else if p[j - 1] == '_' || t[i - 1] == p[j - 1] {
          dp[i, j] := dp[i - 1, j - 1];
        }
      }
    }
    assert t[..|t|] == t && p[..|p|] == p;
    PrefixMatchExact(t, p);
    r := dp[|t|, |p|];
  }
}
