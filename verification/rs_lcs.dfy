/**
 * `longest_common_subsequence` of the naux-rs runtime: the classic
 * dynamic-programming table over prefixes, then a walk back from the
 * bottom-right corner that collects matched characters in reverse.
 */
module RsLcs {
  /**
   * s is a subsequence of t: either both are used up on s's side, or the
   * last character of t is matched against the last of s, or it is skipped.
   */
  predicate Subseq(s: string, t: string)
    decreases |t|
  {
    || |s| == 0
    || (|t| > 0 && ((s[|s| - 1] == t[|t| - 1] && Subseq(s[..|s| - 1], t[..|t| - 1])) || Subseq(s, t[..|t| - 1])))
  }

  /** The recurrence the table fills in: L(i, j) is the answer for a[..i] and b[..j]. */
  function L(a: string, b: string, i: nat, j: nat): nat
    requires i <= |a| && j <= |b|
    decreases i + j
  {
    if i == 0 || j == 0 then 0
    else if a[i - 1] == b[j - 1] then L(a, b, i - 1, j - 1) + 1
    else Max(L(a, b, i - 1, j), L(a, b, i, j - 1))
  }

  function Max(x: nat, y: nat): nat
  {
    if x >= y then x else y
  }

  function Reverse(s: string): (r: string)
    ensures |r| == |s| && forall k :: 0 <= k < |s| ==> r[k] == s[|s| - 1 - k]
  {
    if |s| == 0 then [] else [s[|s| - 1]] + Reverse(s[..|s| - 1])
  }

  /** Removing the last character of a subsequence leaves a subsequence of t without its last character. */
  lemma {:induction false} DropBoth(s: string, t: string)
    requires |s| > 0 && Subseq(s, t)
    ensures |t| > 0 && Subseq(s[..|s| - 1], t[..|t| - 1])
    decreases |t|
  {
    var t' := t[..|t| - 1];
    if !(s[|s| - 1] == t[|t| - 1] && Subseq(s[..|s| - 1], t')) {
      DropBoth(s, t');
      assert t'[..|t'| - 1] == t[..|t| - 2];
      assert t'[..|t'|] == t';
    }
  }

  /** A common subsequence of a[..i] and b[..j] is never longer than L(i, j). */
  lemma {:induction false} Upper(a: string, b: string, i: nat, j: nat, c: string)
    requires i <= |a| && j <= |b|
    requires Subseq(c, a[..i]) && Subseq(c, b[..j])
    ensures |c| <= L(a, b, i, j)
    decreases i + j
  {
    if |c| == 0 {
      return;
    }
    DropBoth(c, a[..i]);
    DropBoth(c, b[..j]);
    assert a[..i][..i - 1] == a[..i - 1] && b[..j][..j - 1] == b[..j - 1];
    var x := c[|c| - 1];
    if a[i - 1] == b[j - 1] {
      Upper(a, b, i - 1, j - 1, c[..|c| - 1]);
    } else if x != a[i - 1] {
      assert Subseq(c, a[..i - 1]);
      Upper(a, b, i - 1, j, c);
    } else {
      assert Subseq(c, b[..j - 1]);
      Upper(a, b, i, j - 1, c);
    }
  }

  /** Skipping a character at the front of t keeps s a subsequence. */
  lemma {:induction false} PrependAny(s: string, y: char, t: string)
    requires Subseq(s, t)
    ensures Subseq(s, [y] + t)
    decreases |t|
  {
    if |s| > 0 {
      var t' := t[..|t| - 1];
      assert ([y] + t)[..|t|] == [y] + t';
      if s[|s| - 1] == t[|t| - 1] && Subseq(s[..|s| - 1], t') {
        PrependAny(s[..|s| - 1], y, t');
      } else {
        PrependAny(s, y, t');
      }
    }
  }

  /** Matching the same character at the front of both keeps s a subsequence. */
  lemma {:induction false} PrependMatch(x: char, s: string, t: string)
    requires Subseq(s, t)
    ensures Subseq([x] + s, [x] + t)
    decreases |t|
  {
    var xs := [x] + s;
    var xt := [x] + t;
    if |t| == 0 {
      assert xs[..|xs| - 1] == [] == xt[..|xt| - 1];
    } else if |s| == 0 {
      PrependMatch(x, s, t[..|t| - 1]);
      assert xt[..|xt| - 1] == [x] + t[..|t| - 1];
    } else {
      var t' := t[..|t| - 1];
      assert xt[..|xt| - 1] == [x] + t';
      if s[|s| - 1] == t[|t| - 1] && Subseq(s[..|s| - 1], t') {
        PrependMatch(x, s[..|s| - 1], t');
        assert xs[..|xs| - 1] == [x] + s[..|s| - 1];
      } else {
        PrependMatch(x, s, t');
      }
    }
  }

  /** A subsequence of a suffix is a subsequence of the whole. */
  lemma {:induction false} SuffixSubseq(s: string, t: string, i: nat)
    requires i <= |t| && Subseq(s, t[i..])
    ensures Subseq(s, t)
    decreases i
  {
    if i > 0 {
      PrependAny(s, t[i - 1], t[i..]);
      assert [t[i - 1]] + t[i..] == t[i - 1..];
      SuffixSubseq(s, t, i - 1);
    }
  }

  /** One matched step of the walk back: the grown reversed result stays a subsequence of the longer suffix. */
  lemma MatchStep(x: char, res: string, t: string, k: nat)
    requires 0 < k <= |t| && t[k - 1] == x && Subseq(Reverse(res), t[k..])
    ensures Subseq(Reverse(res + [x]), t[k - 1..])
  {
    PrependMatch(x, Reverse(res), t[k..]);
    assert [x] + t[k..] == t[k - 1..];
    assert (res + [x])[..|res|] == res;
  }

  /** One skipped step of the walk back: a subsequence of a suffix is one of the next longer suffix. */
  lemma SkipStep(s: string, t: string, k: nat)
    requires 0 < k <= |t| && Subseq(s, t[k..])
    ensures Subseq(s, t[k - 1..])
  {
    PrependAny(s, t[k - 1], t[k..]);
    assert [t[k - 1]] + t[k..] == t[k - 1..];
  }

  /**
   * `longest_common_subsequence`: the result is a subsequence of both
   * strings, and no common subsequence is longer.
   */
  method Lcs(a: string, b: string) returns (r: string)
    ensures Subseq(r, a) && Subseq(r, b)
    ensures forall c :: Subseq(c, a) && Subseq(c, b) ==> |c| <= |r|
  {
    var dp := Table(a, b);
    var i: nat, j: nat := |a|, |b|;
    var res: string := [];
    assert a[|a|..] == [] && b[|b|..] == [];
    while i > 0 && j > 0
      invariant Walked(a, b, i, j, res)
      decreases i + j
    {
      i, j, res := Back(a, b, dp, i, j, res);
    }
    r := Reverse(res);
    SuffixSubseq(r, a, i);
    SuffixSubseq(r, b, j);
    assert a[..|a|] == a && b[..|b|] == b;
    forall c | Subseq(c, a) && Subseq(c, b)
      ensures |c| <= |r|
    {
      Upper(a, b, |a|, |b|, c);
    }
  }

  /**
   * The walk back so far: res holds, reversed, a common subsequence of the
   * two suffixes, and its length plus the table entry at (i, j) is the
   * answer for the whole strings.
   */
  predicate Walked(a: string, b: string, i: nat, j: nat, res: string)
  {
    && i <= |a| && j <= |b|
    && |res| + L(a, b, i, j) == L(a, b, |a|, |b|)
    && Subseq(Reverse(res), a[i..]) && Subseq(Reverse(res), b[j..])
  }

  /** One step of the walk back from the bottom-right corner of the table. */
  method Back(a: string, b: string, dp: seq<seq<nat>>, i: nat, j: nat, res: string)
    returns (i': nat, j': nat, res': string)
    requires Walked(a, b, i, j, res) && i > 0 && j > 0
    requires |dp| == |a| + 1 && |dp[i - 1]| == |b| + 1 && |dp[i]| == |b| + 1
    requires dp[i - 1][j] == L(a, b, i - 1, j) && dp[i][j - 1] == L(a, b, i, j - 1)
    ensures Walked(a, b, i', j', res') && i' + j' < i + j
  {
    if a[i - 1] == b[j - 1] {
      WalkMatch(a, b, i, j, res);
      res' := res + [a[i - 1]];
      i', j' := i - 1, j - 1;
    } else if dp[i - 1][j] >= dp[i][j - 1] {
      WalkSkip(a, b, i, j, res, true);
      i', j', res' := i - 1, j, res;
    } else {
      WalkSkip(a, b, i, j, res, false);
      i', j', res' := i, j - 1, res;
    }
  }

  /** Matching characters at the corner extend the walk diagonally. */
  lemma WalkMatch(a: string, b: string, i: nat, j: nat, res: string)
    requires Walked(a, b, i, j, res) && i > 0 && j > 0 && a[i - 1] == b[j - 1]
    ensures Walked(a, b, i - 1, j - 1, res + [a[i - 1]])
  {
    assert L(a, b, i, j) == L(a, b, i - 1, j - 1) + 1;
    MatchStep(a[i - 1], res, a, i);
    MatchStep(a[i - 1], res, b, j);
  }

  /** Different characters at the corner move the walk towards the larger neighbour. */
  lemma WalkSkip(a: string, b: string, i: nat, j: nat, res: string, up: bool)
    requires Walked(a, b, i, j, res) && i > 0 && j > 0 && a[i - 1] != b[j - 1]
    requires up <==> L(a, b, i - 1, j) >= L(a, b, i, j - 1)
    ensures up ==> Walked(a, b, i - 1, j, res)
    ensures !up ==> Walked(a, b, i, j - 1, res)
  {
    assert L(a, b, i, j) == Max(L(a, b, i - 1, j), L(a, b, i, j - 1));
    if up {
      SkipStep(Reverse(res), a, i);
    } else {
      SkipStep(Reverse(res), b, j);
    }
  }

  /** A row of the table for a[..r]: one entry per prefix of b, each following the recurrence. */
  predicate RowOk(a: string, b: string, r: nat, row: seq<nat>)
    requires r <= |a|
  {
    |row| == |b| + 1 && forall c :: 0 <= c <= |b| ==> row[c] == L(a, b, r, c)
  }

  /** The table of `longest_common_subsequence`: row 0 is all zero and row i follows the recurrence. */
  method Table(a: string, b: string) returns (dp: seq<seq<nat>>)
    ensures |dp| == |a| + 1
    ensures forall r :: 0 <= r <= |a| ==> |dp[r]| == |b| + 1
    ensures forall r, c :: 0 <= r <= |a| && 0 <= c <= |b| ==> dp[r][c] == L(a, b, r, c)
  {
    var zero: seq<nat> := seq(|b| + 1, _ => 0);
    assert RowOk(a, b, 0, zero);
    dp := [zero];
    var i := 1;
    while i <= |a|
      invariant 1 <= i <= |a| + 1 && |dp| == i
      invariant forall r :: 0 <= r < i ==> RowOk(a, b, r, dp[r])
    {
      var row := Row(a, b, i, dp[i - 1]);
      dp := dp + [row];
      i := i + 1;
    }
  }

  /** One pass of the inner loop: row i of the table from row i - 1. */
  method Row(a: string, b: string, i: nat, prev: seq<nat>) returns (row: seq<nat>)
    requires 1 <= i <= |a| && RowOk(a, b, i - 1, prev)
    ensures RowOk(a, b, i, row)
  {
    row := [0];
    var j := 1;
    while j <= |b|
      invariant 1 <= j <= |b| + 1 && |row| == j
      invariant forall c :: 0 <= c < j ==> row[c] == L(a, b, i, c)
    {
      var cell := if a[i - 1] == b[j - 1] then prev[j - 1] + 1 else Max(prev[j], row[j - 1]);
      assert cell == L(a, b, i, j);
      row := row + [cell];
      j := j + 1;
    }
  }
}
