/** Word error rate, `wer.rs`: the edit distance as a metric. */
module EditDistance {
  import opened Numbers

  // ------------------------------------------------------------ edits and paths

  predicate Inserts<T(==)>(x: seq<T>, y: seq<T>, i: nat)
  {
    i < |y| && |y| == |x| + 1 && y[..i] + y[i + 1..] == x
  }

  predicate Substitutes<T(==)>(x: seq<T>, y: seq<T>, i: nat)
  {
    i < |x| == |y| && x[..i] == y[..i] && x[i + 1..] == y[i + 1..]
  }

  /** One insertion, deletion or substitution, anywhere. */
  ghost predicate OneEdit<T(!new)>(x: seq<T>, y: seq<T>)
  {
    exists i: nat :: Inserts(x, y, i) || Inserts(y, x, i) || Substitutes(x, y, i)
  }

  /** A script: every word list on the way from a to b. */
  ghost predicate IsPath<T(!new)>(path: seq<seq<T>>, a: seq<T>, b: seq<T>)
  {
    && path != [] && path[0] == a && path[|path| - 1] == b
    && forall i | 0 <= i < |path| - 1 :: OneEdit(path[i], path[i + 1])
  }

  // ------------------------------------------------------------- the recurrence

  function Cost<T(==)>(x: T, y: T): (c: nat)
  {
    if x == y then 0 else 1
  }

  /** The recurrence on prefixes that the table fills in. */
  function Distance<T(==)>(a: seq<T>, b: seq<T>): (d: nat)
  {
    if a == [] then |b|
    else if b == [] then |a|
    else
      var a', b' := a[..|a| - 1], b[..|b| - 1];
      Min(Min(Distance(a', b) + 1, Distance(a, b') + 1), Distance(a', b') + Cost(a[|a| - 1], b[|b| - 1]))
  }

  lemma DistanceStep<T>(p: seq<T>, q: seq<T>)
    requires p != [] && q != []
    ensures var a, b := p[..|p| - 1], q[..|q| - 1];
      Distance(p, q) == Min(Min(Distance(a, q) + 1, Distance(p, b) + 1), Distance(a, b) + Cost(p[|p| - 1], q[|q| - 1]))
  {
  }

  // --------------------------------------------------------------------- metric

  lemma {:induction false} Symmetric<T>(a: seq<T>, b: seq<T>)
    ensures Distance(a, b) == Distance(b, a)
  {
    if a != [] && b != [] {
      var a', b' := a[..|a| - 1], b[..|b| - 1];
      Symmetric(a', b);
      Symmetric(a, b');
      Symmetric(a', b');
    }
  }

  /** Between the difference of the lengths and the larger length. */
  lemma {:induction false} Bounds<T>(a: seq<T>, b: seq<T>)
    ensures |a| - |b| <= Distance(a, b) && |b| - |a| <= Distance(a, b)
    ensures Distance(a, b) <= if |a| <= |b| then |b| else |a|
  {
    if a != [] && b != [] {
      var a', b' := a[..|a| - 1], b[..|b| - 1];
      Bounds(a', b);
      Bounds(a, b');
      Bounds(a', b');
    }
  }

  lemma {:induction false} ZeroIffEqual<T>(a: seq<T>, b: seq<T>)
    ensures Distance(a, b) == 0 <==> a == b
  {
    if a != [] && b != [] {
      var a', b' := a[..|a| - 1], b[..|b| - 1];
      ZeroIffEqual(a', b');
      assert a == a' + [a[|a| - 1]] && b == b' + [b[|b| - 1]];
    }
  }

  lemma {:induction false} Triangle<T>(a: seq<T>, b: seq<T>, c: seq<T>)
    ensures Distance(a, c) <= Distance(a, b) + Distance(b, c)
    decreases |a| + |b| + |c|
  {
    if a == [] || b == [] || c == [] {
      Bounds(a, b);
      Bounds(b, c);
      Bounds(a, c);
    } else {
      var a', b', c' := a[..|a| - 1], b[..|b| - 1], c[..|c| - 1];
      if Distance(a, b) == Distance(a', b) + 1 {
        Triangle(a', b, c);
      } else if Distance(b, c) == Distance(b, c') + 1 {
        Triangle(a, b, c');
      } else if Distance(a, b) == Distance(a, b') + 1 {
        Triangle(a, b', c);
        Triangle(a, b', c');
      } else {
        Triangle(a', b', c);
        Triangle(a', b', c');
      }
    }
  }

  // ------------------------------------------------ one edit is at distance one

  lemma {:induction false} CommonSuffix<T>(p: seq<T>, q: seq<T>, s: seq<T>)
    ensures Distance(p + s, q + s) <= Distance(p, q)
    decreases |s|
  {
    if s == [] {
      assert p + s == p && q + s == q;
    } else {
      var s' := s[..|s| - 1];
      CommonSuffix(p, q, s');
      assert (p + s)[..|p + s| - 1] == p + s' && (q + s)[..|q + s| - 1] == q + s';
    }
  }

  lemma LastInserted<T>(p: seq<T>, x: T)
    ensures Distance(p, p + [x]) <= 1
  {
    ZeroIffEqual(p, p);
    assert (p + [x])[..|p|] == p;
  }

  lemma LastSubstituted<T>(p: seq<T>, x: T, y: T)
    ensures Distance(p + [x], p + [y]) <= 1
  {
    ZeroIffEqual(p, p);
    assert (p + [x])[..|p|] == p && (p + [y])[..|p|] == p;
  }

  lemma OneEditNear<T(!new)>(x: seq<T>, y: seq<T>)
    requires OneEdit(x, y)
    ensures Distance(x, y) <= 1
  {
    var i: nat :| Inserts(x, y, i) || Inserts(y, x, i) || Substitutes(x, y, i);
    if Inserts(x, y, i) {
      InsertionNear(x, y, i);
    } else if Inserts(y, x, i) {
      InsertionNear(y, x, i);
      Symmetric(x, y);
    } else {
      SubstitutionNear(x, y, i);
    }
  }

  lemma SubstitutionNear<T>(x: seq<T>, y: seq<T>, i: nat)
    requires Substitutes(x, y, i)
    ensures Distance(x, y) <= 1
  {
    var p, s := x[..i], x[i + 1..];
    LastSubstituted(p, x[i], y[i]);
    CommonSuffix(p + [x[i]], p + [y[i]], s);
    assert x == p + [x[i]] + s && y == p + [y[i]] + s;
  }

  lemma InsertionNear<T>(x: seq<T>, y: seq<T>, i: nat)
    requires Inserts(x, y, i)
    ensures Distance(x, y) <= 1
  {
    LastInserted(y[..i], y[i]);
    CommonSuffix(y[..i], y[..i] + [y[i]], y[i + 1..]);
    assert y == y[..i] + [y[i]] + y[i + 1..];
  }

  // ---------------------------------------------------------- the shortest path

  /** No script is shorter than the distance. */
  lemma {:induction false} NoShorterPath<T(!new)>(path: seq<seq<T>>, a: seq<T>, b: seq<T>)
    requires IsPath(path, a, b)
    ensures Distance(a, b) <= |path| - 1
    decreases |path|
  {
    if |path| == 1 {
      ZeroIffEqual(a, b);
    } else {
      var next := path[1];
      assert OneEdit(path[0], path[0 + 1]);
      OneEditNear(a, next);
      assert forall i | 0 <= i < |path| - 2 :: OneEdit(path[1..][i], path[1..][i + 1]) by {
        forall i | 0 <= i < |path| - 2
          ensures OneEdit(path[1..][i], path[1..][i + 1])
        {
          assert OneEdit(path[i + 1], path[i + 1 + 1]);
        }
      }
      NoShorterPath(path[1..], next, b);
      Triangle(a, next, b);
    }
  }

  lemma AppendEdit<T(!new)>(x: seq<T>, y: seq<T>, t: T)
    requires OneEdit(x, y)
    ensures OneEdit(x + [t], y + [t])
  {
    var i: nat :| Inserts(x, y, i) || Inserts(y, x, i) || Substitutes(x, y, i);
    if Inserts(x, y, i) {
      assert (y + [t])[..i] + (y + [t])[i + 1..] == y[..i] + y[i + 1..] + [t];
      assert Inserts(x + [t], y + [t], i);
    } else if Inserts(y, x, i) {
      assert (x + [t])[..i] + (x + [t])[i + 1..] == x[..i] + x[i + 1..] + [t];
      assert Inserts(y + [t], x + [t], i);
    } else {
      assert (x + [t])[i + 1..] == x[i + 1..] + [t] && (y + [t])[i + 1..] == y[i + 1..] + [t];
      assert (x + [t])[..i] == x[..i] && (y + [t])[..i] == y[..i];
      assert Substitutes(x + [t], y + [t], i);
    }
  }

  function Suffixed<T>(path: seq<seq<T>>, t: T): (r: seq<seq<T>>)
    ensures |r| == |path|
  {
    seq(|path|, i requires 0 <= i < |path| => path[i] + [t])
  }

  lemma PathSuffixed<T(!new)>(path: seq<seq<T>>, a: seq<T>, b: seq<T>, t: T)
    requires IsPath(path, a, b)
    ensures IsPath(Suffixed(path, t), a + [t], b + [t])
  {
    forall i | 0 <= i < |path| - 1
      ensures OneEdit(Suffixed(path, t)[i], Suffixed(path, t)[i + 1])
    {
      AppendEdit(path[i], path[i + 1], t);
    }
  }

  lemma PathExtended<T(!new)>(path: seq<seq<T>>, a: seq<T>, b: seq<T>, c: seq<T>)
    requires IsPath(path, a, b) && OneEdit(b, c)
    ensures IsPath(path + [c], a, c)
  {
    var longer := path + [c];
    forall i | 0 <= i < |longer| - 1
      ensures OneEdit(longer[i], longer[i + 1])
    {
      if i < |path| - 1 {
        assert OneEdit(path[i], path[i + 1]);
      }
    }
  }

  lemma PathPrepended<T(!new)>(path: seq<seq<T>>, a: seq<T>, b: seq<T>, c: seq<T>)
    requires OneEdit(a, b) && IsPath(path, b, c)
    ensures IsPath([a] + path, a, c)
  {
    var longer := [a] + path;
    forall i | 0 <= i < |longer| - 1
      ensures OneEdit(longer[i], longer[i + 1])
    {
      if i > 0 {
        assert OneEdit(path[i - 1], path[i - 1 + 1]);
      }
    }
  }

  lemma EditAppended<T(!new)>(b: seq<T>, y: T)
    ensures OneEdit(b, b + [y]) && OneEdit(b + [y], b)
  {
    assert (b + [y])[..|b|] + (b + [y])[|b| + 1..] == b;
    assert Inserts(b, b + [y], |b|);
  }

  lemma EditSubstituted<T(!new)>(b: seq<T>, x: T, y: T)
    ensures OneEdit(b + [x], b + [y])
  {
    assert (b + [x])[..|b|] == b && (b + [y])[..|b|] == b;
    assert Substitutes(b + [x], b + [y], |b|);
  }

  /** From a script between the shorter lists to one between the longer ones. */
  lemma LastPaired<T(!new)>(path: seq<seq<T>>, a: seq<T>, x: T, b: seq<T>, y: T) returns (longer: seq<seq<T>>)
    requires IsPath(path, a, b)
    ensures IsPath(longer, a + [x], b + [y]) && |longer| == |path| + Cost(x, y)
  {
    PathSuffixed(path, a, b, x);
    longer := Suffixed(path, x);
    if x != y {
      EditSubstituted(b, x, y);
      PathExtended(longer, a + [x], b + [x], b + [y]);
      longer := longer + [b + [y]];
    }
  }

  /** A script of exactly that length exists. */
  lemma {:induction false} ShortestPath<T(!new)>(a: seq<T>, b: seq<T>) returns (path: seq<seq<T>>)
    ensures IsPath(path, a, b) && |path| - 1 == Distance(a, b)
    decreases |a| + |b|
  {
    if a == [] && b == [] {
      path := [a];
    } else if b != [] && (a == [] || Distance(a, b) == Distance(a, b[..|b| - 1]) + 1) {
      var b', y := b[..|b| - 1], b[|b| - 1];
      assert b == b' + [y];
      path := ShortestPath(a, b');
      EditAppended(b', y);
      PathExtended(path, a, b', b);
      path := path + [b];
    } else if b == [] || Distance(a, b) == Distance(a[..|a| - 1], b) + 1 {
      var a', x := a[..|a| - 1], a[|a| - 1];
      assert a == a' + [x];
      path := ShortestPath(a', b);
      EditAppended(a', x);
      PathPrepended(path, a, a', b);
      path := [a] + path;
    } else {
      var a', b', x, y := a[..|a| - 1], b[..|b| - 1], a[|a| - 1], b[|b| - 1];
      assert a == a' + [x] && b == b' + [y];
      var shorter := ShortestPath(a', b');
      path := LastPaired(shorter, a', x, b', y);
    }
  }

  /** The distance is the least length of a script, and the only number that is. */
  lemma DistanceIsMinimum<T(!new)>(a: seq<T>, b: seq<T>, d: nat)
    ensures d == Distance(a, b) <==>
            && (exists path :: IsPath(path, a, b) && |path| - 1 == d)
            && (forall path :: IsPath(path, a, b) ==> d <= |path| - 1)
  {
    var shortest := ShortestPath(a, b);
    forall path | IsPath(path, a, b)
      ensures Distance(a, b) <= |path| - 1
    {
      NoShorterPath(path, a, b);
    }
  }

  // -------------------------------------------------------------------- the code

  /** The distances of one prefix of `a` from every prefix of `b`. */
  function Distances<T(==)>(a: seq<T>, b: seq<T>): (row: seq<nat>)
    ensures |row| == |b| + 1
  {
    seq(|b| + 1, j requires 0 <= j <= |b| => Distance(a, b[..j]))
  }

  /** The recurrence, from the row above, for the element `x` and the columns `b`. */
  predicate Follows<T(==)>(row: seq<nat>, above: seq<nat>, x: T, b: seq<T>)
  {
    && |row| == |above| == |b| + 1 && row[0] == above[0] + 1
    && forall j | 0 < j <= |b| :: row[j] == Min(Min(above[j] + 1, row[j - 1] + 1), above[j - 1] + Cost(x, b[j - 1]))
  }

  /** One cell of a row of distances. */
  lemma CellFollows<T>(a: seq<T>, b: seq<T>, i: nat, j: nat)
    requires 0 < i <= |a| && 0 < j <= |b|
    ensures var row, above := Distances(a[..i], b), Distances(a[..i - 1], b);
      row[j] == Min(Min(above[j] + 1, row[j - 1] + 1), above[j - 1] + Cost(a[i - 1], b[j - 1]))
  {
    assert a[..i][..i - 1] == a[..i - 1] && b[..j][..j - 1] == b[..j - 1];
    DistanceStep(a[..i], b[..j]);
  }

  lemma DistancesFollow<T>(a: seq<T>, b: seq<T>, i: nat)
    requires 0 < i <= |a|
    ensures Follows(Distances(a[..i], b), Distances(a[..i - 1], b), a[i - 1], b)
  {
    var row, above := Distances(a[..i], b), Distances(a[..i - 1], b);
    assert row[0] == i && above[0] == i - 1;
    forall j | 0 < j <= |b|
      ensures row[j] == Min(Min(above[j] + 1, row[j - 1] + 1), above[j - 1] + Cost(a[i - 1], b[j - 1]))
    {
      CellFollows(a, b, i, j);
    }
  }

  /** The first `n` cells of row `i` of the table. */
  predicate RowHolds(dp: array2<nat>, i: nat, row: seq<nat>, n: nat)
    requires i < dp.Length0 && n <= |row| == dp.Length1
    reads dp
  {
    forall j | 0 <= j < n :: dp[i, j] == row[j]
  }

  /** The inner loop: the row that follows the row above. */
  method FillRow<T(==)>(dp: array2<nat>, a: seq<T>, b: seq<T>, i: nat, ghost above: seq<nat>, ghost row: seq<nat>)
    requires 1 <= i <= |a| && dp.Length0 == |a| + 1 && dp.Length1 == |b| + 1
    requires Follows(row, above, a[i - 1], b)
    requires RowHolds(dp, i - 1, above, |b| + 1) && dp[i, 0] == row[0]
    modifies dp
    ensures RowHolds(dp, i, row, |b| + 1)
    ensures forall k | 0 <= k <= |a| :: dp[k, 0] == old(dp[k, 0])
  {
    for j := 1 to |b| + 1
      invariant forall k | 0 <= k <= |a| :: dp[k, 0] == old(dp[k, 0])
      invariant RowHolds(dp, i - 1, above, |b| + 1)
      invariant RowHolds(dp, i, row, j)
    {
      var cost := if a[i - 1] != b[j - 1] then 1 else 0;
      dp[i, j] := Min(Min(dp[i - 1, j] + 1, dp[i, j - 1] + 1), dp[i - 1, j - 1] + cost);
    }
  }

  /** `levenshtein`: the whole table, row by row. */
  method Levenshtein<T(==)>(a: seq<T>, b: seq<T>) returns (d: nat)
    ensures d == Distance(a, b)
  {
    var dp := new nat[|a| + 1, |b| + 1]((i, j) => 0);
    for i := 0 to |a| + 1
      invariant forall k | 0 <= k < i :: dp[k, 0] == k
    {
      dp[i, 0] := i;
    }
    for j := 0 to |b| + 1
      invariant forall k | 0 <= k <= |a| :: dp[k, 0] == k
      invariant forall k | 0 <= k < j :: dp[0, k] == k
    {
      dp[0, j] := j;
    }
    for i := 1 to |a| + 1
      invariant forall k | 0 <= k <= |a| :: dp[k, 0] == k
      invariant RowHolds(dp, i - 1, Distances(a[..i - 1], b), |b| + 1)
    {
      DistancesFollow(a, b, i);
      FillRow(dp, a, b, i, Distances(a[..i - 1], b), Distances(a[..i], b));
    }
    assert a[..|a|] == a && b[..|b|] == b;
    d := dp[|a|, |b|];
  }

  function Rate(errors: nat, words: nat): (r: real)
    requires words > 0
    ensures r * words as real == errors as real
    ensures r == 0.0 <==> errors == 0
  {
    errors as real / words as real
  }

  /** `wer` on tokens, over the reals. */
  method WordErrorRate<T(==)>(reference: seq<T>, hypothesis: seq<T>) returns (rate: real)
    ensures reference == [] ==> rate == if hypothesis == [] then 0.0 else 1.0
    ensures reference != [] ==> rate == Rate(Distance(reference, hypothesis), |reference|)
    ensures rate == 0.0 <==> reference == hypothesis
  {
    if |reference| == 0 {
      return if |hypothesis| == 0 then 0.0 else 1.0;
    }
    var dist := Levenshtein(reference, hypothesis);
    ZeroIffEqual(reference, hypothesis);
    rate := Rate(dist, |reference|);
  }
}
