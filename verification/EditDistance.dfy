/** Character-level edit distance between two normalised texts, computed in one reused row. */
module EditDistance {
  import opened Seqs

  // ----- What is being measured: scripts of single-character edits -----

  datatype Edit = Insert(at: nat, c: char) | Delete(at: nat) | Substitute(at: nat, c: char)

  predicate Applies(s: string, e: Edit) {
    match e
    case Insert(i, _) => i <= |s|
    case Delete(i) => i < |s|
    case Substitute(i, _) => i < |s|
  }

  function Edited(s: string, e: Edit): string
    requires Applies(s, e)
  {
    match e
    case Insert(i, c) => s[..i] + [c] + s[i..]
    case Delete(i) => s[..i] + s[i + 1..]
    case Substitute(i, c) => s[..i] + [c] + s[i + 1..]
  }

  /** The text a script of edits produces, if every edit applies in its turn. */
  function Perform(s: string, script: seq<Edit>): Option<string>
    decreases |script|
  {
    if script == [] then Some(s)
    else if Applies(s, script[0]) then Perform(Edited(s, script[0]), script[1..])
    else None
  }

  // ----- The recurrence that the program's row obeys -----

  function Min3(a: nat, b: nat, c: nat): nat {
    if a <= b && a <= c then a else if b <= c then b else c
  }

  /** The entry of the row for the first `i` characters of `a` and the first `j` of `b`. */
  function Cell(a: string, b: string, i: nat, j: nat): nat
    requires i <= |a| && j <= |b|
    decreases i + j
  {
    if i == 0 then j
    else if j == 0 then i
    else if a[i - 1] == b[j - 1] then Cell(a, b, i - 1, j - 1)
    else 1 + Min3(Cell(a, b, i - 1, j - 1), Cell(a, b, i - 1, j), Cell(a, b, i, j - 1))
  }

  function Distance(a: string, b: string): nat {
    Cell(a, b, |a|, |b|)
  }

  /** Dropping a last character changes the distance by at most one, and the diagonal neighbour never
      costs more than the cell itself. */
  lemma {:induction false} Neighbours(a: string, b: string, i: nat, j: nat)
    requires i <= |a| && j <= |b|
    ensures i > 0 ==> Cell(a, b, i - 1, j) - 1 <= Cell(a, b, i, j) <= Cell(a, b, i - 1, j) + 1
    ensures j > 0 ==> Cell(a, b, i, j - 1) - 1 <= Cell(a, b, i, j) <= Cell(a, b, i, j - 1) + 1
    ensures i > 0 && j > 0 ==> Cell(a, b, i - 1, j - 1) <= Cell(a, b, i, j) <= Cell(a, b, i - 1, j - 1) + 1
    decreases i + j
  {
    if i > 0 && j > 0 {
      Neighbours(a, b, i - 1, j);
      Neighbours(a, b, i, j - 1);
    }
  }

  function Differ(x: char, y: char): nat {
    if x == y then 0 else 1
  }

  /** On a match the program looks at the diagonal only; the three-way minimum would be the same. */
  lemma {:induction false} DiagonalOnMatch(a: string, b: string, i: nat, j: nat)
    requires 1 <= i <= |a| && 1 <= j <= |b|
    ensures Cell(a, b, i, j) ==
            Min3(Cell(a, b, i - 1, j - 1) + Differ(a[i - 1], b[j - 1]),
                 Cell(a, b, i - 1, j) + 1, Cell(a, b, i, j - 1) + 1)
  {
    Neighbours(a, b, i, j);
  }

  // ----- The distance is a metric -----

  lemma {:induction false} ZeroCell(a: string, b: string, i: nat, j: nat)
    requires i <= |a| && j <= |b|
    ensures Cell(a, b, i, j) == 0 <==> a[..i] == b[..j]
    decreases i
  {
    if i > 0 && j > 0 {
      assert a[..i] == a[..i - 1] + [a[i - 1]] && b[..j] == b[..j - 1] + [b[j - 1]];
      ZeroCell(a, b, i - 1, j - 1);
    }
  }

  lemma {:induction false} SymmetricCell(a: string, b: string, i: nat, j: nat)
    requires i <= |a| && j <= |b|
    ensures Cell(a, b, i, j) == Cell(b, a, j, i)
    decreases i + j
  {
    if i > 0 && j > 0 {
      SymmetricCell(a, b, i - 1, j - 1);
      SymmetricCell(a, b, i - 1, j);
      SymmetricCell(a, b, i, j - 1);
    }
  }

  lemma {:induction false} CellBounds(a: string, b: string, i: nat, j: nat)
    requires i <= |a| && j <= |b|
    ensures i <= j + Cell(a, b, i, j) && j <= i + Cell(a, b, i, j)
    ensures Cell(a, b, i, j) <= if i < j then j else i
    decreases i + j
  {
    if i > 0 && j > 0 {
      CellBounds(a, b, i - 1, j - 1);
      CellBounds(a, b, i - 1, j);
      CellBounds(a, b, i, j - 1);
    }
  }

  lemma {:induction false} TriangleCell(a: string, b: string, c: string, i: nat, j: nat, k: nat)
    requires i <= |a| && j <= |b| && k <= |c|
    ensures Cell(a, c, i, k) <= Cell(a, b, i, j) + Cell(b, c, j, k)
    decreases i + j + k, 1
  {
    if i == 0 || j == 0 || k == 0 {
      CellBounds(a, c, i, k);
      CellBounds(a, b, i, j);
      CellBounds(b, c, j, k);
    } else if Cell(a, b, i, j) == Cell(a, b, i - 1, j) + 1 {
      TriangleCell(a, b, c, i - 1, j, k);
      Neighbours(a, c, i, k);
    } else if Cell(b, c, j, k) == Cell(b, c, j, k - 1) + 1 {
      TriangleCell(a, b, c, i, j, k - 1);
      Neighbours(a, c, i, k);
    } else {
      if Cell(a, b, i, j) == Cell(a, b, i, j - 1) + 1 {
        TriangleAfterInsert(a, b, c, i, j, k);
      } else {
        TriangleAfterDiagonal(a, b, c, i, j, k);
      }
    }
  }

  lemma {:induction false} TriangleAfterInsert(a: string, b: string, c: string, i: nat, j: nat, k: nat)
    requires 1 <= i <= |a| && 1 <= j <= |b| && 1 <= k <= |c|
    requires Cell(a, b, i, j) == Cell(a, b, i, j - 1) + 1
    requires Cell(b, c, j, k) == Cell(b, c, j - 1, k) + 1
             || Cell(b, c, j, k) == Cell(b, c, j - 1, k - 1) + Differ(b[j - 1], c[k - 1])
    ensures Cell(a, c, i, k) <= Cell(a, b, i, j) + Cell(b, c, j, k)
    decreases i + j + k, 0
  {
    if Cell(b, c, j, k) == Cell(b, c, j - 1, k) + 1 {
      TriangleCell(a, b, c, i, j - 1, k);
    } else {
      TriangleCell(a, b, c, i, j - 1, k - 1);
      Neighbours(a, c, i, k);
    }
  }

  lemma {:induction false} TriangleAfterDiagonal(a: string, b: string, c: string, i: nat, j: nat, k: nat)
    requires 1 <= i <= |a| && 1 <= j <= |b| && 1 <= k <= |c|
    requires Cell(a, b, i, j) == Cell(a, b, i - 1, j - 1) + Differ(a[i - 1], b[j - 1])
    requires Cell(b, c, j, k) == Cell(b, c, j - 1, k) + 1
             || Cell(b, c, j, k) == Cell(b, c, j - 1, k - 1) + Differ(b[j - 1], c[k - 1])
    ensures Cell(a, c, i, k) <= Cell(a, b, i, j) + Cell(b, c, j, k)
    decreases i + j + k, 0
  {
    if Cell(b, c, j, k) == Cell(b, c, j - 1, k) + 1 {
      TriangleCell(a, b, c, i - 1, j - 1, k);
      Neighbours(a, c, i, k);
    } else {
      TriangleCell(a, b, c, i - 1, j - 1, k - 1);
    }
  }

  /** Zero for equal texts only, symmetric, the triangle inequality, and at most the longer length. */
  lemma {:induction false} DistanceIsMetric(a: string, b: string, c: string)
    ensures Distance(a, b) == 0 <==> a == b
    ensures Distance(a, b) == Distance(b, a)
    ensures Distance(a, c) <= Distance(a, b) + Distance(b, c)
    ensures Distance(a, b) <= Longer(a, b)
  {
    assert a[..|a|] == a && b[..|b|] == b;
    ZeroCell(a, b, |a|, |b|);
    SymmetricCell(a, b, |a|, |b|);
    TriangleCell(a, b, c, |a|, |b|, |c|);
    CellBounds(a, b, |a|, |b|);
  }

  // ----- The distance is the length of a shortest script -----

  lemma {:induction false} CommonSuffix(a: string, b: string, i: nat, j: nat, k: nat)
    requires i + k <= |a| && j + k <= |b|
    requires a[i..i + k] == b[j..j + k]
    ensures Cell(a, b, i + k, j + k) <= Cell(a, b, i, j)
  {
    if k > 0 {
      assert a[i..i + k][..k - 1] == a[i..i + k - 1] && b[j..j + k][..k - 1] == b[j..j + k - 1];
      assert a[i..i + k][k - 1] == b[j..j + k][k - 1];
      CommonSuffix(a, b, i, j, k - 1);
    }
  }

  /** Equal up to `i`, and again after dropping at most one more character on either side. */
  lemma {:induction false} OneApart(s: string, t: string, i: nat, m: nat, n: nat)
    requires i <= m <= i + 1 && i <= n <= i + 1 && m <= |s| && n <= |t|
    requires s[..i] == t[..i] && s[m..] == t[n..]
    ensures Distance(s, t) <= 1
  {
    OneStep(s, t, i, m, n);
    var k := |s| - m;
    assert s[m..m + k] == s[m..] && t[n..n + k] == t[n..];
    CommonSuffix(s, t, m, n, k);
  }

  lemma {:induction false} OneStep(s: string, t: string, i: nat, m: nat, n: nat)
    requires i <= m <= i + 1 && i <= n <= i + 1 && m <= |s| && n <= |t|
    requires s[..i] == t[..i]
    ensures Cell(s, t, m, n) <= 1
  {
    ZeroCell(s, t, i, i);
    Neighbours(s, t, m, n);
  }

  lemma {:induction false} OneEditCostsOne(s: string, e: Edit)
    requires Applies(s, e)
    ensures Distance(s, Edited(s, e)) <= 1
  {
    match e
    case Insert(i, _) => OneApart(s, Edited(s, e), i, i, i + 1);
    case Delete(i) => OneApart(s, Edited(s, e), i, i + 1, i);
    case Substitute(i, _) => OneApart(s, Edited(s, e), i, i + 1, i + 1);
  }

  /** No script is shorter than the distance. */
  lemma {:induction false} EveryScriptIsLonger(a: string, b: string, script: seq<Edit>)
    requires Perform(a, script) == Some(b)
    ensures Distance(a, b) <= |script|
    decreases |script|
  {
    if script == [] {
      DistanceIsMetric(a, b, b);
    } else {
      var mid := Edited(a, script[0]);
      EveryScriptIsLonger(mid, b, script[1..]);
      OneEditCostsOne(a, script[0]);
      DistanceIsMetric(a, mid, b);
    }
  }

  /** A script for a prefix does the same to the prefix when more text follows. */
  lemma {:induction false} PerformBeforeSuffix(p: string, r: string, q: string, script: seq<Edit>)
    requires Perform(p, script) == Some(r)
    ensures Perform(p + q, script) == Some(r + q)
    decreases |script|
  {
    if script != [] {
      var e := script[0];
      assert Edited(p + q, e) == Edited(p, e) + q;
      PerformBeforeSuffix(Edited(p, e), r, q, script[1..]);
    }
  }

  lemma {:induction false} InsertLast(a: string, p: string, c: char, rest: seq<Edit>)
    requires Perform(a, rest) == Some(p)
    ensures Perform(a, [Insert(|a|, c)] + rest) == Some(p + [c])
  {
    PerformBeforeSuffix(a, p, [c], rest);
    assert Edited(a, Insert(|a|, c)) == a + [c];
  }

  lemma {:induction false} DeleteLast(p: string, c: char, b: string, rest: seq<Edit>)
    requires Perform(p, rest) == Some(b)
    ensures Perform(p + [c], [Delete(|p|)] + rest) == Some(b)
  {
    assert Edited(p + [c], Delete(|p|)) == p;
  }

  lemma {:induction false} SubstituteLast(p: string, c: char, q: string, d: char, rest: seq<Edit>)
    requires Perform(p, rest) == Some(q)
    ensures Perform(p + [c], [Substitute(|p|, d)] + rest) == Some(q + [d])
  {
    PerformBeforeSuffix(p, q, [d], rest);
    assert Edited(p + [c], Substitute(|p|, d)) == p + [d];
  }

  /** Some script is exactly as long as the distance. */
  lemma {:induction false} ShortestScript(a: string, b: string, i: nat, j: nat) returns (script: seq<Edit>)
    requires i <= |a| && j <= |b|
    ensures Perform(a[..i], script) == Some(b[..j]) && |script| == Cell(a, b, i, j)
    decreases i + j
  {
    if i == 0 && j == 0 {
      return [];
    }
    assert i > 0 ==> a[..i] == a[..i - 1] + [a[i - 1]];
    assert j > 0 ==> b[..j] == b[..j - 1] + [b[j - 1]];
    if i > 0 && j > 0 && Cell(a, b, i, j) == Cell(a, b, i - 1, j - 1) + Differ(a[i - 1], b[j - 1]) {
      var rest := ShortestScript(a, b, i - 1, j - 1);
      if a[i - 1] == b[j - 1] {
        PerformBeforeSuffix(a[..i - 1], b[..j - 1], [b[j - 1]], rest);
        return rest;
      }
      SubstituteLast(a[..i - 1], a[i - 1], b[..j - 1], b[j - 1], rest);
      return [Substitute(i - 1, b[j - 1])] + rest;
    } else if i > 0 && (j == 0 || Cell(a, b, i, j) == Cell(a, b, i - 1, j) + 1) {
      var rest := ShortestScript(a, b, i - 1, j);
      DeleteLast(a[..i - 1], a[i - 1], b[..j], rest);
      return [Delete(i - 1)] + rest;
    } else {
      var rest := ShortestScript(a, b, i, j - 1);
      InsertLast(a[..i], b[..j - 1], b[j - 1], rest);
      return [Insert(i, b[j - 1])] + rest;
    }
  }

  /** The recurrence computes the minimum number of insertions, deletions and substitutions. */
  lemma {:induction false} DistanceIsMinimal(a: string, b: string, n: nat)
    ensures n == Distance(a, b) <==>
            && (exists script :: Perform(a, script) == Some(b) && |script| == n)
            && (forall script :: Perform(a, script) == Some(b) ==> n <= |script|)
  {
    var best := ShortestScript(a, b, |a|, |b|);
    assert a[..|a|] == a && b[..|b|] == b;
    forall script | Perform(a, script) == Some(b) ensures Distance(a, b) <= |script| {
      EveryScriptIsLonger(a, b, script);
    }
  }

  // ----- The program -----

  function Longer(a: string, b: string): nat {
    if |a| < |b| then |b| else |a|
  }

  /** The ratio reported for two normalised texts. */
  function Ratio(a: string, b: string): real {
    if a == [] && b == [] then 0.0 else Distance(a, b) as real / Longer(a, b) as real
  }

  lemma {:induction false} FractionRange(x: nat, n: nat)
    requires x <= n && n > 0
    ensures 0.0 <= x as real / n as real <= 1.0
    ensures x as real / n as real == 0.0 <==> x == 0
    ensures x == n ==> x as real / n as real == 1.0
  {
  }

  /** The reported ratio lies in [0, 1], is 0 for identical texts only and ignores the order. */
  lemma {:induction false} RatioIsNormalised(a: string, b: string)
    ensures 0.0 <= Ratio(a, b) <= 1.0
    ensures Ratio(a, b) == 0.0 <==> a == b
    ensures Ratio(a, b) == Ratio(b, a)
  {
    DistanceIsMetric(a, b, b);
    if a != [] || b != [] {
      FractionRange(Distance(a, b), Longer(a, b));
    }
  }

  /** Times the longer length, `r` is the number of edits that turn `a` into `b`, as few as possible. */
  ghost predicate IsEditRate(a: string, b: string, r: real) {
    var edits := r * (if |a| < |b| then |b| else |a|) as real;
    && (exists script :: Perform(a, script) == Some(b) && edits == |script| as real)
    && (forall script :: Perform(a, script) == Some(b) ==> edits <= |script| as real)
  }

  lemma {:induction false} TimesBack(x: nat, n: nat)
    requires n > 0
    ensures (x as real / n as real) * n as real == x as real
  {
  }

  lemma {:induction false} RateOfDistance(a: string, b: string, r: real)
    requires r * (if |a| < |b| then |b| else |a|) as real == Distance(a, b) as real
    ensures IsEditRate(a, b, r)
  {
    DistanceIsMinimal(a, b, Distance(a, b));
    var script :| Perform(a, script) == Some(b) && |script| == Distance(a, b);
    assert r * (if |a| < |b| then |b| else |a|) as real == |script| as real;
  }

  /** The ratio counts edits per character of the longer text. */
  lemma {:induction false} RatioCountsEdits(a: string, b: string)
    ensures a == [] && b == [] ==> Ratio(a, b) == 0.0
    ensures IsEditRate(a, b, Ratio(a, b))
  {
    if a == [] && b == [] {
      assert Distance(a, b) == 0;
    } else {
      TimesBack(Distance(a, b), Longer(a, b));
    }
    RateOfDistance(a, b, Ratio(a, b));
  }

  /** The first `j + 1` entries of the row for `i` characters, the `i`th being `x`, from the row above. */
  function NextRow(above: seq<nat>, x: char, b: string, i: nat, j: nat): (row: seq<nat>)
    requires |above| == |b| + 1 && j <= |b|
    ensures |row| == j + 1
  {
    if j == 0 then [i]
    else
      var row := NextRow(above, x, b, i, j - 1);
      row + [if x == b[j - 1] then above[j - 1] else 1 + Min3(above[j - 1], above[j], row[j - 1])]
  }

  lemma {:induction false} NextRowIsCells(a: string, b: string, above: seq<nat>, i: nat, j: nat)
    requires 1 <= i <= |a| && j <= |b| && |above| == |b| + 1
    requires forall k :: 0 <= k <= |b| ==> above[k] == Cell(a, b, i - 1, k)
    ensures forall k :: 0 <= k <= j ==> NextRow(above, a[i - 1], b, i, j)[k] == Cell(a, b, i, k)
  {
    if j > 0 {
      NextRowIsCells(a, b, above, i, j - 1);
      var row := NextRow(above, a[i - 1], b, i, j - 1);
      assert row[j - 1] == Cell(a, b, i, j - 1);
      assert above[j] == Cell(a, b, i - 1, j) && above[j - 1] == Cell(a, b, i - 1, j - 1);
    }
  }

  /** The inner loop: replaces the row for `i - 1` characters by the row for `i`, in place. */
  method UpdateRow(x: char, ref: string, i: nat, dp: array<nat>)
    requires dp.Length == |ref| + 1
    modifies dp
    ensures dp[..] == NextRow(old(dp[..]), x, ref, i, |ref|)
  {
    var n := |ref|;
    ghost var above := dp[..];
    var prev := dp[0];
    dp[0] := i;
    for j := 1 to n + 1
      invariant prev == above[j - 1]
      invariant dp[..j] == NextRow(above, x, ref, i, j - 1)
      invariant dp[j..] == above[j..]
    {
      var temp := dp[j];
      assert temp == above[j] && dp[j - 1] == dp[..j][j - 1];
      if x == ref[j - 1] {
        dp[j] := prev;
      } else {
        dp[j] := 1 + Min3(prev, dp[j], dp[j - 1]);
      }
      assert dp[..j + 1] == dp[..j] + [dp[j]];
      prev := temp;
    }
    assert dp[..n + 1] == dp[..];
  }

  /** The outer loop: one row, updated in place for every character of the first text. */
  method LastCell(pred: string, ref: string) returns (d: nat)
    ensures d == Distance(pred, ref)
  {
    var m, n := |pred|, |ref|;
    var dp := new nat[n + 1](i => i);
    for i := 1 to m + 1
      invariant forall k :: 0 <= k <= n ==> dp[..][k] == Cell(pred, ref, i - 1, k)
    {
      NextRowIsCells(pred, ref, dp[..], i, n);
      UpdateRow(pred[i - 1], ref, i, dp);
    }
    assert dp[n] == dp[..][n];
    return dp[n];
  }

  /** `normalized_edit_distance` on normalised texts. */
  method NormalizedEditDistance(pred: string, ref: string) returns (r: real)
    ensures r == Ratio(pred, ref) && IsEditRate(pred, ref, r)
  {
    RatioCountsEdits(pred, ref);
    if ref == [] && pred == [] {
      return 0.0;
    }
    if ref == [] || pred == [] {
      FractionRange(Distance(pred, ref), Longer(pred, ref));
      return 1.0;
    }
    var d := LastCell(pred, ref);
    return d as real / (if |pred| < |ref| then |ref| else |pred|) as real;
  }
}
