// Levenshtein similarity and the best-candidate search of src/utils/pattern-matcher.ts.
// Similarity is an exact `real`; floating-point rounding is not modelled.
module StringSimilarity {
  import opened Collections

  function Min3(x: nat, y: nat, z: nat): (r: nat)
    ensures r <= x && r <= y && r <= z && (r == x || r == y || r == z)
  {
    if x <= y && x <= z then x else if y <= z then y else z
  }

  function Max(x: nat, y: nat): nat {
    if x >= y then x else y
  }

  function Cost(c: char, d: char): nat {
    if c == d then 0 else 1
  }

  /** The edit distance between the prefixes a[..i] and b[..j] (deletion, insertion, substitution). */
  function LevAt(a: string, b: string, i: nat, j: nat): nat
    requires i <= |a| && j <= |b|
    decreases i + j
  {
    if i == 0 then j
    else if j == 0 then i
    else Min3(LevAt(a, b, i - 1, j) + 1, LevAt(a, b, i, j - 1) + 1, LevAt(a, b, i - 1, j - 1) + Cost(a[i - 1], b[j - 1]))
  }

  function Lev(a: string, b: string): nat {
    LevAt(a, b, |a|, |b|)
  }

  /** The similarity calculateSimilarity returns: 1 - distance / longer length, 1 for two empty strings. */
  function Similarity(a: string, b: string): real {
    if |a| == 0 then (if |b| == 0 then 1.0 else 0.0)
    else if |b| == 0 then 0.0
    else 1.0 - (Lev(a, b) as real) / (Max(|a|, |b|) as real)
  }

  // ------------------------------------------------------- edit distance laws

  /** The distance never exceeds the longer prefix: substitute along the shorter one, then insert or delete. */
  lemma {:induction false} LevAtUpper(a: string, b: string, i: nat, j: nat)
    requires i <= |a| && j <= |b|
    ensures LevAt(a, b, i, j) <= Max(i, j)
    decreases i + j
  {
    if i > 0 && j > 0 {
      LevAtUpper(a, b, i - 1, j - 1);
    }
  }

  /** The distance is at least the difference of the lengths. */
  lemma {:induction false} LevAtLower(a: string, b: string, i: nat, j: nat)
    requires i <= |a| && j <= |b|
    ensures LevAt(a, b, i, j) >= i - j && LevAt(a, b, i, j) >= j - i
    decreases i + j
  {
    if i > 0 && j > 0 {
      LevAtLower(a, b, i - 1, j);
      LevAtLower(a, b, i, j - 1);
      LevAtLower(a, b, i - 1, j - 1);
    }
  }

  lemma {:induction false} LevAtSymmetric(a: string, b: string, i: nat, j: nat)
    requires i <= |a| && j <= |b|
    ensures LevAt(a, b, i, j) == LevAt(b, a, j, i)
    decreases i + j
  {
    if i > 0 && j > 0 {
      LevAtSymmetric(a, b, i - 1, j);
      LevAtSymmetric(a, b, i, j - 1);
      LevAtSymmetric(a, b, i - 1, j - 1);
    }
  }

  lemma {:induction false} LevAtSelf(a: string, i: nat)
    requires i <= |a|
    ensures LevAt(a, a, i, i) == 0
  {
    if i > 0 {
      LevAtSelf(a, i - 1);
    }
  }

  /** Distance zero means the prefixes are equal. */
  lemma {:induction false} LevAtZero(a: string, b: string, i: nat, j: nat)
    requires i <= |a| && j <= |b| && LevAt(a, b, i, j) == 0
    ensures a[..i] == b[..j]
    decreases i + j
  {
    if i > 0 && j > 0 {
      LevAtZero(a, b, i - 1, j - 1);
      assert a[..i] == a[..i - 1] + [a[i - 1]];
      assert b[..j] == b[..j - 1] + [b[j - 1]];
    }
  }

  /** Lev is a distance on strings: zero exactly on equal strings, symmetric, bounded by the lengths. */
  lemma LevLaws(a: string, b: string)
    ensures Lev(a, b) == 0 <==> a == b
    ensures Lev(a, b) == Lev(b, a)
    ensures Lev(a, b) <= Max(|a|, |b|)
    ensures Lev(a, b) >= |a| - |b| && Lev(a, b) >= |b| - |a|
  {
    LevAtUpper(a, b, |a|, |b|);
    LevAtLower(a, b, |a|, |b|);
    LevAtSymmetric(a, b, |a|, |b|);
    if a == b {
      LevAtSelf(a, |a|);
    }
    if Lev(a, b) == 0 {
      LevAtZero(a, b, |a|, |b|);
      assert a == a[..|a|] && b == b[..|b|];
    }
  }

  /** The similarity lies in [0, 1], is symmetric, and is 1 exactly for equal strings. */
  lemma SimilarityLaws(a: string, b: string)
    ensures 0.0 <= Similarity(a, b) <= 1.0
    ensures Similarity(a, b) == Similarity(b, a)
    ensures Similarity(a, b) == 1.0 <==> a == b
    ensures (|a| == 0) != (|b| == 0) ==> Similarity(a, b) == 0.0
  {
    LevLaws(a, b);
    if |a| > 0 && |b| > 0 {
      var d, m := Lev(a, b) as real, Max(|a|, |b|) as real;
      assert 0.0 <= d / m <= 1.0;
      assert Similarity(a, b) == 1.0 ==> d == 0.0;
    }
  }

  // ---------------------------------------------------------------- the DP

  /** calculateSimilarity: fills the (|a|+1) x (|b|+1) distance matrix row by row. */
  method CalculateSimilarity(a: string, b: string) returns (r: real)
    ensures r == Similarity(a, b)
  {
    var len1, len2 := |a|, |b|;
    if len1 == 0 {
      return if len2 == 0 then 1.0 else 0.0;
    }
    if len2 == 0 {
      return 0.0;
    }
    var matrix := new nat[len1 + 1, len2 + 1];
    var i := 0;
    while i <= len1
      invariant 0 <= i <= len1 + 1
      invariant forall k :: 0 <= k < i ==> matrix[k, 0] == k
    {
      matrix[i, 0] := i;
      i := i + 1;
    }
    var j := 0;
    while j <= len2
      invariant 0 <= j <= len2 + 1
      invariant forall k :: 0 <= k <= len1 ==> matrix[k, 0] == k
      invariant forall k :: 0 <= k < j ==> matrix[0, k] == k
    {
      matrix[0, j] := j;
      j := j + 1;
    }
    assert RowDone(matrix, a, b, 0);
    i := 1;
    while i <= len1
      invariant 1 <= i <= len1 + 1
      invariant forall p :: 0 <= p < i ==> RowDone(matrix, a, b, p)
      invariant forall p :: i <= p <= len1 ==> matrix[p, 0] == p
    {
      label before:
      FillRow(matrix, a, b, i);
      forall p | 0 <= p < i ensures RowDone(matrix, a, b, p) {
        assert old@before(RowDone(matrix, a, b, p));
        assert forall q :: 0 <= q <= len2 ==> matrix[p, q] == old@before(matrix[p, q]);
      }
      i := i + 1;
    }
    assert RowDone(matrix, a, b, len1);
    var distance := matrix[len1, len2];
    var maxLen := if len1 >= len2 then len1 else len2;
    r := 1.0 - (distance as real) / (maxLen as real);
  }

  /** Row `p` of the matrix holds the distances LevAt(a, b, p, q) for every column q < upto. */
  ghost predicate RowPrefixDone(matrix: array2<nat>, a: string, b: string, p: nat, upto: nat)
    reads matrix
    requires matrix.Length0 == |a| + 1 && matrix.Length1 == |b| + 1 && p <= |a| && upto <= |b| + 1
  {
    forall q :: 0 <= q < upto ==> matrix[p, q] == LevAt(a, b, p, q)
  }

  /** Row `p` of the matrix is complete. */
  ghost predicate RowDone(matrix: array2<nat>, a: string, b: string, p: nat)
    reads matrix
    requires matrix.Length0 == |a| + 1 && matrix.Length1 == |b| + 1 && p <= |a|
  {
    RowPrefixDone(matrix, a, b, p, |b| + 1)
  }

  /** One pass of the inner loop: row `i` from the row above it. */
  method FillRow(matrix: array2<nat>, a: string, b: string, i: nat)
    requires matrix.Length0 == |a| + 1 && matrix.Length1 == |b| + 1 && 1 <= i <= |a|
    requires RowDone(matrix, a, b, i - 1)
    requires matrix[i, 0] == i
    modifies matrix
    ensures RowDone(matrix, a, b, i)
    ensures forall p, q :: 0 <= p < matrix.Length0 && 0 <= q < matrix.Length1 && p != i ==> matrix[p, q] == old(matrix[p, q])
  {
    var j := 1;
    while j <= |b|
      invariant 1 <= j <= |b| + 1
      invariant RowPrefixDone(matrix, a, b, i, j)
      invariant forall p, q :: 0 <= p < matrix.Length0 && 0 <= q < matrix.Length1 && p != i ==> matrix[p, q] == old(matrix[p, q])
    {
      FillCell(matrix, a, b, i, j);
      j := j + 1;
    }
  }

  /** One cell: the cheapest of a deletion, an insertion and a substitution or match. */
  method FillCell(matrix: array2<nat>, a: string, b: string, i: nat, j: nat)
    requires matrix.Length0 == |a| + 1 && matrix.Length1 == |b| + 1 && 1 <= i <= |a| && 1 <= j <= |b|
    requires RowDone(matrix, a, b, i - 1) && RowPrefixDone(matrix, a, b, i, j)
    modifies matrix
    ensures RowPrefixDone(matrix, a, b, i, j + 1)
    ensures forall p, q :: 0 <= p < matrix.Length0 && 0 <= q < matrix.Length1 && (p, q) != (i, j) ==> matrix[p, q] == old(matrix[p, q])
  {
    var cost := if a[i - 1] == b[j - 1] then 0 else 1;
    var up, left, diag := matrix[i - 1, j], matrix[i, j - 1], matrix[i - 1, j - 1];
    assert up == LevAt(a, b, i - 1, j) && diag == LevAt(a, b, i - 1, j - 1);
    assert left == LevAt(a, b, i, j - 1);
    matrix[i, j] := Min3(up + 1, left + 1, diag + cost);
  }

  // ------------------------------------------------------- best candidate

  datatype Match = Match(text: string, similarity: real)

  /** Candidate `i` is `m`, has the greatest similarity, and no earlier candidate reaches it. */
  predicate FirstBest(target: string, candidates: seq<string>, i: int, m: Match) {
    0 <= i < |candidates| && candidates[i] == m.text && m.similarity == Similarity(target, candidates[i]) &&
    (forall k :: 0 <= k < i ==> Similarity(target, candidates[k]) < m.similarity) &&
    (forall k :: i < k < |candidates| ==> Similarity(target, candidates[k]) <= m.similarity)
  }

  /**
   * findMostSimilar: the first candidate with the greatest similarity, provided
   * that similarity is strictly above `threshold`; None when no candidate exceeds it.
   */
  method FindMostSimilar(target: string, candidates: seq<string>, threshold: real) returns (r: Option<Match>)
    ensures r.None? <==> forall k :: 0 <= k < |candidates| ==> Similarity(target, candidates[k]) <= threshold
    ensures r.Some? ==> r.value.similarity > threshold
    ensures r.Some? ==> exists i :: FirstBest(target, candidates, i, r.value)
  {
    r := None;
    var maxSimilarity := threshold;
    var best := 0;
    var n := 0;
    while n < |candidates|
      invariant 0 <= n <= |candidates|
      invariant r.None? ==> maxSimilarity == threshold
      invariant forall k :: 0 <= k < n ==> Similarity(target, candidates[k]) <= maxSimilarity
      invariant r.None? <==> forall k :: 0 <= k < n ==> Similarity(target, candidates[k]) <= threshold
      invariant r.Some? ==> best < n && r.value.similarity == maxSimilarity > threshold
      invariant r.Some? ==> candidates[best] == r.value.text && maxSimilarity == Similarity(target, candidates[best])
      invariant r.Some? ==> forall k :: 0 <= k < best ==> Similarity(target, candidates[k]) < maxSimilarity
    {
      var similarity := CalculateSimilarity(target, candidates[n]);
      if similarity > maxSimilarity {
        maxSimilarity := similarity;
        r := Some(Match(candidates[n], similarity));
        best := n;
      }
      n := n + 1;
    }
    if r.Some? {
      assert FirstBest(target, candidates, best, r.value);
    }
  }
}
