/**
 * Edit distance and the difference coefficient built on it
 * (levenshtein_distance and compare_strings in scrappy/core.py; the
 * levenshteinDistance copies in scrappy.py and scrappy/scrape.py are the
 * same code, character for character).
 */
module EditDistance {
  import opened Wrappers
  import opened Strings

  function Min3(x: nat, y: nat, z: nat): (m: nat)
    ensures m <= x && m <= y && m <= z
    ensures m == x || m == y || m == z
  {
    if x <= y && x <= z then x else if y <= z then y else z
  }

  function Mismatch(c1: char, c2: char): nat
  {
    if c1 != c2 then 1 else 0
  }

  /**
   * The Levenshtein distance: the fewest single-character insertions,
   * deletions and substitutions turning a into b, by the recurrence on the
   * last characters of both strings.
   */
  function Distance(a: string, b: string): nat
    decreases |a| + |b|
  {
    if |a| == 0 then |b|
    else if |b| == 0 then |a|
    else Min3(Distance(a[..|a| - 1], b) + 1,
              Distance(a, b[..|b| - 1]) + 1,
              Distance(a[..|a| - 1], b[..|b| - 1]) + Mismatch(a[|a| - 1], b[|b| - 1]))
  }

  lemma {:induction false} DistanceSymmetric(a: string, b: string)
    ensures Distance(a, b) == Distance(b, a)
    decreases |a| + |b|
  {
    if |a| > 0 && |b| > 0 {
      DistanceSymmetric(a[..|a| - 1], b);
      DistanceSymmetric(a, b[..|b| - 1]);
      DistanceSymmetric(a[..|a| - 1], b[..|b| - 1]);
    }
  }

  lemma {:induction false} DistanceToSelf(a: string)
    ensures Distance(a, a) == 0
    decreases |a|
  {
    if |a| > 0 {
      DistanceToSelf(a[..|a| - 1]);
    }
  }

  lemma {:induction false} DistanceZeroMeansEqual(a: string, b: string)
    requires Distance(a, b) == 0
    ensures a == b
    decreases |a| + |b|
  {
    if |a| > 0 && |b| > 0 {
      var a', b' := a[..|a| - 1], b[..|b| - 1];
      DistanceZeroMeansEqual(a', b');
      assert a == a' + [a[|a| - 1]] && b == b' + [b[|b| - 1]];
    }
  }

  /** The distance is 0 exactly for equal strings. */
  lemma {:induction false} DistanceZeroIffEqual(a: string, b: string)
    ensures Distance(a, b) == 0 <==> a == b
  {
    if a == b { DistanceToSelf(a); }
    if Distance(a, b) == 0 { DistanceZeroMeansEqual(a, b); }
  }

  function Max(x: nat, y: nat): nat { if x >= y then x else y }

  /** The difference of two lengths. */
  function Gap(x: nat, y: nat): nat { if x >= y then x - y else y - x }

  /** The length difference is a lower bound and the longer length an upper bound. */
  lemma {:induction false} DistanceBounds(a: string, b: string)
    ensures Distance(a, b) >= |a| - |b| && Distance(a, b) >= |b| - |a|
    ensures Distance(a, b) <= Max(|a|, |b|)
    decreases |a| + |b|
  {
    if |a| > 0 && |b| > 0 {
      DistanceBounds(a[..|a| - 1], b);
      DistanceBounds(a, b[..|b| - 1]);
      DistanceBounds(a[..|a| - 1], b[..|b| - 1]);
    }
  }

  /** The cheapest of the three edits at a cell, from the neighbouring cells' distances, is the distance at that cell. */
  lemma {:induction false} CellIsDistance(a: string, b: string, i: nat, j: nat, insertions: nat, deletions: nat, substitutions: nat)
    requires i < |a| && j < |b|
    requires insertions == Distance(a[..i], b[..j + 1]) + 1
    requires deletions == Distance(a[..i + 1], b[..j]) + 1
    requires substitutions == Distance(a[..i], b[..j]) + Mismatch(a[i], b[j])
    ensures Min3(insertions, deletions, substitutions) == Distance(a[..i + 1], b[..j + 1])
  {
    DistanceStep(a, b, i, j);
  }

  /** One cell of the table: the recurrence on the prefixes of length i + 1 and j + 1. */
  lemma {:induction false} DistanceStep(a: string, b: string, i: nat, j: nat)
    requires i < |a| && j < |b|
    ensures Distance(a[..i + 1], b[..j + 1]) ==
      Min3(Distance(a[..i], b[..j + 1]) + 1,
           Distance(a[..i + 1], b[..j]) + 1,
           Distance(a[..i], b[..j]) + Mismatch(a[i], b[j]))
  {
    var x, y := a[..i + 1], b[..j + 1];
    assert x[..|x| - 1] == a[..i] && y[..|y| - 1] == b[..j];
    assert x[|x| - 1] == a[i] && y[|y| - 1] == b[j];
  }

  /**
   * levenshtein_distance(s1, s2): both strings are normalized. When the
   * first is the shorter, the function calls itself with the two swapped;
   * that call normalizes them once more, which changes nothing, finds the
   * first at least as long as the second and goes on to the table, so the
   * call is written out here. Otherwise the table is filled directly.
   */
  method LevenshteinDistance(s1: string, s2: string) returns (d: nat)
    ensures d == Distance(Normalize(s1), Normalize(s2))
  {
    var a := Normalize(s1);
    var b := Normalize(s2);
    if |a| < |b| {
      NormalizedSwap(s1, s2);
      var a', b' := Normalize(b), Normalize(a);
      d := FillTable(a', b');
      return;
    }
    d := FillTable(a, b);
  }

  /** Calling again with the normalized strings swapped measures the same distance. */
  lemma {:induction false} NormalizedSwap(s1: string, s2: string)
    ensures Normalize(Normalize(s1)) == Normalize(s1) && Normalize(Normalize(s2)) == Normalize(s2)
    ensures Distance(Normalize(Normalize(s2)), Normalize(Normalize(s1))) == Distance(Normalize(s1), Normalize(s2))
  {
    NormalizeIdempotent(s1);
    NormalizeIdempotent(s2);
    DistanceSymmetric(Normalize(s1), Normalize(s2));
  }

  /**
   * The rest of levenshtein_distance, once the first string is at least as
   * long as the second: an empty first string gives the length of the
   * other, and otherwise the table is filled row by row.
   */
  method FillTable(a: string, b: string) returns (d: nat)
    ensures d == Distance(a, b)
  {
    if |a| == 0 {
      return |b|;
    }
    var previous: seq<nat> := seq(|b| + 1, j => j);
    for i := 0 to |a|
      invariant |previous| == |b| + 1
      invariant forall j :: 0 <= j <= |b| ==> previous[j] == Distance(a[..i], b[..j])
    {
      previous := FillRow(a, b, i, previous);
    }
    assert a[..|a|] == a && b[..|b|] == b;
    d := previous[|b|];
  }

  /**
   * One row of the table: from the distances of a[..i] to every prefix of
   * b, those of a[..i + 1], each cell the cheapest of an insertion, a
   * deletion and a substitution.
   */
  method FillRow(a: string, b: string, i: nat, previous: seq<nat>) returns (current: seq<nat>)
    requires i < |a|
    requires |previous| == |b| + 1
    requires forall j :: 0 <= j <= |b| ==> previous[j] == Distance(a[..i], b[..j])
    ensures |current| == |b| + 1
    ensures forall j :: 0 <= j <= |b| ==> current[j] == Distance(a[..i + 1], b[..j])
  {
    current := [i + 1];
    assert current[0] == Distance(a[..i + 1], b[..0]);
    for j := 0 to |b|
      invariant |current| == j + 1
      invariant forall k :: 0 <= k <= j ==> current[k] == Distance(a[..i + 1], b[..k])
    {
      var insertions := previous[j + 1] + 1;
      var deletions := current[j] + 1;
      var substitutions := previous[j] + Mismatch(a[i], b[j]);
      var cell := Min3(insertions, deletions, substitutions);
      CellIsDistance(a, b, i, j, insertions, deletions, substitutions);
      var current' := current + [cell];
      forall k | 0 <= k <= j + 1 ensures current'[k] == Distance(a[..i + 1], b[..k]) {
        if k <= j {
          assert current'[k] == current[k];
        }
      }
      current := current';
    }
  }

  /**
   * compare_strings(a, b): the distance of the normalized strings divided by
   * the mean of the raw lengths, floored at 0. Python raises
   * ZeroDivisionError when both strings are empty.
   */
  function CompareStrings(a: string, b: string): Result<real>
  {
    if |a| + |b| == 0 then Err(ZeroDivisionError)
    else Ok(Coefficient(Distance(Normalize(a), Normalize(b)), |a| + |b|))
  }

  /**
   * max(0, d / mean(lengths)) for a distance d and lengths whose sum n is
   * positive: never negative, 0 only for distance 0, and at most 2 while
   * the distance is at most the sum of the lengths.
   */
  function Coefficient(d: nat, n: nat): (r: real)
    requires n > 0
    ensures r >= 0.0 && (r == 0.0 <==> d == 0) && (d <= n ==> r <= 2.0)
  {
    MeanRatio(d, n);
    var ratio := d as real / (n as real / 2.0);
    if ratio > 0.0 then ratio else 0.0
  }

  /** The coefficient is defined unless both strings are empty, never negative, and 0 exactly for equal normal forms. */
  lemma {:induction false} CompareStringsZeroIffEqual(a: string, b: string)
    ensures CompareStrings(a, b).Err? <==> a == [] && b == []
    ensures CompareStrings(a, b).Ok? ==> CompareStrings(a, b).value >= 0.0
    ensures CompareStrings(a, b).Ok? ==>
      (CompareStrings(a, b).value == 0.0 <==> Normalize(a) == Normalize(b))
  {
    if |a| + |b| > 0 {
      DistanceZeroIffEqual(Normalize(a), Normalize(b));
    }
  }

  /** The distance over the mean length: never negative, 0 only for distance 0, at most 2 while the distance is at most the sum. */
  lemma {:induction false} MeanRatio(d: nat, n: nat)
    requires n > 0
    ensures var r := d as real / (n as real / 2.0);
      r >= 0.0 && (r == 0.0 <==> d == 0) && (d <= n ==> r <= 2.0)
  {
    var m := n as real / 2.0;
    assert m > 0.0 && 2.0 * m == n as real;
    Quotient(d as real, m);
    if d <= n {
      QuotientAtMost(d as real, m, 2.0);
    }
  }

  /** x / m for m > 0 keeps the sign of x and is 0 only for x == 0. */
  lemma {:induction false} Quotient(x: real, m: real)
    requires x >= 0.0 && m > 0.0
    ensures x / m >= 0.0
    ensures x / m == 0.0 <==> x == 0.0
  {
    assert (x / m) * m == x;
  }

  /** x <= k * m for m > 0 gives x / m <= k. */
  lemma {:induction false} QuotientAtMost(x: real, m: real, k: real)
    requires m > 0.0 && x <= k * m
    ensures x / m <= k
  {
    assert (x / m) * m == x;
  }

  /** x <= y for m > 0 gives x / m <= y / m. */
  lemma {:induction false} QuotientMonotonic(x: real, y: real, m: real)
    requires m > 0.0 && x <= y
    ensures x / m <= y / m
  {
    assert (x / m) * m == x && (y / m) * m == y;
  }

  lemma {:induction false} CompareStringsSymmetric(a: string, b: string)
    ensures CompareStrings(a, b) == CompareStrings(b, a)
  {
    DistanceSymmetric(Normalize(a), Normalize(b));
    assert |a| + |b| == |b| + |a|;
  }

  /** Dividing by the mean rather than the longer length: the coefficient can reach 2. */
  lemma {:induction false} CompareStringsAtMostTwo(a: string, b: string)
    requires CompareStrings(a, b).Ok?
    ensures CompareStrings(a, b).value <= 2.0
  {
    var na, nb := Normalize(a), Normalize(b);
    DistanceBounds(na, nb);
    NormalizeShorter(a);
    NormalizeShorter(b);
  }

  /**
   * compare_strings(a, "") is 2.0 for every non-empty string already in
   * normal form, such as "a": outside the 0 to 1 range its documentation
   * promises.
   */
  lemma {:induction false} CompareStringsExceedsOne(a: string, b: string)
    requires a != [] && Normalize(a) == a && b == []
    ensures CompareStrings(a, b) == Ok(2.0)
  {
    var n := |a|;
    assert |a| + |b| == n;
    assert Distance(Normalize(a), Normalize(b)) == n by {
      DistanceToEmpty(a, Normalize(b));
    }
    assert CompareStrings(a, b) == Ok(Coefficient(n, n));
    SelfOverHalf(n);
  }

  /** n / (n / 2) is 2. */
  lemma {:induction false} SelfOverHalf(n: nat)
    requires n > 0
    ensures n as real / (n as real / 2.0) == 2.0
  {
    var x := n as real;
    var m := x / 2.0;
    assert m > 0.0 && 2.0 * m == x;
    assert (x / m) * m == x;
    assert (x / m - 2.0) * m == 0.0;
  }

  lemma {:induction false} DistanceToEmpty(a: string, b: string)
    requires b == []
    ensures Distance(a, b) == |a|
  {
  }

  /** "a" is in normal form. */
  lemma {:induction false} SingleLetterNormal(a: string)
    requires a == "a"
    ensures Normalize(a) == a
  {
    assert |a| == 1 && a[0] == 'a' && !IsSpace(a[0]);
    assert StripLeft(a) == a;
    assert StripRight(a) == a;
    assert a[1..] == [];
    assert LowerString(a) == [Lower(a[0])] + LowerString(a[1..]);
    assert [Lower(a[0])] == a;
  }

  /**
   * The coefficient as documented: the distance of the normalized strings
   * divided by the longer normalized length, 0 when both are empty.
   */
  function DifferenceCoefficient(a: string, b: string): real
  {
    var na, nb := Normalize(a), Normalize(b);
    Ratio(Distance(na, nb), Max(|na|, |nb|))
  }

  function Ratio(d: nat, m: nat): real
  {
    if m == 0 then 0.0 else d as real / m as real
  }

  /** A distance at most the longer length gives a ratio from 0 to 1. */
  lemma {:induction false} RatioInUnit(d: nat, m: nat)
    requires d <= m
    ensures 0.0 <= Ratio(d, m) <= 1.0
  {
    if m > 0 {
      Quotient(d as real, m as real);
      QuotientAtMost(d as real, m as real, 1.0);
    }
  }

  lemma {:induction false} DifferenceCoefficientInRange(a: string, b: string)
    ensures 0.0 <= DifferenceCoefficient(a, b) <= 1.0
  {
    var na, nb := Normalize(a), Normalize(b);
    var d := Distance(na, nb);
    assert d <= Max(|na|, |nb|) by {
      DistanceBounds(na, nb);
    }
    RatioInUnit(d, Max(|na|, |nb|));
  }

  lemma {:induction false} DifferenceCoefficientZeroIffEqual(a: string, b: string)
    ensures DifferenceCoefficient(a, b) == 0.0 <==> Normalize(a) == Normalize(b)
  {
    var na, nb := Normalize(a), Normalize(b);
    DistanceZeroIffEqual(na, nb);
    var m := Max(|na|, |nb|);
    if m > 0 {
      Quotient(Distance(na, nb) as real, m as real);
    } else {
      assert na == [] && nb == [];
    }
  }

  lemma {:induction false} DifferenceCoefficientSymmetric(a: string, b: string)
    ensures DifferenceCoefficient(a, b) == DifferenceCoefficient(b, a)
  {
    var na, nb := Normalize(a), Normalize(b);
    DistanceSymmetric(na, nb);
    assert Max(|nb|, |na|) == Max(|na|, |nb|);
  }

  /** The coefficient is at least the difference of the normalized lengths over the longer of them. */
  lemma {:induction false} DifferenceCoefficientLengthBound(a: string, b: string)
    ensures var na, nb := Normalize(a), Normalize(b);
      DifferenceCoefficient(a, b) >= Ratio(Gap(|na|, |nb|), Max(|na|, |nb|))
  {
    var na, nb := Normalize(a), Normalize(b);
    assert DifferenceCoefficient(a, b) == Ratio(Distance(na, nb), Max(|na|, |nb|));
    GapRatioBound(na, nb);
  }

  /** The length difference over the longer length bounds the distance over the longer length. */
  lemma {:induction false} GapRatioBound(x: string, y: string)
    ensures Ratio(Distance(x, y), Max(|x|, |y|)) >= Ratio(Gap(|x|, |y|), Max(|x|, |y|))
  {
    var gap := Gap(|x|, |y|);
    assert gap <= Distance(x, y) by {
      DistanceBounds(x, y);
    }
    RatioAtLeast(gap, Distance(x, y), Max(|x|, |y|));
  }

  /** A lower bound on the distance is a lower bound on the ratio. */
  lemma {:induction false} RatioAtLeast(lo: nat, d: nat, m: nat)
    requires lo <= d
    ensures Ratio(lo, m) <= Ratio(d, m)
  {
    if m > 0 {
      QuotientMonotonic(lo as real, d as real, m as real);
    }
  }
}
