/**
 * Correlation analysis (`analyze_correlations`): with fewer than two
 * numeric columns the result is only a message; otherwise the strong pairs
 * (|r| > 0.5) of the upper triangle of the correlation matrix, in row-major
 * order, then stably sorted by descending |r|. The Pearson matrix itself is
 * an input (`None` stands for a NaN entry).
 */
module Correlations {
  import opened Common

  datatype StrongCorrelation = StrongCorrelation(column1: string, column2: string, correlation: real)

  datatype CorrelationResult =
    | NotEnoughColumns(message: string)
    | Correlations(matrix: seq<seq<Option<real>>>, strong: seq<StrongCorrelation>)

  const NotEnoughMessage := "Not enough numeric columns for correlation analysis"

  /** The threshold on |r| above which a pair is reported. */
  const StrongThreshold: real := 0.5

  /** `abs(r) > 0.5`; a NaN entry compares false. */
  predicate IsStrong(e: Option<real>)
  {
    e.Some? && Abs(e.value) > StrongThreshold
  }

  /** An n-by-n matrix. */
  predicate IsSquare(m: seq<seq<Option<real>>>, n: nat)
  {
    |m| == n && forall i :: 0 <= i < n ==> |m[i]| == n
  }

  function PairAt(names: seq<string>, m: seq<seq<Option<real>>>, i: nat, j: nat): StrongCorrelation
    requires IsSquare(m, |names|) && i < |names| && j < |names| && m[i][j].Some?
  {
    StrongCorrelation(names[i], names[j], m[i][j].value)
  }

  /** The strong pairs of row i among columns i+1 .. j-1, in column order. */
  function RowPairs(names: seq<string>, m: seq<seq<Option<real>>>, i: nat, j: nat): seq<StrongCorrelation>
    requires IsSquare(m, |names|) && i < j <= |names|
    decreases j
  {
    if j == i + 1 then []
    else RowPairs(names, m, i, j - 1) + (if IsStrong(m[i][j - 1]) then [PairAt(names, m, i, j - 1)] else [])
  }

  /** The strong pairs of rows 0 .. i-1 of the upper triangle, row by row. */
  function UpperPairs(names: seq<string>, m: seq<seq<Option<real>>>, i: nat): seq<StrongCorrelation>
    requires IsSquare(m, |names|) && i <= |names|
  {
    if i == 0 then [] else UpperPairs(names, m, i - 1) + RowPairs(names, m, i - 1, |names|)
  }

  /** The nested i / j loops that collect the strong pairs. */
  method ExtractStrongPairs(names: seq<string>, m: seq<seq<Option<real>>>) returns (pairs: seq<StrongCorrelation>)
    requires IsSquare(m, |names|)
    ensures pairs == UpperPairs(names, m, |names|)
  {
    pairs := [];
    var n := |names|;
    for i := 0 to n
      invariant pairs == UpperPairs(names, m, i)
    {
      for j := i + 1 to n
        invariant pairs == UpperPairs(names, m, i) + RowPairs(names, m, i, j)
      {
        if IsStrong(m[i][j]) {
          pairs := pairs + [PairAt(names, m, i, j)];
        }
      }
    }
  }

  // ------------------------------------------------ stable sort by strength

  function Strength(c: StrongCorrelation): real
  {
    Abs(c.correlation)
  }

  predicate SortedByStrength(s: seq<StrongCorrelation>)
  {
    forall i, j :: 0 <= i < j < |s| ==> Strength(s[i]) >= Strength(s[j])
  }

  /** Puts x before the first element no stronger than it: x, coming first in the input, stays ahead of its ties. */
  function InsertByStrength(x: StrongCorrelation, s: seq<StrongCorrelation>): (r: seq<StrongCorrelation>)
    requires SortedByStrength(s)
    ensures |r| == |s| + 1
    ensures forall y :: y in r ==> y == x || y in s
    ensures SortedByStrength(r)
    ensures multiset(r) == multiset(s) + multiset{x}
  {
    if s == [] || Strength(s[0]) <= Strength(x) then [x] + s
    else
      var rest := InsertByStrength(x, s[1..]);
      InsertBelowHead(x, s, rest);
      [s[0]] + rest
  }

  /** The recursive case of the insertion: the head of s stays first. */
  lemma InsertBelowHead(x: StrongCorrelation, s: seq<StrongCorrelation>, rest: seq<StrongCorrelation>)
    requires SortedByStrength(s) && |s| > 0 && SortedByStrength(rest)
    requires forall y :: y in rest ==> y == x || y in s[1..]
    requires multiset(rest) == multiset(s[1..]) + multiset{x}
    requires Strength(x) < Strength(s[0])
    ensures forall y :: y in [s[0]] + rest ==> y == x || y in s
    ensures SortedByStrength([s[0]] + rest)
    ensures multiset([s[0]] + rest) == multiset(s) + multiset{x}
  {
    assert s == [s[0]] + s[1..];
    assert forall y :: y in s[1..] ==> y in s;
    forall y | y in rest ensures Strength(y) <= Strength(s[0]) {
      if y != x {
        var k :| 0 <= k < |s[1..]| && s[1..][k] == y;
        assert s[k + 1] == y;
      }
    }
    ConsByStrength(s[0], rest);
  }

  lemma ConsByStrength(a: StrongCorrelation, s: seq<StrongCorrelation>)
    requires SortedByStrength(s)
    requires forall y :: y in s ==> Strength(y) <= Strength(a)
    ensures SortedByStrength([a] + s)
  {
    var r := [a] + s;
    forall i, j | 0 <= i < j < |r| ensures Strength(r[i]) >= Strength(r[j]) {
      assert r[j] == s[j - 1];
      if i > 0 {
        assert r[i] == s[i - 1];
      } else {
        assert s[j - 1] in s;
      }
    }
  }

  /** `sorted(s, key=lambda x: abs(x["correlation"]), reverse=True)`. */
  function SortByStrength(s: seq<StrongCorrelation>): (r: seq<StrongCorrelation>)
    ensures SortedByStrength(r)
    ensures multiset(r) == multiset(s)
  {
    if s == [] then []
    else
      assert s == [s[0]] + s[1..];
      InsertByStrength(s[0], SortByStrength(s[1..]))
  }

  /** The correlation result for the numeric columns `names` and their correlation matrix. */
  method AnalyzeCorrelations(names: seq<string>, m: seq<seq<Option<real>>>) returns (r: CorrelationResult)
    requires |names| >= 2 ==> IsSquare(m, |names|)
    ensures |names| < 2 <==> r.NotEnoughColumns?
    ensures r.NotEnoughColumns? ==> r.message == NotEnoughMessage
    ensures r.Correlations? ==> r.matrix == m && r.strong == SortByStrength(UpperPairs(names, m, |names|))
  {
    if |names| < 2 {
      return NotEnoughColumns(NotEnoughMessage);
    }
    var pairs := ExtractStrongPairs(names, m);
    r := Correlations(m, SortByStrength(pairs));
  }

  // ---------------------------------------------------------------- lemmas

  /** The entries of `s` whose strength is v, in their order in `s`. */
  function WithStrength(s: seq<StrongCorrelation>, v: real): seq<StrongCorrelation>
  {
    if s == [] then []
    else (if Strength(s[0]) == v then [s[0]] else []) + WithStrength(s[1..], v)
  }

  lemma WithStrengthCons(h: StrongCorrelation, t: seq<StrongCorrelation>, v: real)
    ensures WithStrength([h] + t, v) == (if Strength(h) == v then [h] else []) + WithStrength(t, v)
  {
    assert ([h] + t)[0] == h && ([h] + t)[1..] == t;
  }

  lemma {:induction false} InsertKeepsTies(x: StrongCorrelation, s: seq<StrongCorrelation>, v: real)
    requires SortedByStrength(s)
    ensures WithStrength(InsertByStrength(x, s), v) == (if Strength(x) == v then [x] else []) + WithStrength(s, v)
  {
    var r := InsertByStrength(x, s);
    var xs := if Strength(x) == v then [x] else [];
    if s == [] || Strength(s[0]) <= Strength(x) {
      assert r == [x] + s;
      WithStrengthCons(x, s, v);
    } else {
      var rest := InsertByStrength(x, s[1..]);
      assert SortedByStrength(s[1..]);
      assert r == [s[0]] + rest;
      assert s == [s[0]] + s[1..];
      var hs := if Strength(s[0]) == v then [s[0]] else [];
      var tail := WithStrength(s[1..], v);
      InsertKeepsTies(x, s[1..], v);
      WithStrengthCons(s[0], rest, v);
      WithStrengthCons(s[0], s[1..], v);
      assert WithStrength(r, v) == hs + (xs + tail);
      assert WithStrength(s, v) == hs + tail;
      if hs == [] {
        assert hs + (xs + tail) == xs + tail;
        assert hs + tail == tail;
      } else {
        assert xs == [];
        assert xs + (hs + tail) == hs + tail;
      }
    }
  }

  /**
   * The sort is stable: for every strength, the entries of that strength
   * appear in the output in the same order as in the input.
   */
  lemma {:induction false} SortIsStable(s: seq<StrongCorrelation>, v: real)
    ensures WithStrength(SortByStrength(s), v) == WithStrength(s, v)
  {
    if s != [] {
      SortIsStable(s[1..], v);
      InsertKeepsTies(s[0], SortByStrength(s[1..]), v);
    }
  }

  /** Sorting a list already sorted by descending strength leaves it unchanged. */
  lemma {:induction false} SortOfSortedIsIdentity(s: seq<StrongCorrelation>)
    requires SortedByStrength(s)
    ensures SortByStrength(s) == s
  {
    if s != [] {
      assert SortedByStrength(s[1..]);
      SortOfSortedIsIdentity(s[1..]);
      assert s == [s[0]] + s[1..];
    }
  }

  /** x is the pair of row a and column b, above the diagonal, with a strong entry. */
  predicate StrongAt(names: seq<string>, m: seq<seq<Option<real>>>, a: int, b: int, x: StrongCorrelation)
  {
    && IsSquare(m, |names|) && 0 <= a < b < |names|
    && IsStrong(m[a][b]) && x == PairAt(names, m, a, b)
  }

  lemma {:induction false} RowPairsSound(names: seq<string>, m: seq<seq<Option<real>>>, i: nat, j: nat, x: StrongCorrelation)
    requires IsSquare(m, |names|) && i < j <= |names| && x in RowPairs(names, m, i, j)
    ensures exists b :: i < b < j && StrongAt(names, m, i, b, x)
    decreases j
  {
    var prev := RowPairs(names, m, i, j - 1);
    if x in prev {
      RowPairsSound(names, m, i, j - 1, x);
      var b :| i < b < j - 1 && StrongAt(names, m, i, b, x);
      assert i < b < j;
    } else {
      assert StrongAt(names, m, i, j - 1, x);
    }
  }

  lemma {:induction false} RowPairsComplete(names: seq<string>, m: seq<seq<Option<real>>>, i: nat, j: nat, b: nat, x: StrongCorrelation)
    requires IsSquare(m, |names|) && i < b < j <= |names| && StrongAt(names, m, i, b, x)
    ensures x in RowPairs(names, m, i, j)
    decreases j
  {
    if b < j - 1 {
      RowPairsComplete(names, m, i, j - 1, b, x);
    }
  }

  lemma RowPairsMembers(names: seq<string>, m: seq<seq<Option<real>>>, i: nat, j: nat, x: StrongCorrelation)
    requires IsSquare(m, |names|) && i < j <= |names|
    ensures x in RowPairs(names, m, i, j) <==> exists b :: i < b < j && StrongAt(names, m, i, b, x)
  {
    if x in RowPairs(names, m, i, j) {
      RowPairsSound(names, m, i, j, x);
    }
    if exists b :: i < b < j && StrongAt(names, m, i, b, x) {
      var b :| i < b < j && StrongAt(names, m, i, b, x);
      RowPairsComplete(names, m, i, j, b, x);
    }
  }

  lemma {:induction false} UpperPairsSound(names: seq<string>, m: seq<seq<Option<real>>>, i: nat, x: StrongCorrelation)
    requires IsSquare(m, |names|) && i <= |names| && x in UpperPairs(names, m, i)
    ensures exists a, b :: 0 <= a < i && StrongAt(names, m, a, b, x)
  {
    var before := UpperPairs(names, m, i - 1);
    var row := RowPairs(names, m, i - 1, |names|);
    assert UpperPairs(names, m, i) == before + row;
    if x in before {
      UpperPairsSound(names, m, i - 1, x);
      var a, b :| 0 <= a < i - 1 && StrongAt(names, m, a, b, x);
      assert 0 <= a < i;
    } else {
      assert x in row;
      RowPairsSound(names, m, i - 1, |names|, x);
      var b :| i - 1 < b < |names| && StrongAt(names, m, i - 1, b, x);
      assert 0 <= i - 1 < i;
    }
  }

  lemma {:induction false} UpperPairsComplete(names: seq<string>, m: seq<seq<Option<real>>>, i: nat, a: nat, b: nat, x: StrongCorrelation)
    requires IsSquare(m, |names|) && a < i <= |names| && StrongAt(names, m, a, b, x)
    ensures x in UpperPairs(names, m, i)
  {
    var before := UpperPairs(names, m, i - 1);
    var row := RowPairs(names, m, i - 1, |names|);
    if a < i - 1 {
      UpperPairsComplete(names, m, i - 1, a, b, x);
      InLeft(x, before, row);
    } else {
      RowPairsComplete(names, m, a, |names|, b, x);
      InRight(x, before, row);
    }
  }

  lemma InLeft<T>(x: T, s: seq<T>, t: seq<T>)
    requires x in s
    ensures x in s + t
  {
  }

  lemma InRight<T>(x: T, s: seq<T>, t: seq<T>)
    requires x in t
    ensures x in s + t
  {
  }

  /**
   * The extracted list holds exactly the upper-triangle pairs (a, b),
   * a < b, whose entry is a number of magnitude above 0.5: no diagonal
   * entry, no NaN entry, nothing below the diagonal.
   */
  lemma UpperPairsMembers(names: seq<string>, m: seq<seq<Option<real>>>, i: nat, x: StrongCorrelation)
    requires IsSquare(m, |names|) && i <= |names|
    ensures x in UpperPairs(names, m, i) <==> exists a, b :: 0 <= a < i && StrongAt(names, m, a, b, x)
  {
    if x in UpperPairs(names, m, i) {
      UpperPairsSound(names, m, i, x);
    }
    if exists a, b :: 0 <= a < i && StrongAt(names, m, a, b, x) {
      var a, b :| 0 <= a < i && StrongAt(names, m, a, b, x);
      UpperPairsComplete(names, m, i, a, b, x);
    }
  }

  // ------------------------------------------- no self, reversed or repeated pairs

  predicate DistinctStrings(names: seq<string>)
  {
    forall i, j :: 0 <= i < j < |names| ==> names[i] != names[j]
  }

  /** No two positions of `s` name the same ordered pair of columns. */
  predicate NoRepeatedPair(s: seq<StrongCorrelation>)
  {
    forall p, q :: 0 <= p < q < |s| ==> s[p].column1 != s[q].column1 || s[p].column2 != s[q].column2
  }

  lemma ConcatNoRepeat(a: seq<StrongCorrelation>, b: seq<StrongCorrelation>)
    requires NoRepeatedPair(a) && NoRepeatedPair(b)
    requires forall x, y :: x in a && y in b ==> x.column1 != y.column1 || x.column2 != y.column2
    ensures NoRepeatedPair(a + b)
  {
    var c := a + b;
    forall p, q | 0 <= p < q < |c| ensures c[p].column1 != c[q].column1 || c[p].column2 != c[q].column2 {
      if q < |a| {
        assert c[p] == a[p] && c[q] == a[q];
      } else if p >= |a| {
        assert c[p] == b[p - |a|] && c[q] == b[q - |a|];
      } else {
        assert c[p] in a && c[q] in b;
      }
    }
  }

  lemma {:induction false} RowPairsNoRepeat(names: seq<string>, m: seq<seq<Option<real>>>, i: nat, j: nat)
    requires IsSquare(m, |names|) && i < j <= |names| && DistinctStrings(names)
    ensures NoRepeatedPair(RowPairs(names, m, i, j))
    decreases j
  {
    if j > i + 1 {
      var prev := RowPairs(names, m, i, j - 1);
      RowPairsNoRepeat(names, m, i, j - 1);
      if IsStrong(m[i][j - 1]) {
        var y := PairAt(names, m, i, j - 1);
        forall x | x in prev ensures x.column2 != y.column2 {
          RowPairsSound(names, m, i, j - 1, x);
          var b :| i < b < j - 1 && StrongAt(names, m, i, b, x);
          assert x.column2 == names[b];
        }
        ConcatNoRepeat(prev, [y]);
      }
    }
  }

  /** Every pair of row i starts with column i. */
  lemma {:induction false} RowPairsFirst(names: seq<string>, m: seq<seq<Option<real>>>, i: nat, j: nat, y: StrongCorrelation)
    requires IsSquare(m, |names|) && i < j <= |names| && y in RowPairs(names, m, i, j)
    ensures y.column1 == names[i]
    decreases j
  {
    if y in RowPairs(names, m, i, j - 1) {
      RowPairsFirst(names, m, i, j - 1, y);
    }
  }

  /** Every pair of the rows before i starts with one of their columns. */
  lemma {:induction false} UpperPairsFirst(names: seq<string>, m: seq<seq<Option<real>>>, i: nat, x: StrongCorrelation)
    requires IsSquare(m, |names|) && i <= |names| && x in UpperPairs(names, m, i)
    ensures exists a :: 0 <= a < i && x.column1 == names[a]
  {
    var before := UpperPairs(names, m, i - 1);
    if x in before {
      UpperPairsFirst(names, m, i - 1, x);
      var a :| 0 <= a < i - 1 && x.column1 == names[a];
      assert 0 <= a < i;
    } else {
      RowPairsFirst(names, m, i - 1, |names|, x);
    }
  }

  lemma UpperPairsStartEarlier(names: seq<string>, m: seq<seq<Option<real>>>, i: nat)
    requires IsSquare(m, |names|) && i <= |names|
    ensures forall x :: x in UpperPairs(names, m, i) ==> exists a :: 0 <= a < i && x.column1 == names[a]
  {
    forall x | x in UpperPairs(names, m, i) ensures exists a :: 0 <= a < i && x.column1 == names[a] {
      UpperPairsFirst(names, m, i, x);
    }
  }

  lemma RowPairsStartAt(names: seq<string>, m: seq<seq<Option<real>>>, i: nat)
    requires IsSquare(m, |names|) && i < |names|
    ensures forall y :: y in RowPairs(names, m, i, |names|) ==> y.column1 == names[i]
  {
    forall y | y in RowPairs(names, m, i, |names|) ensures y.column1 == names[i] {
      RowPairsFirst(names, m, i, |names|, y);
    }
  }

  /** Pairs starting in earlier rows and pairs starting in row r have different first columns. */
  lemma FirstColumnsDiffer(names: seq<string>, before: seq<StrongCorrelation>, row: seq<StrongCorrelation>, r: nat)
    requires DistinctStrings(names) && r < |names|
    requires forall x :: x in before ==> exists a :: 0 <= a < r && x.column1 == names[a]
    requires forall y :: y in row ==> y.column1 == names[r]
    ensures forall x, y :: x in before && y in row ==> x.column1 != y.column1
  {
    forall x, y | x in before && y in row ensures x.column1 != y.column1 {
      var a :| 0 <= a < r && x.column1 == names[a];
      DistinctAt(names, a, r);
    }
  }

  lemma DistinctAt(names: seq<string>, a: nat, b: nat)
    requires DistinctStrings(names) && a < b < |names|
    ensures names[a] != names[b]
  {
  }

  lemma {:induction false} UpperPairsNoRepeat(names: seq<string>, m: seq<seq<Option<real>>>, i: nat)
    requires IsSquare(m, |names|) && i <= |names| && DistinctStrings(names)
    ensures NoRepeatedPair(UpperPairs(names, m, i))
  {
    if i > 0 {
      var n := |names|;
      var before := UpperPairs(names, m, i - 1);
      var row := RowPairs(names, m, i - 1, n);
      UpperPairsNoRepeat(names, m, i - 1);
      RowPairsNoRepeat(names, m, i - 1, n);
      UpperPairsStartEarlier(names, m, i - 1);
      RowPairsStartAt(names, m, i - 1);
      FirstColumnsDiffer(names, before, row, i - 1);
      ConcatNoRepeat(before, row);
      assert UpperPairs(names, m, i) == before + row;
    }
  }

  lemma {:induction false} TwoPositions(t: seq<StrongCorrelation>, p: nat, q: nat)
    requires p < q < |t| && t[p] == t[q]
    ensures multiset(t)[t[p]] >= 2
  {
    if p > 0 {
      assert t == [t[0]] + t[1..];
      TwoPositions(t[1..], p - 1, q - 1);
    } else {
      assert t == [t[0]] + t[1..];
      assert t[q] in t[1..];
    }
  }

  lemma {:induction false} AtMostOnce(s: seq<StrongCorrelation>, x: StrongCorrelation)
    requires NoRepeatedPair(s)
    ensures multiset(s)[x] <= 1
  {
    if s != [] {
      assert s == [s[0]] + s[1..];
      assert NoRepeatedPair(s[1..]);
      AtMostOnce(s[1..], x);
      if s[0] == x {
        assert x !in s[1..];
      }
    }
  }

  /** Reordering a list without repeated pairs (the stable sort does) cannot create one. */
  lemma PermutationNoRepeat(s: seq<StrongCorrelation>, t: seq<StrongCorrelation>)
    requires NoRepeatedPair(s) && multiset(t) == multiset(s)
    ensures NoRepeatedPair(t)
  {
    forall p, q | 0 <= p < q < |t| ensures t[p].column1 != t[q].column1 || t[p].column2 != t[q].column2 {
      assert t[p] in multiset(s) && t[q] in multiset(s);
      var i :| 0 <= i < |s| && s[i] == t[p];
      var j :| 0 <= j < |s| && s[j] == t[q];
      if i == j {
        TwoPositions(t, p, q);
        AtMostOnce(s, t[p]);
        assert false;
      }
    }
  }

  lemma ExtractedPairIsStrong(names: seq<string>, m: seq<seq<Option<real>>>, x: StrongCorrelation)
    requires IsSquare(m, |names|) && DistinctStrings(names) && x in UpperPairs(names, m, |names|)
    ensures x.column1 != x.column2 && Strength(x) > StrongThreshold
  {
    UpperPairsSound(names, m, |names|, x);
    var a, b :| 0 <= a < |names| && StrongAt(names, m, a, b, x);
    assert x.column1 == names[a] && x.column2 == names[b];
  }

  lemma NoReversedPairs(names: seq<string>, m: seq<seq<Option<real>>>, x: StrongCorrelation, y: StrongCorrelation)
    requires IsSquare(m, |names|) && DistinctStrings(names)
    requires x in UpperPairs(names, m, |names|) && y in UpperPairs(names, m, |names|)
    ensures x.column1 != y.column2 || x.column2 != y.column1
  {
    UpperPairsSound(names, m, |names|, x);
    UpperPairsSound(names, m, |names|, y);
    var a, b :| 0 <= a < |names| && StrongAt(names, m, a, b, x);
    var c, d :| 0 <= c < |names| && StrongAt(names, m, c, d, y);
    assert x.column1 == names[a] && x.column2 == names[b];
    assert y.column1 == names[c] && y.column2 == names[d];
  }

  /**
   * With distinct column names, the reported list never pairs a column
   * with itself, never holds a pair together with its reverse, and never
   * names the same pair twice.
   */
  lemma StrongPairsWellFormed(names: seq<string>, m: seq<seq<Option<real>>>)
    requires IsSquare(m, |names|) && DistinctStrings(names)
    ensures var s := SortByStrength(UpperPairs(names, m, |names|));
      && (forall x :: x in s ==> x.column1 != x.column2 && Strength(x) > StrongThreshold)
      && (forall x, y :: x in s && y in s ==> x.column1 != y.column2 || x.column2 != y.column1)
      && NoRepeatedPair(s)
  {
    var u := UpperPairs(names, m, |names|);
    var s := SortByStrength(u);
    assert forall x :: x in s ==> x in u by {
      forall x | x in s ensures x in u { assert x in multiset(s); }
    }
    forall x | x in u ensures x.column1 != x.column2 && Strength(x) > StrongThreshold {
      ExtractedPairIsStrong(names, m, x);
    }
    forall x, y | x in u && y in u ensures x.column1 != y.column2 || x.column2 != y.column1 {
      NoReversedPairs(names, m, x, y);
    }
    UpperPairsNoRepeat(names, m, |names|);
    PermutationNoRepeat(u, s);
  }
}
