/** Small value types shared by every part of the profiler model. */
module Common {

  /** A value that may be absent: a null cell, a nullable database column. */
  datatype Option<+T> = None | Some(value: T)

  /** The outcome of an operation that the Python code lets raise. */
  datatype Result<+T, +E> = Ok(value: T) | Err(error: E)

  /**
   * A floating-point statistic as pandas returns it: a number, or NaN when
   * the column has no non-null value to summarise.
   */
  datatype Float = Num(val: real) | NaN

  function Abs(x: real): (r: real)
    ensures r >= 0.0 && (r == x || r == -x)
  {
    if x < 0.0 then -x else x
  }

  /** Every element of `s` strictly larger than the one before it. */
  predicate StrictlyIncreasing(s: seq<nat>)
  {
    forall i, j :: 0 <= i < j < |s| ==> s[i] < s[j]
  }

  /**
   * `r` is what `pick` selects from `s`, in the order of `s`: `idx` lists
   * the selected positions in increasing order, each position is selected
   * once, and no selected position is skipped.
   */
  ghost predicate Subsequence<T, U>(s: seq<T>, r: seq<U>, pick: T -> Option<U>, idx: seq<nat>)
  {
    && StrictlyIncreasing(idx) && |idx| == |r|
    && (forall k :: 0 <= k < |idx| ==> idx[k] < |s| && pick(s[idx[k]]) == Some(r[k]))
    && (forall i :: 0 <= i < |s| && pick(s[i]).Some? ==> i in idx)
  }

  /** Every position moved one place on. */
  function Shift(idx: seq<nat>): (r: seq<nat>)
    ensures |r| == |idx| && forall k :: 0 <= k < |idx| ==> r[k] == idx[k] + 1
  {
    seq(|idx|, k requires 0 <= k < |idx| => idx[k] + 1)
  }

  /** Selecting from `[s[0]] + s[1..]` is selecting from `s[0]`, then from `s[1..]` one position further on. */
  lemma SubsequenceCons<T, U>(s: seq<T>, rest: seq<U>, pick: T -> Option<U>, idx: seq<nat>)
    requires |s| > 0 && Subsequence(s[1..], rest, pick, idx)
    ensures var p := pick(s[0]);
      Subsequence(s, (if p.Some? then [p.value] else []) + rest, pick, (if p.Some? then [0] else []) + Shift(idx))
  {
    var p := pick(s[0]);
    var head: seq<nat> := if p.Some? then [0] else [];
    var r := (if p.Some? then [p.value] else []) + rest;
    ShiftedIncreasing(head, idx);
    ShiftedPicks(s, rest, pick, idx, head, r);
    ShiftedCovers(s, rest, pick, idx, head);
  }

  lemma ShiftedIncreasing(head: seq<nat>, idx: seq<nat>)
    requires head == [] || head == [0]
    requires StrictlyIncreasing(idx)
    ensures StrictlyIncreasing(head + Shift(idx))
  {
    var ix := head + Shift(idx);
    forall i, j | 0 <= i < j < |ix| ensures ix[i] < ix[j] {
      if i >= |head| {
        assert ix[i] == idx[i - |head|] + 1 && ix[j] == idx[j - |head|] + 1;
      } else {
        assert ix[j] == idx[j - 1] + 1;
      }
    }
  }

  lemma ShiftedPicks<T, U>(s: seq<T>, rest: seq<U>, pick: T -> Option<U>, idx: seq<nat>, head: seq<nat>, r: seq<U>)
    requires |s| > 0 && |idx| == |rest|
    requires forall k :: 0 <= k < |idx| ==> idx[k] < |s| - 1 && pick(s[1..][idx[k]]) == Some(rest[k])
    requires head == (if pick(s[0]).Some? then [0] else [])
    requires r == (if pick(s[0]).Some? then [pick(s[0]).value] else []) + rest
    ensures |head + Shift(idx)| == |r|
    ensures forall k :: 0 <= k < |head + Shift(idx)| ==>
      (head + Shift(idx))[k] < |s| && pick(s[(head + Shift(idx))[k]]) == Some(r[k])
  {
    var ix := head + Shift(idx);
    var h := |head|;
    forall k | 0 <= k < |ix| ensures ix[k] < |s| && pick(s[ix[k]]) == Some(r[k]) {
      if k >= h {
        assert ix[k] == idx[k - h] + 1 && r[k] == rest[k - h];
        assert s[1..][idx[k - h]] == s[idx[k - h] + 1];
      }
    }
  }

  lemma ShiftedCovers<T, U>(s: seq<T>, rest: seq<U>, pick: T -> Option<U>, idx: seq<nat>, head: seq<nat>)
    requires |s| > 0
    requires forall i :: 0 <= i < |s| - 1 && pick(s[1..][i]).Some? ==> i in idx
    requires head == (if pick(s[0]).Some? then [0] else [])
    ensures forall i :: 0 <= i < |s| && pick(s[i]).Some? ==> i in head + Shift(idx)
  {
    var ix := head + Shift(idx);
    forall i | 0 <= i < |s| && pick(s[i]).Some? ensures i in ix {
      if i == 0 {
        assert ix[0] == 0;
      } else {
        assert s[1..][i - 1] == s[i];
        var k :| 0 <= k < |idx| && idx[k] == i - 1;
        assert ix[|head| + k] == i;
      }
    }
  }
}
