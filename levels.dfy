/** Reconciliation of the factor levels of a test response with the levels
    seen in training: matched levels take the zero-based position of their
    first match among the training levels, and levels never seen in training
    take fresh codes from the number of training levels upward, in order. */
module Levels {
  import opened Options

  /** Zero-based position of the first occurrence of `x` in `table`, as
      Rcpp's sugar `match` gives it (one-based there), or `None` for R's
      `NA`. Names are compared as character sequences. */
  function FirstMatch(table: seq<string>, x: string): (r: Option<nat>)
    ensures r.None? <==> x !in table
    ensures r.Some? ==> r.value < |table| && table[r.value] == x &&
                        forall j :: 0 <= j < r.value ==> table[j] != x
  {
    if |table| == 0 then None
    else if table[0] == x then Some(0)
    else match FirstMatch(table[1..], x)
      case None => None
      case Some(k) => Some(k + 1)
  }

  /** Number of levels of `levels` that do not occur in `levelsTrain`. */
  function UnmatchedCount(levels: seq<string>, levelsTrain: seq<string>): nat {
    if |levels| == 0 then 0
    else UnmatchedCount(levels[..|levels| - 1], levelsTrain)
         + (if levels[|levels| - 1] in levelsTrain then 0 else 1)
  }

  /** Number of merged categories: the training levels followed by the unseen
      test levels. */
  function MergedCount(levels: seq<string>, levelsTrain: seq<string>): nat {
    |levelsTrain| + UnmatchedCount(levels, levelsTrain)
  }

  /** Merged zero-based code of test level `i`. */
  function MergedCode(levels: seq<string>, levelsTrain: seq<string>, i: nat): nat
    requires i < |levels|
  {
    match FirstMatch(levelsTrain, levels[i])
    case Some(k) => k
    case None => |levelsTrain| + UnmatchedCount(levels[..i], levelsTrain)
  }

  /** The test-to-merged code map, one entry per test level. */
  function Test2Merged(levels: seq<string>, levelsTrain: seq<string>): (r: seq<nat>)
    ensures |r| == |levels|
    ensures forall i :: 0 <= i < |levels| && levels[i] in levelsTrain ==>
      r[i] < |levelsTrain| && levelsTrain[r[i]] == levels[i] &&
      forall j :: 0 <= j < r[i] ==> levelsTrain[j] != levels[i]
    ensures forall i :: 0 <= i < |levels| && levels[i] !in levelsTrain ==>
      r[i] == |levelsTrain| + UnmatchedCount(levels[..i], levelsTrain)
  {
    seq(|levels|, (i: int) requires 0 <= i < |levels| => MergedCode(levels, levelsTrain, i))
  }

  /** Counting unseen levels over a longer prefix never gives less, and an
      unseen level at position `i` adds one. */
  lemma {:induction false} UnmatchedCountPrefix(levels: seq<string>, levelsTrain: seq<string>, i: nat, j: nat)
    requires i <= j <= |levels|
    ensures UnmatchedCount(levels[..i], levelsTrain) <= UnmatchedCount(levels[..j], levelsTrain)
    ensures i < j && levels[i] !in levelsTrain ==>
      UnmatchedCount(levels[..i], levelsTrain) < UnmatchedCount(levels[..j], levelsTrain)
    decreases j - i
  {
    if i < j {
      UnmatchedCountPrefix(levels, levelsTrain, i, j - 1);
      assert levels[..j][..j - 1] == levels[..j - 1];
      if i == j - 1 {
        assert levels[..j][j - 1] == levels[i];
      } else {
        UnmatchedCountPrefix(levels, levelsTrain, i + 1, j - 1);
        assert levels[..i + 1][..i] == levels[..i];
      }
    }
  }

  /** Every merged code lies below the number of merged categories. */
  lemma Test2MergedBound(levels: seq<string>, levelsTrain: seq<string>)
    ensures forall i :: 0 <= i < |levels| ==>
      Test2Merged(levels, levelsTrain)[i] < MergedCount(levels, levelsTrain)
  {
    forall i | 0 <= i < |levels|
      ensures Test2Merged(levels, levelsTrain)[i] < MergedCount(levels, levelsTrain)
    {
      if levels[i] !in levelsTrain {
        UnmatchedCountPrefix(levels, levelsTrain, i, |levels|);
        assert levels[..|levels|] == levels;
      }
    }
  }

  /** Matched levels get codes below the number of training levels, unseen
      ones codes at or above it. */
  lemma Test2MergedSplit(levels: seq<string>, levelsTrain: seq<string>, i: nat)
    requires i < |levels|
    ensures levels[i] in levelsTrain <==> Test2Merged(levels, levelsTrain)[i] < |levelsTrain|
  {
  }

  /** Unseen levels receive strictly increasing codes in test-level order. */
  lemma UnmatchedCodesIncrease(levels: seq<string>, levelsTrain: seq<string>, i: nat, j: nat)
    requires i < j < |levels| && levels[i] !in levelsTrain && levels[j] !in levelsTrain
    ensures Test2Merged(levels, levelsTrain)[i] < Test2Merged(levels, levelsTrain)[j]
  {
    UnmatchedCountPrefix(levels, levelsTrain, i, j);
  }

  /** Each code from the number of training levels up to the number of merged
      categories is taken by some unseen test level: the fresh codes are
      consecutive. */
  lemma {:induction false} UnmatchedCodesConsecutive(levels: seq<string>, levelsTrain: seq<string>, c: nat)
    requires |levelsTrain| <= c < MergedCount(levels, levelsTrain)
    ensures exists i :: 0 <= i < |levels| && levels[i] !in levelsTrain &&
                        Test2Merged(levels, levelsTrain)[i] == c
    decreases |levels|
  {
    var n := |levels|;
    var init := levels[..n - 1];
    if c < MergedCount(init, levelsTrain) {
      UnmatchedCodesConsecutive(init, levelsTrain, c);
      var i :| 0 <= i < |init| && init[i] !in levelsTrain && Test2Merged(init, levelsTrain)[i] == c;
      assert init[..i] == levels[..i];
      assert levels[i] !in levelsTrain && Test2Merged(levels, levelsTrain)[i] == c;
    } else {
      assert levels[..n - 1] == init;
      assert levels[n - 1] !in levelsTrain && Test2Merged(levels, levelsTrain)[n - 1] == c;
    }
  }

  /** Distinct test levels, as the levels of a factor are, get distinct merged
      codes. */
  lemma Test2MergedInjective(levels: seq<string>, levelsTrain: seq<string>, i: nat, j: nat)
    requires i < |levels| && j < |levels| && i != j && levels[i] != levels[j]
    ensures Test2Merged(levels, levelsTrain)[i] != Test2Merged(levels, levelsTrain)[j]
  {
    if levels[i] !in levelsTrain && levels[j] !in levelsTrain {
      if i < j {
        UnmatchedCodesIncrease(levels, levelsTrain, i, j);
      } else {
        UnmatchedCodesIncrease(levels, levelsTrain, j, i);
      }
    }
  }

  /** R's match over a vector of levels: one-based positions, `None` for `NA`. */
  function OneBasedMatch(levels: seq<string>, levelsTrain: seq<string>): (m: seq<Option<nat>>)
    ensures |m| == |levels|
    ensures forall i :: 0 <= i < |levels| ==>
      (m[i].None? <==> levels[i] !in levelsTrain) &&
      (m[i].Some? ==> m[i].value == FirstMatch(levelsTrain, levels[i]).value + 1)
  {
    seq(|levels|, (i: int) requires 0 <= i < |levels| =>
      match FirstMatch(levelsTrain, levels[i])
      case None => None
      case Some(k) => Some(k + 1))
  }

  /** Number of `NA` entries, as `sum(is.na(m))` counts them. */
  function CountNA(m: seq<Option<nat>>): nat {
    if |m| == 0 then 0 else CountNA(m[..|m| - 1]) + (if m[|m| - 1].None? then 1 else 0)
  }

  lemma {:induction false} CountNAOfMatch(levels: seq<string>, levelsTrain: seq<string>, p: nat)
    requires p <= |levels|
    ensures CountNA(OneBasedMatch(levels, levelsTrain)[..p]) == UnmatchedCount(levels[..p], levelsTrain)
  {
    if p > 0 {
      CountNAOfMatch(levels, levelsTrain, p - 1);
      assert OneBasedMatch(levels, levelsTrain)[..p][..p - 1] == OneBasedMatch(levels, levelsTrain)[..p - 1];
      assert levels[..p][..p - 1] == levels[..p - 1];
    }
  }

  /** Positions of the `NA` entries in increasing order, as
      `seq(0, n - 1)[is.na(m)]` selects them: the `k`-th position holds an
      `NA` preceded by exactly `k` others. */
  function NaPositions(m: seq<Option<nat>>): (r: seq<nat>)
    ensures |r| == CountNA(m)
    ensures forall k :: 0 <= k < |r| ==> r[k] < |m| && m[r[k]].None? && CountNA(m[..r[k]]) == k
  {
    if |m| == 0 then []
    else
      var init := m[..|m| - 1];
      var r0 := NaPositions(init);
      assert forall k :: 0 <= k < |r0| ==> init[..r0[k]] == m[..r0[k]];
      assert m[..|m| - 1] == init;
      r0 + (if m[|m| - 1].None? then [|m| - 1] else [])
  }

  /** Every `NA` entry is listed, at the rank its preceding `NA`s give it. */
  lemma {:induction false} NaPositionsComplete(m: seq<Option<nat>>, p: nat)
    requires p < |m| && m[p].None?
    ensures CountNA(m[..p]) < |NaPositions(m)| && NaPositions(m)[CountNA(m[..p])] == p
  {
    var init := m[..|m| - 1];
    assert m[..|m| - 1] == init;
    if p < |m| - 1 {
      NaPositionsComplete(init, p);
      assert init[..p] == m[..p];
    }
  }
}
