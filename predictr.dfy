/** The R-facing side of prediction: reconciling test-response categories
    with the training categories, and reshaping the core's flat result buffers
    into the matrices handed back to R. */
module PredictR {
  import opened Options
  import opened Layout
  import opened Levels
  import Prediction

  /** An R factor: one-based codes into its level names. */
  datatype Factor = Factor(codes: seq<int>, levels: seq<string>)

  /** Every code names one of the factor's levels (no `NA`). */
  predicate ValidCodes(f: Factor) {
    forall i :: 0 <= i < |f.codes| ==> 1 <= f.codes[i] <= |f.levels|
  }

  /** `m - 1` over a one-based vector that has no `NA` left. */
  function ZeroBased(m: seq<Option<nat>>): (r: seq<nat>)
    requires forall k :: 0 <= k < |m| ==> m[k].Some? && m[k].value >= 1
    ensures |r| == |m| && forall k :: 0 <= k < |m| ==> r[k] == m[k].value - 1
  {
    seq(|m|, (k: int) requires 0 <= k < |m| => m[k].value - 1)
  }

  /** The largest element of a nonempty vector. */
  function MaxCode(s: seq<nat>): (r: nat)
    requires |s| > 0
    ensures forall i :: 0 <= i < |s| ==> s[i] <= r
    ensures exists i :: 0 <= i < |s| && s[i] == r
  {
    if |s| == 1 then s[0]
    else
      var m := MaxCode(s[1..]);
      if s[0] >= m then s[0] else m
  }

  /** One more than the largest reconciled code. */
  function CtgMerged(yTestZero: seq<nat>): (r: nat)
    requires |yTestZero| > 0
    ensures forall i :: 0 <= i < |yTestZero| ==> yTestZero[i] < r
    ensures exists i :: 0 <= i < |yTestZero| && yTestZero[i] == r - 1
  {
    MaxCode(yTestZero) + 1
  }

  /** Reconciled codes, and the number of merged categories they span, stay
      below the number of merged categories. */
  lemma CtgMergedBound(levels: seq<string>, levelsTrain: seq<string>, yTestOne: seq<int>, yTestZero: seq<nat>)
    requires |yTestOne| > 0 && forall i :: 0 <= i < |yTestOne| ==> 1 <= yTestOne[i] <= |levels|
    requires |yTestZero| == |yTestOne|
    requires forall i :: 0 <= i < |yTestOne| ==>
      yTestZero[i] == Test2Merged(levels, levelsTrain)[yTestOne[i] - 1]
    ensures forall i :: 0 <= i < |yTestZero| ==> yTestZero[i] < MergedCount(levels, levelsTrain)
    ensures CtgMerged(yTestZero) <= MergedCount(levels, levelsTrain)
  {
    Test2MergedBound(levels, levelsTrain);
    assert forall i :: 0 <= i < |yTestZero| ==> yTestZero[i] < MergedCount(levels, levelsTrain) by {
      forall i | 0 <= i < |yTestZero|
        ensures yTestZero[i] < MergedCount(levels, levelsTrain)
      {
        assert 0 <= yTestOne[i] - 1 < |levels|;
      }
    }
  }

  /** Selects, for each test category, the row of the core confusion buffer
      that its merged code names; the buffer is read as `nRows` rows of
      `ctgTrain` counts. */
  method SelectConfusionRows(confusion: seq<nat>, ctgTrain: nat, nRows: nat, test2Merged: seq<nat>)
    returns (confOut: Matrix<nat>)
    requires ctgTrain * nRows <= |confusion|
    requires forall i :: 0 <= i < |test2Merged| ==> test2Merged[i] < nRows
    ensures Shaped(confOut) && confOut.nRow == |test2Merged| && confOut.nCol == ctgTrain
    ensures forall i, j :: 0 <= i < |test2Merged| && 0 <= j < ctgTrain ==>
      Prediction.CtgIdx(ctgTrain, test2Merged[i], j) < |confusion| &&
      At(confOut, i, j) == confusion[Prediction.CtgIdx(ctgTrain, test2Merged[i], j)]
  {
    var conf := Transpose(FromColumnMajor(ctgTrain, nRows, confusion));
    var ctgTest := |test2Merged|;
    confOut := Filled(ctgTest, ctgTrain, 0);
    var i := 0;
    while i < ctgTest
      invariant 0 <= i <= ctgTest
      invariant Shaped(confOut) && confOut.nRow == ctgTest && confOut.nCol == ctgTrain
      invariant forall k, j :: 0 <= k < i && 0 <= j < ctgTrain ==>
        At(confOut, k, j) == At(conf, test2Merged[k], j)
    {
      confOut := SetRow(confOut, i, Row(conf, test2Merged[i]));
      i := i + 1;
    }
  }

  /** State of the match vector after the first `done` unseen levels have
      received their one-based proxy codes. */
  ghost function Proxied(orig: seq<Option<nat>>, nTrain: nat, done: nat, p: nat): Option<nat>
    requires p < |orig|
  {
    if orig[p].Some? then orig[p]
    else if CountNA(orig[..p]) < done then Some(nTrain + 1 + CountNA(orig[..p]))
    else None
  }

  /** Giving the next `NA` position its proxy code advances the state by one. */
  lemma ProxyStep(orig: seq<Option<nat>>, nTrain: nat, done: nat,
                  matched: seq<Option<nat>>, next: seq<Option<nat>>)
    requires done < |NaPositions(orig)| && |matched| == |orig|
    requires forall p :: 0 <= p < |orig| ==> matched[p] == Proxied(orig, nTrain, done, p)
    requires next == matched[NaPositions(orig)[done] := Some(nTrain + 1 + done)]
    ensures forall p :: 0 <= p < |orig| ==> next[p] == Proxied(orig, nTrain, done + 1, p)
  {
    var idx := NaPositions(orig)[done];
    forall p | 0 <= p < |orig| && orig[p].None? && p != idx
      ensures CountNA(orig[..p]) != done
    {
      NaPositionsComplete(orig, p);
    }
  }

  /** Once every `NA` has its proxy code, the zero-based vector is the
      test-to-merged map. */
  lemma ProxyDone(levelsTest: seq<string>, levelsTrain: seq<string>, matched: seq<Option<nat>>)
    requires var orig := OneBasedMatch(levelsTest, levelsTrain);
      |matched| == |orig| &&
      forall p :: 0 <= p < |orig| ==> matched[p] == Proxied(orig, |levelsTrain|, CountNA(orig), p)
    ensures forall k :: 0 <= k < |matched| ==> matched[k].Some? && matched[k].value >= 1
    ensures ZeroBased(matched) == Test2Merged(levelsTest, levelsTrain)
  {
    var orig := OneBasedMatch(levelsTest, levelsTrain);
    assert orig[..|orig|] == orig;
    forall p | 0 <= p < |orig| && orig[p].None?
      ensures CountNA(orig[..p]) < CountNA(orig)
      ensures CountNA(orig[..p]) == UnmatchedCount(levelsTest[..p], levelsTrain)
    {
      NaPositionsComplete(orig, p);
      CountNAOfMatch(levelsTest, levelsTrain, p);
    }
    var z := ZeroBased(matched);
    var t := Test2Merged(levelsTest, levelsTrain);
    assert forall k :: 0 <= k < |t| ==> z[k] == t[k];
  }

  /** Gives the `NA` entries, listed in `idxNA`, the one-based proxy codes
      `nTrain + 1`, `nTrain + 2`, ... in order. */
  method AssignProxies(orig: seq<Option<nat>>, idxNA: seq<nat>, nTrain: nat) returns (matched: seq<Option<nat>>)
    requires idxNA == NaPositions(orig)
    ensures |matched| == |orig|
    ensures forall p :: 0 <= p < |orig| ==> matched[p] == Proxied(orig, nTrain, CountNA(orig), p)
  {
    matched := orig;
    var proxy := nTrain + 1;
    var i := 0;
    while i < |idxNA|
      invariant 0 <= i <= |idxNA|
      invariant proxy == nTrain + 1 + i
      invariant |matched| == |orig|
      invariant forall p :: 0 <= p < |orig| ==> matched[p] == Proxied(orig, nTrain, i, p)
    {
      var idx := idxNA[i];
      ghost var prev := matched;
      matched := matched[idx := Some(proxy)];
      ProxyStep(orig, nTrain, i, prev, matched);
      proxy := proxy + 1;
      i := i + 1;
    }
  }

  /** There are as many `NA` positions as unseen test levels. */
  lemma NaCountIsUnmatched(levelsTest: seq<string>, levelsTrain: seq<string>)
    ensures |NaPositions(OneBasedMatch(levelsTest, levelsTrain))| == UnmatchedCount(levelsTest, levelsTrain)
  {
    var orig := OneBasedMatch(levelsTest, levelsTrain);
    CountNAOfMatch(levelsTest, levelsTrain, |levelsTest|);
    assert orig[..|orig|] == orig && levelsTest[..|levelsTest|] == levelsTest;
  }

  /** Test-response reconciliation for classification. */
  class TestCtgR {
    const levelsTrain: seq<string>
    const levels: seq<string>
    const test2Merged: seq<nat>
    const yTestZero: seq<nat>
    const ctgMerged: nat
    /** Whether the warning about unseen test levels was issued. */
    const warned: bool

    ghost predicate Valid() {
      test2Merged == Test2Merged(levels, levelsTrain) &&
      |yTestZero| > 0 && ctgMerged == CtgMerged(yTestZero) &&
      (warned <==> UnmatchedCount(levels, levelsTrain) > 0)
    }

    constructor (yTestOne: Factor, levelsTrain: seq<string>)
      requires |yTestOne.codes| > 0 && ValidCodes(yTestOne)
      ensures Valid()
      ensures this.levelsTrain == levelsTrain && levels == yTestOne.levels
      ensures |yTestZero| == |yTestOne.codes|
      ensures forall i :: 0 <= i < |yTestZero| ==> yTestZero[i] == test2Merged[yTestOne.codes[i] - 1]
    {
      this.levelsTrain := levelsTrain;
      levels := yTestOne.levels;
      assert 1 <= yTestOne.codes[0] <= |yTestOne.levels|;
      var t2m, w := MergeLevels(yTestOne.levels, levelsTrain);
      test2Merged := t2m.value;
      warned := w;
      var y := Reconcile(t2m.value, yTestOne.codes);
      yTestZero := y;
      ctgMerged := CtgMerged(y);
    }

    /** Maps each test level to its merged zero-based code, reporting whether
        any test level was never seen in training. With no test levels the
        index range `0 .. -1` is rejected by the host, an error here. */
    static method MergeLevels(levelsTest: seq<string>, levelsTrain: seq<string>)
      returns (test2Merged: Option<seq<nat>>, warned: bool)
      ensures test2Merged.None? <==> |levelsTest| == 0
      ensures test2Merged.Some? ==> test2Merged.value == Test2Merged(levelsTest, levelsTrain)
      ensures warned <==> UnmatchedCount(levelsTest, levelsTrain) > 0
    {
      if |levelsTest| == 0 {
        return None, false;
      }
      var orig := OneBasedMatch(levelsTest, levelsTrain);
      var matched := orig;
      var idxNA := NaPositions(orig);
      warned := |idxNA| > 0;
      if |idxNA| > 0 {
        matched := AssignProxies(orig, idxNA, |levelsTrain|);
      }
      ProxyDone(levelsTest, levelsTrain, matched);
      NaCountIsUnmatched(levelsTest, levelsTrain);
      test2Merged := Some(ZeroBased(matched));
    }

    /** Converts one-based test codes into merged zero-based codes. */
    static method Reconcile(test2Merged: seq<nat>, yTestOne: seq<int>) returns (yZeroOut: seq<nat>)
      requires forall i :: 0 <= i < |yTestOne| ==> 1 <= yTestOne[i] <= |test2Merged|
      ensures |yZeroOut| == |yTestOne|
      ensures forall i :: 0 <= i < |yTestOne| ==> yZeroOut[i] == test2Merged[yTestOne[i] - 1]
    {
      var yZero := seq(|yTestOne|, (i: int) requires 0 <= i < |yTestOne| => yTestOne[i] - 1);
      yZeroOut := seq(|yZero|, _ => 0);
      var i := 0;
      while i < |yZero|
        invariant 0 <= i <= |yZero| && |yZeroOut| == |yZero|
        invariant forall k :: 0 <= k < i ==> yZeroOut[k] == test2Merged[yTestOne[k] - 1]
      {
        yZeroOut := yZeroOut[i := test2Merged[yZero[i]]];
        i := i + 1;
      }
    }

    /** The confusion matrix as written: the core buffer is reshaped into
        one row per test level and row `i` of the result is the row that the
        merged code of test level `i` selects; a merged code that is not a
        row of the reshaped buffer is a bounds error. */
    method GetConfusion(confusion: seq<nat>) returns (confOut: Option<Matrix<nat>>)
      requires Valid()
      requires |levelsTrain| * |levels| <= |confusion|
      ensures confOut.None? <==> exists i :: 0 <= i < |levels| && test2Merged[i] >= |levels|
      ensures confOut.Some? ==>
        Shaped(confOut.value) && confOut.value.nRow == |levels| && confOut.value.nCol == |levelsTrain|
      ensures confOut.Some? ==> forall i, j :: 0 <= i < |levels| && 0 <= j < |levelsTrain| ==>
        Prediction.CtgIdx(|levelsTrain|, test2Merged[i], j) < |confusion| &&
        At(confOut.value, i, j) == confusion[Prediction.CtgIdx(|levelsTrain|, test2Merged[i], j)]
    {
      if forall i :: 0 <= i < |levels| ==> test2Merged[i] < |levels| {
        var m := SelectConfusionRows(confusion, |levelsTrain|, |levels|, test2Merged);
        confOut := Some(m);
      } else {
        confOut := None;
      }
    }

    /** The confusion matrix with the core buffer reshaped into one row per
        merged category, so that every test level's row exists. */
    method GetConfusionMerged(confusion: seq<nat>) returns (confOut: Matrix<nat>)
      requires Valid()
      requires |levelsTrain| * MergedCount(levels, levelsTrain) <= |confusion|
      ensures Shaped(confOut) && confOut.nRow == |levels| && confOut.nCol == |levelsTrain|
      ensures forall i, j :: 0 <= i < |levels| && 0 <= j < |levelsTrain| ==>
        Prediction.CtgIdx(|levelsTrain|, test2Merged[i], j) < |confusion| &&
        At(confOut, i, j) == confusion[Prediction.CtgIdx(|levelsTrain|, test2Merged[i], j)]
    {
      Test2MergedBound(levels, levelsTrain);
      confOut := SelectConfusionRows(confusion, |levelsTrain|, MergedCount(levels, levelsTrain), test2Merged);
    }

    /** Per-test-level misprediction: entry `i` is the core's entry for the
        merged code of level `i`; an out-of-range code is a subscript error. */
    function GetMisprediction(mispred: seq<real>): (r: Option<seq<real>>)
      requires Valid()
      ensures r.Some? <==> forall i :: 0 <= i < |levels| ==> test2Merged[i] < |mispred|
      ensures r.Some? ==> |r.value| == |levels|
      ensures r.Some? ==> forall i :: 0 <= i < |levels| ==> r.value[i] == mispred[test2Merged[i]]
    {
      if forall i :: 0 <= i < |test2Merged| ==> test2Merged[i] < |mispred| then
        Some(seq(|test2Merged|, (i: int) requires 0 <= i < |test2Merged| => mispred[test2Merged[i]]))
      else None
    }

    /** Permuted mispredictions: for each predictor, a matrix with one row per
        permutation taken from the core's vectors, which are not re-indexed
        through the merged codes. The columns are named by the test levels,
        which the host rejects unless there are none or one per column. */
    method MispredPermuted(mispredCore: seq<seq<seq<real>>>) returns (r: Option<seq<Matrix<real>>>)
      requires |mispredCore| > 0 && |mispredCore[0]| > 0
      requires forall p :: 0 <= p < |mispredCore| ==> |mispredCore[p]| >= |mispredCore[0]|
      requires forall p, q :: 0 <= p < |mispredCore| && 0 <= q < |mispredCore[0]| ==>
        |mispredCore[p][q]| >= |mispredCore[0][0]|
      ensures r.None? <==> |levels| != 0 && |levels| != |mispredCore[0][0]|
      ensures r.Some? ==> |r.value| == |mispredCore|
      ensures r.Some? ==> forall p :: 0 <= p < |mispredCore| ==>
        Shaped(r.value[p]) && r.value[p].nRow == |mispredCore[0]| && r.value[p].nCol == |mispredCore[0][0]|
      ensures r.Some? ==> forall p, q, c :: 0 <= p < |mispredCore| && 0 <= q < |mispredCore[0]| && 0 <= c < |mispredCore[0][0]| ==>
        At(r.value[p], q, c) == mispredCore[p][q][c]
    {
      var nPred := |mispredCore|;
      var nPermute := |mispredCore[0]|;
      var nCtg := |mispredCore[0][0]|;
      if |levels| != 0 && |levels| != nCtg {
        return None;
      }
      var mispredOut := [];
      var predIdx := 0;
      while predIdx != nPred
        invariant 0 <= predIdx <= nPred && |mispredOut| == predIdx
        invariant forall p :: 0 <= p < predIdx ==>
          Shaped(mispredOut[p]) && mispredOut[p].nRow == nPermute && mispredOut[p].nCol == nCtg
        invariant forall p, q, c :: 0 <= p < predIdx && 0 <= q < nPermute && 0 <= c < nCtg ==>
          At(mispredOut[p], q, c) == mispredCore[p][q][c]
      {
        var predMispredict := Filled(nPermute, nCtg, 0.0);
        var permIdx := 0;
        while permIdx != nPermute
          invariant 0 <= permIdx <= nPermute
          invariant Shaped(predMispredict) && predMispredict.nRow == nPermute && predMispredict.nCol == nCtg
          invariant forall q, c :: 0 <= q < permIdx && 0 <= c < nCtg ==>
            At(predMispredict, q, c) == mispredCore[predIdx][q][c]
        {
          predMispredict := SetRow(predMispredict, permIdx, mispredCore[predIdx][permIdx][..nCtg]);
          permIdx := permIdx + 1;
        }
        mispredOut := mispredOut + [predMispredict];
        predIdx := predIdx + 1;
      }
      r := Some(mispredOut);
    }

    /** Permuted out-of-bag errors: one column per predictor, one row per
        permutation. */
    method OobErrPermuted(oobPerm: seq<seq<real>>) returns (oobErrOut: Matrix<real>)
      requires |oobPerm| > 0
      requires forall p :: 0 <= p < |oobPerm| ==> |oobPerm[p]| >= |oobPerm[0]|
      ensures Shaped(oobErrOut) && oobErrOut.nRow == |oobPerm[0]| && oobErrOut.nCol == |oobPerm|
      ensures forall q, p :: 0 <= q < |oobPerm[0]| && 0 <= p < |oobPerm| ==>
        At(oobErrOut, q, p) == oobPerm[p][q]
    {
      var nPerm := |oobPerm[0]|;
      var nPred := |oobPerm|;
      oobErrOut := Filled(nPerm, nPred, 0.0);
      var predIdx := 0;
      while predIdx != nPred
        invariant 0 <= predIdx <= nPred
        invariant Shaped(oobErrOut) && oobErrOut.nRow == nPerm && oobErrOut.nCol == nPred
        invariant forall q, p :: 0 <= q < nPerm && 0 <= p < predIdx ==> At(oobErrOut, q, p) == oobPerm[p][q]
      {
        oobErrOut := SetCol(oobErrOut, predIdx, oobPerm[predIdx][..nPerm]);
        predIdx := predIdx + 1;
      }
    }
  }

  /** With training levels `a, b, c` and the single test level `c`, the merged
      code of the test level is 2, which is not a row of a matrix with one row
      per test level: `GetConfusion` reports the bounds error. */
  lemma ConfusionRowOutOfRange()
    ensures Test2Merged(["c"], ["a", "b", "c"]) == [2]
    ensures !(forall i :: 0 <= i < |["c"]| ==> Test2Merged(["c"], ["a", "b", "c"])[i] < |["c"]|)
  {
    var train := ["a", "b", "c"];
    assert train[1..] == ["b", "c"] && train[1..][1..] == ["c"];
    assert FirstMatch(train, "c") == Some(2);
    assert Test2Merged(["c"], train)[0] == 2;
  }

  /** A misprediction buffer with an entry for every merged category yields
      a defined per-test-level misprediction. */
  lemma MispredictionDefined(t: TestCtgR, mispred: seq<real>)
    requires t.Valid()
    requires MergedCount(t.levels, t.levelsTrain) <= |mispred|
    ensures t.GetMisprediction(mispred).Some?
  {
    Test2MergedBound(t.levels, t.levelsTrain);
  }

  /** The zero-based test codes handed to the core: empty without a test
      response. */
  method CtgTest(levelsTrain: seq<string>, yTest: Option<Factor>) returns (yTestZero: seq<nat>)
    requires yTest.Some? ==> |yTest.value.codes| > 0 && ValidCodes(yTest.value)
    ensures yTest.None? ==> yTestZero == []
    ensures yTest.Some? ==> |yTestZero| == |yTest.value.codes|
    ensures yTest.Some? ==> forall i :: 0 <= i < |yTestZero| ==>
      yTestZero[i] == Test2Merged(yTest.value.levels, levelsTrain)[yTest.value.codes[i] - 1]
  {
    if yTest.Some? {
      var testCtg := new TestCtgR(yTest.value, levelsTrain);
      yTestZero := testCtg.yTestZero;
    } else {
      yTestZero := [];
    }
  }

  /** The cached terminal indices as an `nObs`-row matrix filled column by
      column; an empty cache gives the empty matrix. */
  function GetIndices(indices: seq<nat>, nObs: nat): (m: Matrix<nat>)
    requires |indices| > 0 ==> nObs > 0
    ensures |indices| == 0 ==> m == Empty()
    ensures |indices| > 0 ==> Shaped(m) && m.nRow == nObs && m.nCol == |indices| / nObs
    ensures |indices| > 0 ==> forall o, t :: 0 <= o < nObs && 0 <= t < m.nCol ==>
      Stride(t, o, nObs) < |indices| && At(m, o, t) == indices[Stride(t, o, nObs)]
  {
    if |indices| == 0 then Empty()
    else
      DivTimesBound(|indices|, nObs);
      FromColumnMajor(nObs, |indices| / nObs, indices)
  }

  /** When the cache holds `nTree` entries per observation, the matrix has
      `nTree` columns and loses no entry: buffer cell `k` is cell
      (`k % nObs`, `k / nObs`). */
  lemma GetIndicesComplete(indices: seq<nat>, nObs: nat, nTree: nat)
    requires nObs > 0 && nTree > 0 && |indices| == nObs * nTree
    ensures GetIndices(indices, nObs).nCol == nTree
    ensures forall k :: 0 <= k < |indices| ==>
      k % nObs < nObs && k / nObs < nTree && At(GetIndices(indices, nObs), k % nObs, k / nObs) == indices[k]
  {
    MulDivCancel(nObs, nTree);
    var m := GetIndices(indices, nObs);
    forall k | 0 <= k < |indices|
      ensures k % nObs < nObs && k / nObs < nTree && At(m, k % nObs, k / nObs) == indices[k]
    {
      DivModStride(k, nObs, nTree);
      var o, t := k % nObs, k / nObs;
      assert At(m, o, t) == indices[Stride(t, o, nObs)];
    }
  }

  lemma MulDivCancel(n: nat, h: nat)
    requires n > 0
    ensures (n * h) / n == h
  {
    var q, r := (n * h) / n, (n * h) % n;
    assert n * h == q * n + r && r < n;
    if q < h {
      MulMonotone(q + 1, h, n);
      assert false;
    } else if q > h {
      MulMonotone(h + 1, q, n);
      assert false;
    }
  }

  lemma DivModStride(k: nat, n: nat, h: nat)
    requires n > 0 && k < n * h
    ensures k % n < n && k / n < h && Stride(k / n, k % n, n) == k
  {
    var q, r := k / n, k % n;
    assert k == q * n + r;
    if q >= h {
      MulMonotone(h, q, n);
      assert false;
    }
  }

  /** Quantile predictions: row `o` of the result holds the `nQ` quantiles of
      observation `o`, which the core stores contiguously. */
  function GetQPred(qPred: seq<real>, nObs: nat): (m: Matrix<real>)
    requires |qPred| > 0 ==> nObs > 0
    ensures |qPred| == 0 ==> m == Empty()
    ensures |qPred| > 0 ==> Shaped(m) && m.nRow == nObs && m.nCol == |qPred| / nObs
    ensures |qPred| > 0 ==> forall o, q :: 0 <= o < nObs && 0 <= q < m.nCol ==>
      Stride(o, q, m.nCol) < |qPred| && At(m, o, q) == qPred[Stride(o, q, m.nCol)]
  {
    if |qPred| == 0 then Empty()
    else
      DivTimesBound(|qPred|, nObs);
      assert (|qPred| / nObs) * nObs == nObs * (|qPred| / nObs);
      Transpose(FromColumnMajor(|qPred| / nObs, nObs, qPred))
  }

  /** Row `o` of the quantile matrix is the slice `qPred[o*nQ .. o*nQ + nQ]`. */
  lemma GetQPredRow(qPred: seq<real>, nObs: nat, o: nat)
    requires nObs > 0 && |qPred| > 0 && o < nObs
    ensures var nQ := |qPred| / nObs;
      o * nQ + nQ <= |qPred| && Row(GetQPred(qPred, nObs), o) == qPred[o * nQ .. o * nQ + nQ]
  {
    var nQ := |qPred| / nObs;
    var m := GetQPred(qPred, nObs);
    MulMonotone(o + 1, nObs, nQ);
    DivTimesBound(|qPred|, nObs);
    assert o * nQ + nQ <= |qPred|;
    assert forall q :: 0 <= q < nQ ==> Row(m, o)[q] == qPred[o * nQ .. o * nQ + nQ][q];
  }

  /** Census counts: cell (o, c) is the count of training category `c` for
      observation `o`, read at the census stride. */
  function GetCensus(census: seq<nat>, nCtgTrain: nat, nObs: nat): (m: Matrix<nat>)
    requires nCtgTrain * nObs <= |census|
    ensures Shaped(m) && m.nRow == nObs && m.nCol == nCtgTrain
    ensures forall o, c :: 0 <= o < nObs && 0 <= c < nCtgTrain ==>
      Prediction.CtgIdx(nCtgTrain, o, c) < |census| && At(m, o, c) == census[Prediction.CtgIdx(nCtgTrain, o, c)]
  {
    Transpose(FromColumnMajor(nCtgTrain, nObs, census))
  }

  /** Category probabilities, laid out as the census; no probabilities give
      the empty matrix. */
  function GetProb(prob: seq<real>, nCtgTrain: nat, nObs: nat): (m: Matrix<real>)
    requires |prob| > 0 ==> nCtgTrain * nObs <= |prob|
    ensures |prob| == 0 ==> m == Empty()
    ensures |prob| > 0 ==> Shaped(m) && m.nRow == nObs && m.nCol == nCtgTrain
    ensures |prob| > 0 ==> forall o, c :: 0 <= o < nObs && 0 <= c < nCtgTrain ==>
      Prediction.CtgIdx(nCtgTrain, o, c) < |prob| && At(m, o, c) == prob[Prediction.CtgIdx(nCtgTrain, o, c)]
  {
    if |prob| == 0 then Empty()
    else Transpose(FromColumnMajor(nCtgTrain, nObs, prob))
  }

  /** Which parts a prediction summary holds. */
  datatype SummaryParts = SummaryParts(prediction: bool, validation: bool, importance: bool)

  /** The regression summary: validation exactly when a test response is
      given, importance exactly when permutation is also requested. */
  function RegSummary(yTest: Option<seq<real>>, permutes: bool): (s: SummaryParts)
    ensures s.prediction
    ensures s.validation <==> yTest.Some?
    ensures s.importance <==> yTest.Some? && permutes
  {
    if yTest.None? then SummaryParts(true, false, false)
    else if !permutes then SummaryParts(true, true, false)
    else SummaryParts(true, true, true)
  }

  /** The classification summary: as the regression one, and the test
      levels are reconciled (possibly warning) only when a test response is
      given. */
  method CtgSummary(levelsTrain: seq<string>, yTest: Option<Factor>, permutes: bool)
    returns (s: SummaryParts, test2Merged: Option<seq<nat>>, warned: bool)
    requires yTest.Some? ==> |yTest.value.codes| > 0 && ValidCodes(yTest.value)
    ensures s.prediction
    ensures s.validation <==> yTest.Some?
    ensures s.importance <==> yTest.Some? && permutes
    ensures test2Merged.Some? <==> yTest.Some?
    ensures yTest.Some? ==> test2Merged.value == Test2Merged(yTest.value.levels, levelsTrain)
    ensures warned <==> yTest.Some? && UnmatchedCount(yTest.value.levels, levelsTrain) > 0
  {
    if yTest.None? {
      s, test2Merged, warned := SummaryParts(true, false, false), None, false;
    } else {
      var testCtg := new TestCtgR(yTest.value, levelsTrain);
      test2Merged, warned := Some(testCtg.test2Merged), testCtg.warned;
      if !permutes {
        s := SummaryParts(true, true, false);
      } else {
        s := SummaryParts(true, true, true);
      }
    }
  }
}
