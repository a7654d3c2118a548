/** The per-block prediction state of the forest walker: the block-local
    terminal-index buffer, the bagging gate and the permutation switch, and the
    census stride of the classification summary. */
module Prediction {
  import opened Options
  import opened Layout

  /** Offset of the (observation, tree) pair in the block-local terminal-index
      buffer: one row of `nTree` entries per observation of the block, the
      block beginning at observation `blockStart`. */
  function FinalSlot(nTree: nat, blockStart: nat, obsIdx: nat, tIdx: nat): (r: nat)
    requires blockStart <= obsIdx
    ensures tIdx < nTree ==> r / nTree == obsIdx - blockStart && r % nTree == tIdx
  {
    StrideDivMod(obsIdx - blockStart, tIdx, nTree);
    Stride(obsIdx - blockStart, tIdx, nTree)
  }

  /** Every pair of a block of `span` observations has its slot inside a
      buffer of `span * nTree` entries. */
  lemma FinalSlotInBlock(nTree: nat, blockStart: nat, span: nat, obsIdx: nat, tIdx: nat)
    requires blockStart <= obsIdx < blockStart + span && tIdx < nTree
    ensures FinalSlot(nTree, blockStart, obsIdx, tIdx) < span * nTree
  {
    StrideBound(obsIdx - blockStart, tIdx, nTree, span);
  }

  /** Distinct (observation, tree) pairs of a block occupy distinct slots. */
  lemma FinalSlotInjective(nTree: nat, blockStart: nat, o1: nat, t1: nat, o2: nat, t2: nat)
    requires blockStart <= o1 && blockStart <= o2 && t1 < nTree && t2 < nTree
    ensures FinalSlot(nTree, blockStart, o1, t1) == FinalSlot(nTree, blockStart, o2, t2)
            <==> o1 == o2 && t1 == t2
  {
    if FinalSlot(nTree, blockStart, o1, t1) == FinalSlot(nTree, blockStart, o2, t2) {
      StrideInjective(o1 - blockStart, t1, o2 - blockStart, t2, nTree);
    }
  }

  /** Index of (row, ctg) in a census or probability buffer, which holds one
      row of `nCtgTrain` training categories per observation. */
  function CtgIdx(nCtgTrain: nat, row: nat, ctg: nat): (r: nat)
    ensures ctg < nCtgTrain ==> r / nCtgTrain == row && r % nCtgTrain == ctg
  {
    StrideDivMod(row, ctg, nCtgTrain);
    Stride(row, ctg, nCtgTrain)
  }

  /** For `nObs` observations the strided index stays inside the buffer. */
  lemma CtgIdxBound(nCtgTrain: nat, nObs: nat, row: nat, ctg: nat)
    requires row < nObs && ctg < nCtgTrain
    ensures CtgIdx(nCtgTrain, row, ctg) < nObs * nCtgTrain
  {
    StrideBound(row, ctg, nCtgTrain, nObs);
  }

  /** The strided index is injective on in-range categories. */
  lemma CtgIdxInjective(nCtgTrain: nat, r1: nat, c1: nat, r2: nat, c2: nat)
    requires c1 < nCtgTrain && c2 < nCtgTrain
    ensures CtgIdx(nCtgTrain, r1, c1) == CtgIdx(nCtgTrain, r2, c2) <==> r1 == r2 && c1 == c2
  {
    if CtgIdx(nCtgTrain, r1, c1) == CtgIdx(nCtgTrain, r2, c2) {
      StrideInjective(r1, c1, r2, c2, nCtgTrain);
    }
  }

  /** The sampler's bag bit matrix: whether training row `row` was drawn into
      the bag of tree `tIdx`. */
  type BagBits = (nat, nat) -> bool

  class Predict {
    /** Whether out-of-bag semantics are in force. */
    const bagging: bool
    /** The bag bit matrix, present exactly when bagging. */
    const bag: Option<BagBits>
    /** Number of permutations of each predictor. */
    const nPermute: nat

    var nTree: nat
    var noNode: nat
    var blockStart: nat
    /** Terminal index of each (observation, tree) pair of the current block. */
    var idxFinal: array<nat>
    /** Number of observations of the block the buffer was sized for. */
    ghost const span: nat

    ghost predicate Valid()
      reads this
    {
      (bag.Some? <==> bagging) && idxFinal.Length == span * nTree
    }

    constructor (bagging: bool, bag: Option<BagBits>, nPermute: nat,
                 nTree: nat, noNode: nat, blockStart: nat, span: nat)
      requires bag.Some? <==> bagging
      ensures Valid()
      ensures this.bagging == bagging && this.bag == bag && this.nPermute == nPermute
      ensures this.nTree == nTree && this.noNode == noNode && this.blockStart == blockStart
      ensures fresh(idxFinal) && this.span == span
    {
      this.span := span;
      this.bagging := bagging;
      this.bag := bag;
      this.nPermute := nPermute;
      this.nTree := nTree;
      this.noNode := noNode;
      this.blockStart := blockStart;
      this.idxFinal := new nat[span * nTree];
    }

    /** Whether the pair's slot exists in the current buffer. */
    predicate InBuffer(obsIdx: nat, tIdx: nat)
      reads this
    {
      blockStart <= obsIdx && FinalSlot(nTree, blockStart, obsIdx, tIdx) < idxFinal.Length
    }

    /** Every (observation, tree) pair of the block has its slot in the
        buffer. */
    lemma BlockInBuffer(obsIdx: nat, tIdx: nat)
      requires Valid()
      requires blockStart <= obsIdx < blockStart + span && tIdx < nTree
      ensures InBuffer(obsIdx, tIdx)
    {
      FinalSlotInBlock(nTree, blockStart, span, obsIdx, tIdx);
    }

    /** The terminal index recorded for the pair. */
    function FinalIdx(obsIdx: nat, tIdx: nat): nat
      reads this, idxFinal
      requires InBuffer(obsIdx, tIdx)
    {
      idxFinal[FinalSlot(nTree, blockStart, obsIdx, tIdx)]
    }

    /** Records the terminal index of a walk; the slot of every other pair is
        untouched. */
    method SetFinalIdx(obsIdx: nat, tIdx: nat, finalIdx: nat)
      requires InBuffer(obsIdx, tIdx)
      modifies idxFinal
      ensures FinalIdx(obsIdx, tIdx) == finalIdx
      ensures forall k :: 0 <= k < idxFinal.Length && k != FinalSlot(nTree, blockStart, obsIdx, tIdx) ==>
        idxFinal[k] == old(idxFinal[k])
      ensures tIdx < nTree ==>
        forall o: nat, t: nat :: InBuffer(o, t) && t < nTree && (o != obsIdx || t != tIdx) ==>
          FinalIdx(o, t) == old(FinalIdx(o, t))
    {
      idxFinal[nTree * (obsIdx - blockStart) + tIdx] := finalIdx;
      if tIdx < nTree {
        forall o: nat, t: nat | InBuffer(o, t) && t < nTree && (o != obsIdx || t != tIdx)
          ensures FinalIdx(o, t) == old(FinalIdx(o, t))
        {
          FinalSlotInjective(nTree, blockStart, o, t, obsIdx, tIdx);
        }
      }
    }

    /** Reads back the terminal index of a walk, and whether it names a node. */
    method GetFinalIdx(obsIdx: nat, tIdx: nat) returns (isNode: bool, nodeIdx: nat)
      requires InBuffer(obsIdx, tIdx)
      ensures nodeIdx == FinalIdx(obsIdx, tIdx)
      ensures isNode <==> nodeIdx != noNode
    {
      nodeIdx := idxFinal[nTree * (obsIdx - blockStart) + tIdx];
      isNode := nodeIdx != noNode;
    }

    /** Whether training row `row` is in the bag of tree `tIdx`; never so
        when bagging is off. */
    function IsBagged(tIdx: nat, row: nat): (b: bool)
      reads this
      requires Valid()
      ensures !bagging ==> !b
      ensures bagging ==> (b <==> bag.value(tIdx, row))
    {
      bagging && bag.value(tIdx, row)
    }

    /** Whether variable importance by permutation was requested. */
    function Permutes(): (p: bool)
      ensures p <==> nPermute > 0
    {
      nPermute > 0
    }
  }
}
