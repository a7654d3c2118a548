/** The R-facing side of training: the forest is trained in chunks of at most
    `treeChunk` consecutive trees, and the predictor information reported by
    each chunk is summed and finally scaled to a per-tree mean in the
    predictors' front-end order. */
module Training {
  import opened Options
  import opened Layout

  /** A chunk of `size` consecutive trees starting at tree `treeOff`. */
  datatype Chunk = Chunk(treeOff: nat, size: nat)

  /** Size of the chunk starting at `treeOff`: a full chunk, or the trees
      that remain. */
  function ChunkSize(treeOff: nat, nTree: nat, treeChunk: nat): (r: nat)
    requires treeOff < nTree
    ensures r <= treeChunk && r <= nTree - treeOff
    ensures r == treeChunk || r == nTree - treeOff
    ensures treeChunk > 0 ==> r >= 1
  {
    if treeOff + treeChunk > nTree then nTree - treeOff else treeChunk
  }

  /** The chunks visited from offset `treeOff` onward. */
  function ChunksFrom(treeOff: nat, nTree: nat, treeChunk: nat): (r: seq<Chunk>)
    requires treeChunk > 0
    ensures |r| == 0 <==> treeOff >= nTree
    ensures |r| > 0 ==> r[0].treeOff == treeOff && r[0].treeOff + r[0].size <= nTree
    decreases nTree - treeOff
  {
    if treeOff >= nTree then []
    else [Chunk(treeOff, ChunkSize(treeOff, nTree, treeChunk))] + ChunksFrom(treeOff + treeChunk, nTree, treeChunk)
  }

  /** The chunks the training loop visits, in order. */
  function Chunks(nTree: nat, treeChunk: nat): (r: seq<Chunk>)
    requires treeChunk > 0
    ensures |r| == 0 <==> nTree == 0
    ensures |r| > 0 ==> r[0].treeOff == 0
    ensures |r| > 0 ==> r[0].size == ChunkSize(0, nTree, treeChunk)
  {
    ChunksFrom(0, nTree, treeChunk)
  }

  /** Chunk `k` from offset `treeOff` starts `k` full chunks later and below
      `nTree`; there are as many chunks as offsets below `nTree`. */
  lemma {:induction false} ChunksFromOffsets(treeOff: nat, nTree: nat, treeChunk: nat)
    requires treeChunk > 0
    ensures forall k: nat :: k < |ChunksFrom(treeOff, nTree, treeChunk)| <==> treeOff + k * treeChunk < nTree
    ensures forall k :: 0 <= k < |ChunksFrom(treeOff, nTree, treeChunk)| ==>
      ChunksFrom(treeOff, nTree, treeChunk)[k].treeOff == treeOff + k * treeChunk
    decreases nTree - treeOff
  {
    var cs := ChunksFrom(treeOff, nTree, treeChunk);
    if treeOff < nTree {
      var rest := ChunksFrom(treeOff + treeChunk, nTree, treeChunk);
      ChunksFromOffsets(treeOff + treeChunk, nTree, treeChunk);
      assert cs == [cs[0]] + rest;
      forall k: nat
        ensures k < |cs| <==> treeOff + k * treeChunk < nTree
        ensures k < |cs| ==> cs[k].treeOff == treeOff + k * treeChunk
      {
        if k > 0 {
          assert treeOff + k * treeChunk == treeOff + treeChunk + (k - 1) * treeChunk;
          assert k < |cs| <==> k - 1 < |rest|;
        }
      }
    } else {
      forall k: nat
        ensures treeOff + k * treeChunk >= nTree
      {
      }
    }
  }

  /** The offsets visited are 0, `treeChunk`, `2 * treeChunk`, ..., exactly
      those below `nTree`. */
  lemma ChunkOffsets(nTree: nat, treeChunk: nat)
    requires treeChunk > 0
    ensures forall k: nat :: k < |Chunks(nTree, treeChunk)| <==> k * treeChunk < nTree
    ensures forall k :: 0 <= k < |Chunks(nTree, treeChunk)| ==>
      Chunks(nTree, treeChunk)[k].treeOff == k * treeChunk
  {
    ChunksFromOffsets(0, nTree, treeChunk);
  }

  /** Every chunk from offset `treeOff` is nonempty, at most `treeChunk`
      trees, the smaller of `treeChunk` and the trees remaining, and ends
      no later than `nTree`. */
  lemma {:induction false} ChunksFromSizes(treeOff: nat, nTree: nat, treeChunk: nat)
    requires treeChunk > 0
    ensures forall k :: 0 <= k < |ChunksFrom(treeOff, nTree, treeChunk)| ==>
      var c := ChunksFrom(treeOff, nTree, treeChunk)[k];
      c.treeOff < nTree && 1 <= c.size <= treeChunk && c.treeOff + c.size <= nTree &&
      c.size == (if treeChunk <= nTree - c.treeOff then treeChunk else nTree - c.treeOff)
    decreases nTree - treeOff
  {
    if treeOff < nTree {
      var cs := ChunksFrom(treeOff, nTree, treeChunk);
      var rest := ChunksFrom(treeOff + treeChunk, nTree, treeChunk);
      ChunksFromSizes(treeOff + treeChunk, nTree, treeChunk);
      assert forall k :: 1 <= k < |cs| ==> cs[k] == rest[k - 1];
    }
  }

  /** Chunk sizes: `min(treeChunk, nTree - treeOff)`, hence between 1 and
      `treeChunk`. */
  lemma ChunkSizes(nTree: nat, treeChunk: nat)
    requires treeChunk > 0
    ensures forall k :: 0 <= k < |Chunks(nTree, treeChunk)| ==>
      var c := Chunks(nTree, treeChunk)[k];
      1 <= c.size <= treeChunk && c.treeOff + c.size <= nTree &&
      c.size == (if treeChunk <= nTree - c.treeOff then treeChunk else nTree - c.treeOff)
  {
    ChunksFromSizes(0, nTree, treeChunk);
  }

  /** Each chunk begins where the previous one ends, and the last one ends at
      `nTree`. */
  lemma ChunksContiguous(nTree: nat, treeChunk: nat)
    requires treeChunk > 0
    ensures var cs := Chunks(nTree, treeChunk);
      forall k :: 0 <= k < |cs| - 1 ==> cs[k + 1].treeOff == cs[k].treeOff + cs[k].size
    ensures var cs := Chunks(nTree, treeChunk);
      |cs| > 0 ==> cs[|cs| - 1].treeOff + cs[|cs| - 1].size == nTree
    ensures |Chunks(nTree, treeChunk)| == 0 <==> nTree == 0
  {
    var cs := Chunks(nTree, treeChunk);
    ChunkOffsets(nTree, treeChunk);
    ChunkSizes(nTree, treeChunk);
    forall k | 0 <= k < |cs| - 1
      ensures cs[k + 1].treeOff == cs[k].treeOff + cs[k].size
    {
      assert (k + 1) * treeChunk == k * treeChunk + treeChunk;
    }
    if |cs| > 0 {
      var last := |cs| - 1;
      assert |cs| * treeChunk >= nTree;
      assert |cs| * treeChunk == last * treeChunk + treeChunk;
    }
    if nTree > 0 {
      assert 0 * treeChunk < nTree;
    }
  }

  /** `t` lies in the block of `c` cells starting at `k * c` exactly when
      `k` is `t / c`. */
  lemma BlockOfCell(t: nat, k: nat, c: nat)
    requires c > 0
    ensures k * c <= t < k * c + c <==> k == t / c
  {
    var q, r := t / c, t % c;
    assert t == q * c + r && r < c;
    if k < q {
      MulMonotone(k + 1, q, c);
    } else if k > q {
      MulMonotone(q + 1, k, c);
    }
  }

  /** The chunks partition the trees: every tree below `nTree` lies in
      exactly one chunk, the chunk `t / treeChunk`, and no chunk holds a tree
      at or above `nTree`. */
  lemma ChunksPartition(nTree: nat, treeChunk: nat, t: nat)
    requires treeChunk > 0
    ensures var cs := Chunks(nTree, treeChunk);
      t < nTree ==> t / treeChunk < |cs|
    ensures var cs := Chunks(nTree, treeChunk);
      t < nTree ==> forall k :: 0 <= k < |cs| ==> (cs[k].treeOff <= t < cs[k].treeOff + cs[k].size <==> k == t / treeChunk)
    ensures var cs := Chunks(nTree, treeChunk);
      t >= nTree ==> forall k :: 0 <= k < |cs| ==> !(cs[k].treeOff <= t < cs[k].treeOff + cs[k].size)
  {
    var cs := Chunks(nTree, treeChunk);
    ChunkOffsets(nTree, treeChunk);
    ChunkSizes(nTree, treeChunk);
    if t < nTree {
      BlockOfCell(t, t / treeChunk, treeChunk);
      forall k | 0 <= k < |cs|
        ensures cs[k].treeOff <= t < cs[k].treeOff + cs[k].size <==> k == t / treeChunk
      {
        BlockOfCell(t, k, treeChunk);
      }
    }
  }

  /** The running totals `treeOff + size`, the number of trees trained after
      each chunk, strictly increase; by `ChunksContiguous` the last is `nTree`. */
  lemma TotalsIncrease(nTree: nat, treeChunk: nat, i: nat, j: nat)
    requires treeChunk > 0
    requires i < j < |Chunks(nTree, treeChunk)|
    ensures var cs := Chunks(nTree, treeChunk);
      cs[i].treeOff + cs[i].size < cs[j].treeOff + cs[j].size
  {
    var cs := Chunks(nTree, treeChunk);
    ChunkOffsets(nTree, treeChunk);
    ChunkSizes(nTree, treeChunk);
    MulMonotone(i + 1, j, treeChunk);
    assert cs[i].treeOff + cs[i].size <= i * treeChunk + treeChunk == (i + 1) * treeChunk;
    assert (i + 1) * treeChunk <= cs[j].treeOff;
  }

  /** Elementwise sum: as with vector arithmetic in the host, the result has
      the length of the left operand. */
  function Add(a: seq<real>, b: seq<real>): (r: seq<real>)
    requires |a| <= |b|
    ensures |r| == |a| && forall i :: 0 <= i < |a| ==> r[i] == a[i] + b[i]
  {
    seq(|a|, (i: int) requires 0 <= i < |a| => a[i] + b[i])
  }

  /** The information vector after consuming one chunk's: the first chunk's
      vector replaces the empty one, later ones are added to it. */
  function Consumed(acc: seq<real>, info: seq<real>): (r: seq<real>)
    requires |acc| == 0 || |acc| <= |info|
    ensures |acc| == 0 ==> r == info
    ensures |acc| > 0 ==> |r| == |acc| && forall i :: 0 <= i < |acc| ==> r[i] == acc[i] + info[i]
  {
    if |acc| == 0 then info else Add(acc, info)
  }

  /** Whether every vector of `infos` has `nPred` entries. */
  predicate SameLength(infos: seq<seq<real>>, nPred: nat) {
    forall c :: 0 <= c < |infos| ==> |infos[c]| == nPred
  }

  /** The vector after consuming each of `infos` in order, starting from `acc`. */
  function Accumulated(acc: seq<real>, infos: seq<seq<real>>, nPred: nat): (r: seq<real>)
    requires |acc| == 0 || |acc| == nPred
    requires SameLength(infos, nPred)
    ensures |r| == 0 || |r| == nPred
  {
    if |infos| == 0 then acc
    else Consumed(Accumulated(acc, infos[..|infos| - 1], nPred), infos[|infos| - 1])
  }

  /** Entry `i` summed over all of `infos`. */
  function InfoSum(infos: seq<seq<real>>, i: nat): real
    requires forall c :: 0 <= c < |infos| ==> i < |infos[c]|
  {
    if |infos| == 0 then 0.0 else InfoSum(infos[..|infos| - 1], i) + infos[|infos| - 1][i]
  }

  /** From the empty vector, consuming one or more vectors of `nPred`
      entries yields their elementwise sum. */
  lemma {:induction false} AccumulatedIsSum(infos: seq<seq<real>>, nPred: nat)
    requires |infos| > 0 && SameLength(infos, nPred)
    ensures |Accumulated([], infos, nPred)| == nPred
    ensures forall i :: 0 <= i < nPred ==> Accumulated([], infos, nPred)[i] == InfoSum(infos, i)
  {
    var init := infos[..|infos| - 1];
    if |init| == 0 {
      forall i | 0 <= i < nPred
        ensures Accumulated([], infos, nPred)[i] == InfoSum(infos, i)
      {
        assert InfoSum(init, i) == 0.0;
      }
    } else {
      AccumulatedIsSum(init, nPred);
    }
  }

  /** The information vectors the chunks report, one per chunk. */
  function ChunkInfos(chunks: seq<Chunk>, train: (nat, nat) -> seq<real>): (r: seq<seq<real>>)
    ensures |r| == |chunks| && forall k :: 0 <= k < |chunks| ==> r[k] == train(chunks[k].treeOff, chunks[k].size)
  {
    seq(|chunks|, (k: int) requires 0 <= k < |chunks| => train(chunks[k].treeOff, chunks[k].size))
  }

  /** One step of the training loop visits the next chunk of the partition. */
  lemma ChunksStep(chunks: seq<Chunk>, next: seq<Chunk>, treeOff: nat, nTree: nat, treeChunk: nat)
    requires treeChunk > 0 && treeOff < nTree
    requires next == chunks + [Chunk(treeOff, ChunkSize(treeOff, nTree, treeChunk))]
    ensures chunks + ChunksFrom(treeOff, nTree, treeChunk) == next + ChunksFrom(treeOff + treeChunk, nTree, treeChunk)
  {
    assert ChunksFrom(treeOff, nTree, treeChunk) ==
      [Chunk(treeOff, ChunkSize(treeOff, nTree, treeChunk))] + ChunksFrom(treeOff + treeChunk, nTree, treeChunk);
  }

  /** Consuming the next chunk's vector extends the accumulation by one. */
  lemma AccumulatedStep(acc: seq<real>, chunks: seq<Chunk>, c: Chunk, train: (nat, nat) -> seq<real>, nPred: nat)
    requires |acc| == 0 || |acc| == nPred
    requires SameLength(ChunkInfos(chunks, train), nPred) && |train(c.treeOff, c.size)| == nPred
    ensures SameLength(ChunkInfos(chunks + [c], train), nPred)
    ensures Accumulated(acc, ChunkInfos(chunks + [c], train), nPred) ==
      Consumed(Accumulated(acc, ChunkInfos(chunks, train), nPred), train(c.treeOff, c.size))
  {
    assert ChunkInfos(chunks + [c], train)[..|chunks|] == ChunkInfos(chunks, train);
  }

  /** Whether, having visited `chunks` and reached offset `treeOff`, the
      information vector is the accumulation of the chunks' vectors so far. */
  ghost predicate TrainedSoFar(acc: seq<real>, info: seq<real>, chunks: seq<Chunk>, treeOff: nat,
                               nTree: nat, treeChunk: nat, train: (nat, nat) -> seq<real>, nPred: nat)
    requires treeChunk > 0
  {
    (|acc| == 0 || |acc| == nPred) &&
    chunks + ChunksFrom(treeOff, nTree, treeChunk) == Chunks(nTree, treeChunk) &&
    SameLength(ChunkInfos(chunks, train), nPred) &&
    (|info| == 0 || |info| == nPred) &&
    info == Accumulated(acc, ChunkInfos(chunks, train), nPred)
  }

  /** One iteration of the training loop keeps `TrainedSoFar`. */
  lemma TrainStep(acc: seq<real>, info: seq<real>, info': seq<real>, chunks: seq<Chunk>, chunks': seq<Chunk>,
                  treeOff: nat, nTree: nat, treeChunk: nat, train: (nat, nat) -> seq<real>, nPred: nat)
    requires treeChunk > 0 && treeOff < nTree
    requires forall o, z :: |train(o, z)| == nPred
    requires TrainedSoFar(acc, info, chunks, treeOff, nTree, treeChunk, train, nPred)
    requires chunks' == chunks + [Chunk(treeOff, ChunkSize(treeOff, nTree, treeChunk))]
    requires info' == Consumed(info, train(treeOff, ChunkSize(treeOff, nTree, treeChunk)))
    ensures TrainedSoFar(acc, info', chunks', treeOff + treeChunk, nTree, treeChunk, train, nPred)
  {
    AccumulatedStep(acc, chunks, Chunk(treeOff, ChunkSize(treeOff, nTree, treeChunk)), train, nPred);
    ChunksStep(chunks, chunks', treeOff, nTree, treeChunk);
  }

  /** The training driver of the R bridge. */
  class TrainR {
    /** Number of trees requested. */
    const nTree: nat
    /** Number of trees trained per chunk (process-wide in the host). */
    const treeChunk: nat
    /** Summed predictor information of the chunks consumed so far, in core
        predictor order. */
    var predInfo: seq<real>
    /** Whether progress is reported (process-wide in the host). */
    var verbose: bool

    constructor (nTree: nat, treeChunk: nat, verbose: bool)
      ensures this.nTree == nTree && this.treeChunk == treeChunk && this.verbose == verbose
      ensures predInfo == []
    {
      this.nTree := nTree;
      this.treeChunk := treeChunk;
      this.verbose := verbose;
      predInfo := [];
    }

    /** Accumulates the information vector of a trained chunk. */
    method ConsumeInfo(info: seq<real>)
      requires |predInfo| == 0 || |predInfo| <= |info|
      modifies this`predInfo
      ensures predInfo == Consumed(old(predInfo), info)
    {
      var infoChunk := info;
      if |predInfo| == 0 {
        predInfo := infoChunk;
      } else {
        predInfo := Add(predInfo, infoChunk);
      }
    }

    /** Trains the forest chunk by chunk. `train(treeOff, size)` stands for
        the core training of one chunk and yields its information vector of
        `nPred` entries; the chunks visited are returned in order. */
    method TrainChunks(train: (nat, nat) -> seq<real>, ghost nPred: nat) returns (chunks: seq<Chunk>)
      requires treeChunk > 0
      requires forall treeOff, size :: |train(treeOff, size)| == nPred
      requires |predInfo| == 0 || |predInfo| == nPred
      modifies this`predInfo
      ensures chunks == Chunks(nTree, treeChunk)
      ensures SameLength(ChunkInfos(chunks, train), nPred)
      ensures predInfo == Accumulated(old(predInfo), ChunkInfos(chunks, train), nPred)
    {
      chunks := [];
      var treeOff := 0;
      assert ChunkInfos([], train) == [];
      while treeOff < nTree
        invariant TrainedSoFar(old(predInfo), predInfo, chunks, treeOff, nTree, treeChunk, train, nPred)
        decreases nTree - treeOff
      {
        var chunkThis := if treeOff + treeChunk > nTree then nTree - treeOff else treeChunk;
        var info := train(treeOff, chunkThis);
        ghost var prevInfo, prev := predInfo, chunks;
        ConsumeInfo(info);
        chunks := chunks + [Chunk(treeOff, chunkThis)];
        TrainStep(old(predInfo), prevInfo, predInfo, prev, chunks, treeOff, nTree, treeChunk, train, nPred);
        treeOff := treeOff + treeChunk;
      }
    }

    /** Predictor information in front-end order, as a per-tree mean: entry
        `i` is the summed information of core predictor `predMap[i]` over
        `nTree`; an out-of-range core index is a subscript error. */
    function ScaleInfo(predMap: seq<nat>): (r: Option<seq<real>>)
      reads this
      requires nTree > 0
      ensures r.Some? <==> forall i :: 0 <= i < |predMap| ==> predMap[i] < |predInfo|
      ensures r.Some? ==> |r.value| == |predMap|
      ensures r.Some? ==> forall i :: 0 <= i < |predMap| ==> r.value[i] == predInfo[predMap[i]] / (nTree as real)
    {
      var info := predInfo;
      if forall i :: 0 <= i < |predMap| ==> predMap[i] < |info| then
        Some(seq(|predMap|, (i: int) requires 0 <= i < |predMap| => info[predMap[i]] / (nTree as real)))
      else None
    }

    /** Ends the session: progress reporting is switched off. */
    method DeInit()
      modifies this`verbose
      ensures !verbose
    {
      verbose := false;
    }
  }

  /** After training from an empty vector, scaling yields, for each mapped
      predictor, the mean over the trees of the information the chunks
      reported for it. */
  lemma ScaledInfoIsMean(t: TrainR, train: (nat, nat) -> seq<real>, nPred: nat, predMap: seq<nat>)
    requires t.nTree > 0 && t.treeChunk > 0
    requires forall treeOff, size :: |train(treeOff, size)| == nPred
    requires t.predInfo == Accumulated([], ChunkInfos(Chunks(t.nTree, t.treeChunk), train), nPred)
    requires forall i :: 0 <= i < |predMap| ==> predMap[i] < nPred
    ensures var infos := ChunkInfos(Chunks(t.nTree, t.treeChunk), train);
      t.ScaleInfo(predMap).Some? && |t.ScaleInfo(predMap).value| == |predMap| &&
      forall i :: 0 <= i < |predMap| ==> t.ScaleInfo(predMap).value[i] == InfoSum(infos, predMap[i]) / (t.nTree as real)
  {
    var infos := ChunkInfos(Chunks(t.nTree, t.treeChunk), train);
    ChunksContiguous(t.nTree, t.treeChunk);
    AccumulatedIsSum(infos, nPred);
  }
}
