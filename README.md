# Rborist R bridge: category reconciliation, result reshaping and chunked training

Rborist trains and applies random forests. Its R bridge translates between R
objects and the C++ core. This project models the parts of the bridge whose
behaviour the bridge code itself determines:

- **Test-category reconciliation** (`TestCtgR`). A classification test
  response is an R factor. Its level names are matched against the training
  levels. A matched level takes the zero-based position of its first match.
  Each unseen level takes a fresh code, counting up from the number of
  training levels in test-level order, and a warning is issued. The
  one-based test codes are then rewritten as merged zero-based codes.
- **Result reshaping**. The core returns flat buffers: terminal indices,
  quantiles, census counts, probabilities, the confusion matrix,
  misprediction rates and permuted errors. The bridge reshapes each into an
  R matrix with a fixed stride rule, and re-indexes the confusion matrix and
  misprediction vector through the merged test codes.
- **The prediction block state** (`Predict`). It holds the block-local
  terminal-index buffer, with one row of `nTree` slots per observation of the
  block, the bagging gate and the permutation switch. It also defines the
  census stride `row * nCtgTrain + ctg`.
- **Chunked training** (`TrainR`). The forest is trained in chunks of at
  most `treeChunk` trees. The predictor-information vectors of the chunks are
  summed, then re-indexed into front-end predictor order and divided by the
  number of trees.

Modules:

- `Options`: the optional value that stands for a subscript error.
- `Layout`: strides and dense matrices with R's column-major fill, transpose
  and row and column assignment.
- `Prediction`: the block state of `predict.h`, as a class over an array.
- `Levels`: the pure specification of the level merge.
- `PredictR`: the `TestCtgR` class, the reshaping accessors and the summary
  case split.
- `Training`: the chunk partition, the accumulation, and the `TrainR` class.

R's integer vectors are `seq<nat>` or `seq<int>`, numeric vectors are
`seq<real>`, and character vectors are `seq<string>`. A bounds-checked
subscript (`v[IntegerVector]`) returns `Option`, with `None` for the index
error that R raises. Matrix row and column assignment reads as many entries
of the right-hand side as the matrix row or column holds. The model requires
the right-hand side to have at least that many entries, because the host
does not check this.

## Model

| member | source | states |
|---|---|---|
| Layout.FromColumnMajor | src/predictR.cc:226 | a matrix built over a buffer has cell (i, j) equal to buffer entry `j * nRow + i`, which exists when `nRow * nCol` entries do |
| Layout.Transpose | src/predictR.cc:237 | cell (i, j) of the transpose is cell (j, i) of the matrix, with the dimensions swapped |
| Prediction.FinalSlot | src/predict.h:227-229 | the block-local slot of an (observation, tree) pair decodes back to the pair: divided by `nTree` it gives the observation's offset in the block, and its remainder is the tree |
| Prediction.Predict.BlockInBuffer | src/predict.h:227-229 | in a valid state, whose buffer holds `span * nTree` slots, every pair of the block with an in-range tree has its slot in the buffer |
| Prediction.FinalSlotInBlock | src/predict.h:227-229 | every (observation, tree) slot of a block of `span` observations lies inside the `span * nTree` buffer |
| Prediction.FinalSlotInjective | src/predict.h:227-229 | two (observation, tree) pairs with in-range trees share a slot iff they are the same pair |
| Prediction.Predict.SetFinalIdx | src/predict.h:227-229 | the pair's terminal index reads back as the value written, and every other slot and every other pair are unchanged |
| Prediction.Predict.GetFinalIdx | src/predict.h:322-325 | returns the recorded terminal index, and reports a node iff that index differs from `noNode` |
| Prediction.Predict.IsBagged | src/predict.h:337-339 | never bagged without bagging; with bagging, bagged iff the bag bit of (tree, row) is set |
| Prediction.Predict.Permutes | src/predict.h:342-344 | permutation is on iff `nPermute > 0` |
| Prediction.CtgIdx | src/predict.h:142-144 | the strided index of an in-range category decodes back to its row (quotient by `nCtgTrain`) and category (remainder) |
| Prediction.CtgIdxBound | src/predict.h:142-144 | `row * nCtgTrain + ctg` is below `nObs * nCtgTrain` for `row < nObs` and `ctg < nCtgTrain` |
| Prediction.CtgIdxInjective | src/predict.h:142-144 | the census index is injective on in-range categories, in both directions |
| Levels.FirstMatch | src/predictR.cc:295 | `None` iff the level is absent from the training levels; otherwise the position of a match with no earlier match |
| Levels.OneBasedMatch | src/predictR.cc:295 | one entry per test level, `NA` iff the level is unseen, otherwise the one-based first-match position |
| Levels.NaPositions | src/predictR.cc:296-297 | as many positions as `NA` entries, each naming an `NA` entry whose rank is its own position in the list |
| Levels.NaPositionsComplete | src/predictR.cc:296-297 | every `NA` entry is listed, at the rank given by the `NA` entries before it |
| Levels.Test2Merged | src/predictR.cc:293-308 | one code per test level; a matched level gets its zero-based first-match position, below `nTrain`; an unseen level gets `nTrain` plus the number of unseen levels before it |
| Levels.Test2MergedSplit | src/predictR.cc:295-306 | a test level is matched iff its merged code is below the number of training levels |
| Levels.Test2MergedBound | src/predictR.cc:300-306 | every merged code is below `nTrain` plus the number of unseen levels |
| Levels.UnmatchedCodesIncrease | src/predictR.cc:300-304 | unseen levels receive strictly increasing codes in test-level order |
| Levels.UnmatchedCodesConsecutive | src/predictR.cc:300-304 | every code from `nTrain` up to the merged count is taken by some unseen level, so the fresh codes are consecutive |
| Levels.Test2MergedInjective | src/predictR.cc:293-308 | distinct test level names get distinct merged codes |
| PredictR.ZeroBased | src/predictR.cc:306 | subtracting one from an `NA`-free one-based vector keeps its length and lowers each entry by one |
| PredictR.ProxyStep | src/predictR.cc:301-304 | assigning proxy code `nTrain + 1 + i` to the `i`-th `NA` position gives the first `i + 1` unseen levels their codes and leaves the other entries alone |
| PredictR.AssignProxies | src/predictR.cc:300-304 | the loop leaves every matched entry alone and gives each `NA` entry the one-based proxy `nTrain + 1 + k`, where `k` is the number of `NA` entries before it |
| PredictR.ProxyDone | src/predictR.cc:298-306 | once every `NA` has its proxy, no `NA` remains and the zero-based vector equals `Test2Merged` |
| PredictR.TestCtgR.MergeLevels | src/predictR.cc:293-308 | an error iff there are no test levels, where the index range `0 .. -1` is rejected; otherwise the returned map equals `Test2Merged`; the warning is issued iff some test level is unseen |
| PredictR.TestCtgR.Reconcile | src/predictR.cc:311-319 | keeps the length and maps each one-based code `y` to `test2Merged[y - 1]` |
| PredictR.MaxCode | src/predictR.cc:201 | the largest element of a nonempty vector: no element exceeds it and some element equals it |
| PredictR.CtgMerged | src/predictR.cc:201 | one more than the largest reconciled code: above every code, and equal to some code plus one |
| PredictR.CtgMergedBound | src/predictR.cc:199-201 | reconciled codes, and the number of merged categories they span, do not exceed the merged count |
| PredictR.TestCtgR.constructor | src/predictR.cc:195-202 | establishes the reconciled state: the map is `Test2Merged`, each reconciled code is `test2Merged[y - 1]`, and `ctgMerged` is one past the largest |
| PredictR.SelectConfusionRows | src/predictR.cc:510-514 | row `i` of the result is row `test2Merged[i]` of the buffer read with stride `ctgTrain` |
| PredictR.TestCtgR.GetConfusion | src/predictR.cc:501-519 | as written: a bounds error iff some merged code is not below `ctgTest`, the row count of the reshaped buffer; otherwise a `ctgTest x ctgTrain` matrix whose row `i` is buffer row `test2Merged[i]` |
| PredictR.ConfusionRowOutOfRange | src/predictR.cc:508-513 | with training levels `a, b, c` and test level `c` the merged code is 2, which is not a row of the one-row reshaped buffer |
| PredictR.TestCtgR.GetConfusionMerged | src/predictR.cc:501-519 | corrected: the buffer is read with one row per merged category, so every test level's row exists; row `i` is buffer row `test2Merged[i]` |
| PredictR.TestCtgR.GetMisprediction | src/predictR.cc:419-428 | defined iff every merged code indexes the core vector; then one entry per test level, entry `i` being the core entry `test2Merged[i]` |
| PredictR.MispredictionDefined | src/predictR.cc:422-423 | a core vector with an entry per merged category always yields a defined misprediction vector |
| PredictR.TestCtgR.MispredPermuted | src/predictR.cc:431-453 | an error iff the test levels are neither empty nor one per column, as naming the columns demands; otherwise one `nPermute x nCtg` matrix per predictor, cell (q, c) being core entry [p][q][c] |
| PredictR.TestCtgR.OobErrPermuted | src/predictR.cc:456-471 | an `nPerm x nPred` matrix whose column `p` is the core's vector for predictor `p` |
| PredictR.CtgTest | src/predictR.cc:144-153 | empty without a test response; otherwise one merged zero-based code per test observation |
| PredictR.GetIndices | src/predictR.cc:221-229 | empty for an empty cache; otherwise `nObs` rows, with cell (o, t) equal to buffer entry `t * nObs + o`; `LeafCtgRf::getIndices` at src/predictR.cc:381-387 is identical |
| PredictR.GetIndicesComplete | src/predictR.cc:226 | with `nTree` entries per observation the matrix has `nTree` columns and every buffer entry `k` is cell (`k % nObs`, `k / nObs`) |
| PredictR.GetQPred | src/predictR.cc:232-240 | empty for no quantiles; otherwise `nObs` rows with cell (o, q) equal to `qPred[o * nQ + q]` |
| PredictR.GetQPredRow | src/predictR.cc:237 | row `o` of the quantile matrix is the contiguous slice `qPred[o * nQ .. o * nQ + nQ]` |
| PredictR.GetCensus | src/predictR.cc:474-482 | an `nObs x nCtgTrain` matrix with cell (o, c) equal to census entry `o * nCtgTrain + c` |
| PredictR.GetProb | src/predictR.cc:485-498 | empty for no probabilities; otherwise laid out as the census |
| PredictR.RegSummary | src/predictR.cc:166-192 | always a prediction; validation iff a test response is given; importance iff also permuting |
| PredictR.CtgSummary | src/predictR.cc:322-356 | the same case split, and test levels are reconciled (warning iff one is unseen) only when a test response is given |
| Training.ChunkSize | src/trainR.cc:137 | the chunk size is the smaller of `treeChunk` and the trees remaining, and at least 1 when `treeChunk > 0` |
| Training.ChunksFrom | src/trainR.cc:136-137 | the chunks from an offset are empty iff the offset is at or past `nTree`; otherwise the first starts at the offset and ends no later than `nTree` |
| Training.Chunks | src/trainR.cc:136-137 | the loop visits no chunk iff `nTree == 0`; otherwise its first chunk starts at tree 0 with size `min(treeChunk, nTree)` |
| Training.ChunkOffsets | src/trainR.cc:136 | chunk `k` starts at `k * treeChunk`, and chunk `k` exists iff that offset is below `nTree` |
| Training.ChunkSizes | src/trainR.cc:137 | each chunk has `min(treeChunk, nTree - treeOff)` trees, so between 1 and `treeChunk`, and ends no later than `nTree` |
| Training.ChunksContiguous | src/trainR.cc:136-137 | each chunk starts where the previous one ends, the last ends at `nTree`, and there are no chunks iff `nTree == 0` |
| Training.ChunksPartition | src/trainR.cc:136-137 | each tree below `nTree` lies in exactly one chunk, chunk `t / treeChunk`, and no chunk holds a tree at or above `nTree` |
| Training.TotalsIncrease | src/trainR.cc:136-141 | the running totals `treeOff + size` handed on after each chunk strictly increase |
| Training.Add | src/trainR.cc:92 | elementwise sum with the length of the left operand |
| Training.Consumed | src/trainR.cc:88-93 | the first chunk's vector replaces the empty one; later vectors are added elementwise |
| Training.AccumulatedIsSum | src/trainR.cc:86-94 | from the empty vector, consuming the chunk vectors yields their elementwise sum |
| Training.TrainR.constructor | src/trainR.cc:72-77 | a fresh driver with the given tree count and an empty information vector |
| Training.TrainR.ConsumeInfo | src/trainR.cc:86-94 | the information vector becomes the old one with the chunk's vector consumed |
| Training.TrainR.TrainChunks | src/trainR.cc:134-144 | the chunks visited are exactly the chunk partition, and the information vector is the old one with every chunk's vector consumed in order |
| Training.TrainR.ScaleInfo | src/trainR.cc:120-131 | defined iff every mapped index is in range; then one entry per `predMap` entry, entry `i` being `predInfo[predMap[i]] / nTree` |
| Training.ScaledInfoIsMean | src/trainR.cc:128 | after training from empty, entry `i` of the scaled vector is the sum over chunks of predictor `predMap[i]`'s information, over `nTree` |
| Training.TrainR.DeInit | src/trainR.cc:80-83 | progress reporting is off afterwards |

## Left out

- `src/forestWeightR.cc` is not part of this model. It only marshals arguments for a weighting computation whose body is not shown.
- Tree walking, scoring, Meinshausen weighting and the core validators (`predictBlock`, `walkTrees`, `forestWeight`, `weighNode`, `normalizeWeight`) are declared in `predict.h` with no bodies shown.
- The regression statistics (`getValidation`, `getImportance`: mse, rsq, mae) work on IEEE doubles through R sugar and are not modelled. The summary models which parts are present, not their contents.
- R marshalling is not modelled: `List` construction and class attributes. The `names` and `dimnames` assignments are left out where their lengths match the result by construction: the test levels at src/predictR.cc:424 and 515, and the training levels at 479 and 491. One `dimnames` assignment is modelled, at src/predictR.cc:444 in `MispredPermuted`, because its length can mismatch.
- The name vectors taken from the frame's signature (`predNames`, `ctgNames`) are assumed to hold one name per predictor or per observation. The `names` and `dimnames` errors that R raises when they do not are not modelled.
- The opaque bridges and their calls are not modelled: `SamplerBridge`, `ForestBridge`, `LeafBridge`, `forest.bridgeConsume`, `leaf.bridgeConsume`, `safeScale`. `TrainR::consume` is only these calls plus a progress message. `TrainBridge::train` is the function parameter `train` of `TrainChunks`.
- I/O is not modelled: the `Rcout` progress messages and the R warning. The warning is the `warned` flag.
- The process-wide static flags (`bagging`, `nPermute`, `verbose`, `treeChunk`) are fields of the objects that read them. `init`, the core's `deInit` and threading are not modelled.
- `Prediction.Predict.constructor` is a stand-in that allocates the block buffer. The core constructor and the block reset bodies are not shown.
- Levels.FirstMatch: level names are compared as character sequences. Rcpp's sugar `match` at src/predictR.cc:295 compares R's cached strings by their bytes and encoding mark, so the same name stored once as latin1 and once as UTF-8 does not match there but matches here; that comparison is not modelled.
- `NA` codes in a test factor are not modelled. `ValidCodes` requires every code to name a level.
- Real arithmetic stands in for IEEE doubles: the information sums and the division by `nTree`.
- Fixed-width integers are not modelled. The unsigned increment `treeOff += treeChunk` wrapping near 2^32 is not modelled, and neither is the `int` proxy code overflowing.
- Training.TrainR.ScaleInfo: requires `nTree > 0`; division by zero trees, which gives IEEE infinities or NaN in the host, is not modelled.
- Training.TrainR.TrainChunks: requires `treeChunk > 0`, without which the host loop never ends for `nTree > 0`. It also requires every chunk to report a vector of the same `nPred` entries.
- Training.TrainR.ConsumeInfo: requires the chunk's vector to be at least as long as the running sum, because the host reads the right operand unchecked.
- PredictR.TestCtgR.MispredPermuted: requires each core vector to have at least `nCtg` entries, because row assignment reads the right-hand side unchecked. It also requires at least one predictor and one permutation, because `mispredCore[0][0]` is read unchecked, and every predictor to have at least `|mispredCore[0]|` permutation vectors, because `mispredCore[p][q]` is read unchecked (src/predictR.cc:446). As in the source, the rows are not re-indexed through `test2Merged`.
- PredictR.TestCtgR.GetConfusion: requires the core buffer to hold at least `ctgTrain * ctgTest` entries, because the matrix is built through a raw pointer with no length check (src/predictR.cc:510). `GetConfusionMerged` requires the same for `ctgTrain` times the merged count.
- PredictR.GetCensus: requires `nCtgTrain * nObs` census entries, for the same raw-pointer reason (src/predictR.cc:478). `PredictR.GetProb` requires the same of a nonempty probability buffer (src/predictR.cc:490).
- PredictR.TestCtgR.OobErrPermuted: requires at least one predictor, and each vector to have at least `nPerm` entries, because `oobPerm[0]` and the column assignment are read unchecked.
- PredictR.TestCtgR.constructor: requires a nonempty test response, because the maximum of an empty vector is undefined in the host.

## Findings

| source | as written | input that shows it | evidently intended | confidence | as-written member | corrected member |
|---|---|---|---|---|---|---|
| src/predictR.cc:509-513 | the confusion buffer is reshaped into `ctgTest` rows, one per test level, but row `i` is selected by `test2Merged[i]`, a merged code that can reach `nTrain + unseen - 1`; the row selection then fails with an index error, which reaches R as an error, and no confusion matrix is returned | training levels `a, b, c`, test levels `c`: `test2Merged = [2]`, and row 2 of a 1-row matrix is requested | reshape the buffer with one row per merged category, so that every merged code names an existing row | medium, not executed | PredictR.TestCtgR.GetConfusion, PredictR.ConfusionRowOutOfRange | PredictR.TestCtgR.GetConfusionMerged |
