# VoltagePlasticity parameter searches, modelled in Dafny

This project models the parameter-search scripts of VoltagePlasticity, which fit the
parameters of a voltage-based synaptic plasticity rule (Claire, with or without veto) to
measured plasticity outcomes of the Letzkus and Brandalise stimulation protocols. Each
script maps grid indexes to physical parameter values (`set_param`), runs the simulator on
every trace of the protocol, scores the outcomes against the targets, and records the
scores in an SQLite table. The model covers:

- **Grid search** (`src/gridsearch.py`): `set_param`, `init_params` with its job split of
  the amplitude plane, and `gridrecursion`, the recursive traversal that skips
  configurations a previous run already stored ("catching up") and then simulates, scores
  and inserts every grid point (modules `Codec`, `Grid`, `GridSearch`, `Loss`).
- **Sample space** (`src/build_space.py`): `samplerecursion` and the job set-up, which
  insert the 34300 configurations of one amplitude cell per job; 64 jobs give the 2195200
  configurations of the merged space (module `BuildSpace`).
- **Monte-Carlo search** (`src/montesearch.py`): the set-up of the `indexes` and
  `parameters` dicts and the loop that moves one parameter a step, resets after `patience`
  re-visits, looks the configuration up, inserts and simulates it on a miss, and accepts it
  by the Metropolis-like rule (module `MonteSearch`). The loop state is a class whose four
  dicts are heap objects, so the aliasing `indexes = new_indexes` creates is part of the
  model. The loop runs the random reset as written: line 217 codes each new value from
  `indexes[p]`, which is the freshly drawn index only when the dicts are shared.
- **Importance resampler** (`src/model_distribution.py`): the job's slice of the shuffled
  sample ids, the neighbour lookup among the coarser results, the capped minimum `relprob`,
  the cumulative weights `crp` of the kept samples, and their normalisation into a
  cumulative distribution (module `Resampler`).
- **Sample-driven search** (`src/samplesearch.py`): drawing a row by inverse-CDF lookup on
  `crp`, coding and simulating it when it is still pending, and updating its losses
  (module `SampleSearch`).

Conventions shared by the modules (module `Common`):

- A grid index is an integer count of ticks of 0.5^g, where g is the granularity of the
  run. `TickValue` turns it back into the Python number.
- A configuration is a `map<Param, int>` over the nine fitted parameters. A missing dict
  key is a `KeyError`.
- A table is a class whose `rows` sequence grows by `Insert`. Row ids are positions counted
  from 1, as a fresh SQLite table numbers them.
- Python exceptions are the `Error` datatype. Every fold carries the exception that stopped
  it, so the rows inserted before an exception remain.
- The simulator `simulate(prot, t, parameters)` and the random draws are parameters of the
  model.

## Model

| member | source | states |
|---|---|---|
| `Common.Columns` | src/gridsearch.py:269-277 | a lookup or insert reads seven columns without veto and nine with veto, none twice |
| `Common.Restrict` | src/gridsearch.py:312-315 | an inserted row holds exactly the listed columns, each with the configuration's value |
| `Common.TickValueStrictlyIncreasing` | src/gridsearch.py:254 | more ticks give a strictly larger index `lo + i * 0.5 ** g` |
| `Codec.Centre` | src/gridsearch.py:37-58 | every best-known centre value `cbest` is positive |
| `Codec.GridCentres` | src/gridsearch.py:33-62 | the centre table of Letzkus, Brandalise or Brandaliseb for Claire_veto; NotImplementedError for Claire_noveto, ValueError for another rule or protocol |
| `Codec.NovetoValue` | src/gridsearch.py:65-73 | the noveto value: thresholds −5 + 5·index mV, amplitudes 10^(index − 6), time constants 3^(index − 1) ms, ValueError for the veto parameters |
| `Codec.VetoValue` | src/gridsearch.py:74-82 | the veto value: thresholds centre + 8·index mV, amplitudes centre·10^index, the rest centre·4^index |
| `Codec.GridCodec` | src/gridsearch.py:21-82 | `set_param` of the grid search: the centre table's exception, or the rule's value of the index |
| `Codec.MonteCodec` | src/montesearch.py:22-48 | `set_param` of the Monte-Carlo search: the granularity-0 value of each parameter, NotImplementedError for any other granularity |
| `Codec.SampleCodec` | src/samplesearch.py:23-57 | `set_param` of the sample search: the noveto or the veto value with the sample centres, ValueError for another rule |
| `Codec.GridCodecAcceptsOnlyVeto` | src/gridsearch.py:33-42 | with the Letzkus centres only Claire_veto codes a value; Claire_noveto raises NotImplementedError for every parameter |
| `Codec.GridCodecMonotone` | src/gridsearch.py:74-82 | the grid codec is strictly increasing in the index wherever it succeeds; thresholds rise 8 mV per index unit |
| `Codec.MonteCodecMonotone` | src/montesearch.py:22-48 | at granularity 0 thresholds fall and every other parameter rises with the index; any other granularity raises NotImplementedError |
| `Codec.SampleCodecMonotone` | src/samplesearch.py:23-57 | the sample codec is strictly increasing wherever it succeeds; the noveto rule rejects `b_theta` and `tau_theta` |
| `Grid.AxisCountMeansInRange` | src/gridsearch.py:251-254 | the loop over `range(int((hi - lo) * 2 ** g + 1))` visits exactly the values from lo up to hi |
| `Grid.AxisValues` | src/gridsearch.py:251-254 | an axis starts at lo, its values strictly increase, all lie on the axis, and the last is hi when the range is a whole number of steps |
| `Grid.EnumerateLength` | src/gridsearch.py:249-264 | the nested loops reach as many configurations as the product of the axis counts |
| `Grid.SweepLength` | src/gridsearch.py:251-264 | the loop from value i on reaches (count − i) times the size of the inner product |
| `Grid.EnumerateCoordinates` | src/gridsearch.py:249-264 | every configuration reached lies on the grid in every varied parameter and keeps the others |
| `Grid.SweepCoordinates` | src/gridsearch.py:251-264 | configurations reached from value i on lie on the grid and the varied parameter is at least its i-th value |
| `Grid.EnumerateSorted` | src/gridsearch.py:249-264 | the configurations are reached in lexicographic order of the varied parameters |
| `Grid.SweepSorted` | src/gridsearch.py:251-264 | the loop from value i on is lexicographically sorted |
| `Grid.EnumerateNoRepeats` | src/gridsearch.py:249-264 | no configuration is reached twice |
| `GridSearch.NovetoSpace` | src/gridsearch.py:187-194 | the Claire_noveto grid at granularity 0 or 1, in ticks of 0.5^g, covers all seven columns with non-empty ranges |
| `GridSearch.VetoSpace` | src/gridsearch.py:197-206 | the Claire_veto grid at granularity 1 or 3, in ticks of 0.5^g, covers all nine columns with non-empty ranges |
| `GridSearch.GridSpace` | src/gridsearch.py:186-210 | the `grid_params` table picked for a rule and granularity covers every column of that rule |
| `GridSearch.SplitsInjective` | src/gridsearch.py:100-169 | different job ids fix different pairs of split indexes |
| `GridSearch.VetoSplitCoversGrid` | src/gridsearch.py:141-169 | the veto split maps job ids 0 .. w²−1 onto every amplitude pair of the grid, and each pair has a job id |
| `GridSearch.LowerBounds` | src/gridsearch.py:212-215 | the starting indexes have exactly the fitted parameters as keys |
| `GridSearch.LowerBoundsGrow` | src/gridsearch.py:213-214 | each step of the initialisation loop adds one parameter at the lower end of its axis |
| `GridSearch.CodecValues` | src/gridsearch.py:215 | the coded values have exactly the keys of the indexes |
| `GridSearch.CodecValuesUpdate` | src/gridsearch.py:254-255 | setting one index and then coding equals coding and then setting that parameter's value |
| `GridSearch.CodecValuesUnion` | src/gridsearch.py:212-215 | coding the union of the fixed and the fitted indexes is the union of their values |
| `GridSearch.SplitStartOutcomes` | src/gridsearch.py:99-185 | every branch of the split set-up: the veto starts for granularity 1 and 3, and the NotImplementedError or ValueError of each other rule and granularity |
| `GridSearch.InitParams` | src/gridsearch.py:85-217 | `init_params` returns the veto start for granularity 1 and 3 and the exception of every other case, Claire_noveto always failing |
| `GridSearch.SetParams` | src/gridsearch.py:212-217 | the loop sets every fitted index to the lower end of its axis and its value to the coded one; under Claire_noveto it raises NotImplementedError |
| `GridSearch.VetoInitStartsAtLowerBounds` | src/gridsearch.py:85-217 | the veto start has distinct fitted names on the grid, each at its lower bound, the job's amplitude pair, and values coded from the indexes |
| `GridSearch.VetoNamesCovered` | src/gridsearch.py:136-139 | the veto names are distinct, on the grid, and exclude the split amplitudes |
| `GridSearch.VetoSplit` | src/gridsearch.py:141-169 | the amplitude pair job `jid` fixes: (jid mod w, floor(jid / w)) steps from the lower corner, w = 9 at g = 1 and 5 at g = 3 |
| `GridSearch.SplitStart` | src/gridsearch.py:99-185 | the varied names and the fixed split indexes with their values, or the exception of the rule and granularity |
| `GridSearch.VetoInit` | src/gridsearch.py:85-217 | what `init_params` returns for Claire_veto at g = 1 or 3: the varied names at their lower bounds, the split pair, and coded values |
| `GridSearch.GridTable.constructor` | src/gridsearch.py:363 | a table starts with the given rows |
| `GridSearch.GridTable.Insert` | src/gridsearch.py:312-315 | an insert appends exactly one row |
| `GridSearch.LeafParams` | src/gridsearch.py:245-255 | the parameters at a leaf are the base ones plus every varied parameter |
| `GridSearch.Step` | src/gridsearch.py:268-322 | one leaf: while catching up a stored configuration is only counted; otherwise a row with the scores is inserted, or IndexError, KeyError or ValueError is raised |
| `GridSearch.Walk` | src/gridsearch.py:249-322 | the leaves processed in traversal order, each by `Step` |
| `GridSearch.Traversal` | src/gridsearch.py:220-324 | what `gridrecursion` does from the first name: `Walk` over the leaves of the nested loops, each scored by simulating its parameters |
| `GridSearch.WalkAfterFailure` | src/gridsearch.py:220-324 | after an exception no further leaf changes anything |
| `GridSearch.WalkConcat` | src/gridsearch.py:249-264 | visiting two lists of leaves in turn is visiting their concatenation |
| `GridSearch.WalkSameScores` | src/gridsearch.py:245-264 | two traversals whose leaves would score alike insert the same rows |
| `GridSearch.LeafParamsShift` | src/gridsearch.py:253-255 | setting the outer parameter in the copied dict before recursing gives the leaf the same parameters |
| `GridSearch.SubtreeScores` | src/gridsearch.py:253-264 | the recursive call scores each leaf of its subtree as the outer call would |
| `GridSearch.SweepSplits` | src/gridsearch.py:249-264 | the loop over values i.. is the subtree of value i followed by the loop over values i+1..; an exception in the subtree ends it |
| `GridSearch.WalkCounts` | src/gridsearch.py:322 | without an exception `nr` grows by the number of leaves |
| `GridSearch.WalkKeepsRows` | src/gridsearch.py:312-315 | rows are only appended, never changed |
| `GridSearch.StepWhenOff` | src/gridsearch.py:286-322 | once catching up is off, a leaf raises or appends one row keyed by its indexes |
| `GridSearch.WalkInsertsEveryLeaf` | src/gridsearch.py:268-322 | after catching up, every leaf is inserted in order, keyed by its indexes |
| `GridSearch.WalkSkipsStored` | src/gridsearch.py:268-281 | while catching up over stored leaves nothing is inserted and only `nr` advances |
| `GridSearch.MissEndsCatchingUp` | src/gridsearch.py:279-280 | a leaf not found in the table ends catching up for good |
| `GridSearch.SimulatedLeafInsertsOneRow` | src/gridsearch.py:286-322 | a simulated veto leaf inserts one row with `li` the largest deviation and `l2` at least its square |
| `GridSearch.NovetoInsertRaisesKeyError` | src/gridsearch.py:312-315 | without veto the insert reads `idxs['b_theta']` and raises KeyError |
| `GridSearch.GridRecursion` | src/gridsearch.py:220-324 | `gridrecursion` leaves the table and returns `(nr, catching_up)` as the traversal of its subtree specifies, or raises the codec's exception |
| `GridSearch.TraversalSweeps` | src/gridsearch.py:249-264 | the traversal from parameter pi is the loop over its values from the first |
| `GridSearch.SweepStep` | src/gridsearch.py:249-264 | one loop iteration is the subtree at value i, then the rest of the loop unless it raised |
| `GridSearch.GridIteration` | src/gridsearch.py:251-264 | one iteration of the loop inserts what the subtree at that value specifies |
| `GridSearch.SubtreeTraversal` | src/gridsearch.py:260-264 | the recursive call visits the subtree's leaves with the outer scores |
| `GridSearch.LeafTraversal` | src/gridsearch.py:266-322 | at the last parameter the traversal is the single leaf step |
| `GridSearch.VisitLeaf` | src/gridsearch.py:268-322 | one leaf: look up while catching up, then simulate, score and insert |
| `GridSearch.GridMain` | src/gridsearch.py:327-385 | an unknown protocol raises ValueError; every exception of `init_params` (Claire_noveto, Claire_veto at a granularity other than 1 or 3, the Clopath rules) is raised without inserting; the veto rule traverses the whole split grid from its start. The model returns the recursion's `(nr, catching_up)`, which `main` discards before returning 0 |
| `GridSearch.TraversalVisitsEveryPoint` | src/gridsearch.py:220-324 | the traversal visits the product of the axis counts, each point once, in lexicographic order, and counts them all in `nr` |
| `Loss.ScoringTablesWellFormed` | src/gridsearch.py:342-354 | every protocol table a script accepts is well formed; the grid search refuses only an unknown protocol, the Monte-Carlo search accepts only Letzkus and Brandalise |
| `Loss.Traces` | src/gridsearch.py:291-296 | one plasticity per trace |
| `Loss.SimulateTraces` | src/gridsearch.py:291-296 | the loop stores `simulate(prot, t, parameters)` at every position t |
| `Loss.SimulateTracesIsTraces` | src/gridsearch.py:291-296 | the filled list equals the traces of the simulator |
| `Loss.Mix` | src/gridsearch.py:303-306 | the Brandalise mixing yields 18 neuron outcomes |
| `Loss.TilesSources` | src/gridsearch.py:303-306 | a tiling plan reads every remaining trace once, in order |
| `Loss.BrandalisePlanIsPartition` | src/gridsearch.py:303-306 | the 18 mixing terms read the 24 traces 0 .. 23 each exactly once, in order |
| `Loss.BrandalisePlanWeights` | src/gridsearch.py:303-306 | every term reads traces below 24 with convex weights |
| `Loss.MixFollowsPlan` | src/gridsearch.py:303-306 | each mixed outcome is its term of the plan |
| `Loss.MixIsConvex` | src/gridsearch.py:303-306 | mixed outcomes stay within the bounds of the trace outcomes |
| `Loss.MixKeepsConstant` | src/gridsearch.py:303-306 | equal trace outcomes mix to that outcome for every neuron |
| `Loss.Deviation` | src/gridsearch.py:309 | one neuron's deviation is non-negative and zero exactly when the predicted change `100 * (1 + repets * p)` hits the target |
| `Loss.Differences` | src/gridsearch.py:309 | one non-negative deviation `abs(target - 100 * (1 + repets * p))` per neuron |
| `Loss.MaxOfIsLargest` | src/gridsearch.py:314 | `max` returns an element of the list and none is larger |
| `Loss.Mixed` | src/gridsearch.py:302-306 | the Brandalise protocols score the mixed outcomes, the others the traces as simulated |
| `Loss.WellFormedEvaluates` | src/gridsearch.py:302-315 | a well-formed table scores every full set of trace outcomes |
| `Loss.SumSquaresBounds` | src/gridsearch.py:314-315 | the sum of squared deviations is at least the square of the largest |
| `Loss.LossBounds` | src/gridsearch.py:309-315 | `li` is a non-negative deviation no other exceeds, and `l2` is at least its square |
| `Loss.EvaluateBounds` | src/gridsearch.py:302-315 | the scores of a set of outcomes: `li` is the largest neuron deviation and `l2` at least its square |
| `Loss.Evaluate` | src/gridsearch.py:302-315 | scoring one outcome set: mixing for Brandalise, then `li` the largest deviation and `l2` the sum of squared deviations, or IndexError or ValueError when the constants do not fit |
| `Loss.GridScoring` | src/gridsearch.py:342-354 | the grid search's constants: Brandalise and Brandaliseb mixed over 24 traces, Letzkus 9 traces, ValueError otherwise |
| `Loss.MonteScoring` | src/montesearch.py:73-85 | the Monte-Carlo search's constants: Brandalise mixed over 24 traces, Letzkus 10 traces with a tenth target 78, ValueError otherwise |
| `Loss.SampleScoring` | src/samplesearch.py:78-90 | the sample search accepts exactly Brandalise (18 mixed neurons) and Letzkus (9 raw traces), each well formed, and raises ValueError for any other protocol |
| `BuildSpace.SpaceTable.constructor` | src/build_space.py:100 | a table starts with the given rows |
| `BuildSpace.SpaceTable.Insert` | src/build_space.py:56-62 | an insert appends exactly one row |
| `BuildSpace.RowsOf` | src/build_space.py:56-62 | one row per leaf, in order, holding the table's columns |
| `BuildSpace.Visit` | src/build_space.py:56-64 | one leaf: insert the table's columns and count it, or KeyError for a missing index |
| `BuildSpace.Fill` | src/build_space.py:36-64 | the leaves visited in order, each by `Visit` |
| `BuildSpace.FillAfterFailure` | src/build_space.py:17-70 | after an exception nothing more is inserted |
| `BuildSpace.FillConcat` | src/build_space.py:36-49 | inserting two lists of leaves in turn is inserting their concatenation |
| `BuildSpace.FillInsertsEveryLeaf` | src/build_space.py:56-64 | when every leaf has the columns, each is inserted in order and counted |
| `BuildSpace.FillStopsAtMissingColumn` | src/build_space.py:56-62 | the first leaf missing a column raises KeyError after the leaves before it were inserted |
| `BuildSpace.SweepFills` | src/build_space.py:36-49 | one loop iteration inserts its subtree, then the rest of the loop unless it raised |
| `BuildSpace.SampleRecursion` | src/build_space.py:17-70 | `samplerecursion` inserts the rows of its subtree's configurations in traversal order and returns the count |
| `BuildSpace.InsertLeaf` | src/build_space.py:56-64 | one leaf inserts its row and counts it, or raises KeyError |
| `BuildSpace.BuildSpaceMain` | src/build_space.py:73-103 | a missing argument or a job id above 63 raises ValueError; job j inserts its 34300 configurations and returns that count |
| `BuildSpace.SampleGridFacts` | src/build_space.py:91-94 | the five varied names are distinct, on the grid, complete the seven columns with the two amplitudes, and span 34300 points |
| `BuildSpace.SampleGrid` | src/build_space.py:92-93 | `grid_params` has exactly the five varied names as keys, each with a non-empty range |
| `BuildSpace.JobIndexes` | src/build_space.py:94 | job j fixes exactly A_LTP and A_LTD; for j in 0..63 both lie in ticks 1..15, and j is recovered as (A_LTP index − 1)/2 + 8·(A_LTD index − 1)/2 |
| `BuildSpace.SampleNamesFacts` | src/build_space.py:91-93 | the varied names are distinct, on the grid, and complete the columns with the amplitudes |
| `BuildSpace.SampleGridSize` | src/build_space.py:92-93 | thresholds take 10 values and time constants 7: 34300 grid points |
| `BuildSpace.JobLeaf` | src/build_space.py:91-94 | every configuration of job j has the job's amplitudes, exactly the seven columns, and on-grid varied values |
| `BuildSpace.JobLeaves` | src/build_space.py:89-103 | the configurations job `j` inserts, in the nested-loop order, from its fixed amplitudes |
| `BuildSpace.JobLeafReached` | src/build_space.py:36-49 | every configuration of a job is reached from the job's fixed amplitudes |
| `BuildSpace.JobLeafKeys` | src/build_space.py:56-62 | every configuration of a job has exactly the seven columns |
| `BuildSpace.JobLeafAmplitudes` | src/build_space.py:94 | every configuration of a job carries the job's two amplitude indexes |
| `BuildSpace.JobCount` | src/build_space.py:103 | a job inserts 34300 configurations, no two alike |
| `BuildSpace.JobRows` | src/build_space.py:103 | a job's configurations are 34300, distinct, lexicographically sorted, and have all seven columns |
| `BuildSpace.JobsDisjoint` | src/build_space.py:94 | different jobs fix different amplitude cells and share no configuration; jobs 0..63 stay within the amplitude range |
| `BuildSpace.SameAmplitudesSameJob` | src/build_space.py:94 | configurations with the same amplitude indexes belong to the same job |
| `BuildSpace.JobOfIndexes` | src/build_space.py:94 | the job id is recovered from the job's amplitude indexes |
| `BuildSpace.JobOfLeaves` | src/build_space.py:94 | every configuration of job j belongs to job j |
| `BuildSpace.JoinedCount` | src/build_space.py:89-103 | n jobs of a given size merge into n times that many configurations |
| `BuildSpace.Joined` | src/build_space.py:89-103 | the merged space: the jobs' configurations job after job |
| `BuildSpace.JoinedDistinct` | src/build_space.py:89-103 | merging the jobs repeats no configuration, and each names the job that built it |
| `BuildSpace.JobsWellFormed` | src/build_space.py:89-103 | each of the first n jobs has 34300 distinct configurations, all belonging to it |
| `BuildSpace.SampleSpaceSize` | src/build_space.py:89-103 | jobs 0..63 merge into 2195200 distinct configurations, the `totnr` of the resampler |
| `MonteSearch.MonteScoreIsLargestDeviation` | src/montesearch.py:278-280 | the Monte-Carlo score is the largest neuron deviation, and non-negative |
| `MonteSearch.MonteNames` | src/montesearch.py:100-139 | 5 fitted names with a split and 7 without, plus 2 with veto |
| `MonteSearch.SplitInjective` | src/montesearch.py:105-108 | different job ids fix different threshold pairs |
| `MonteSearch.FixedIndexes` | src/montesearch.py:101-125 | with a split, exactly the two thresholds are fixed, Theta_low = jid mod 9 and 9·Theta_high + Theta_low = jid; without one, nothing |
| `MonteSearch.FixedParams` | src/montesearch.py:110-116 | the fixed thresholds' values exist iff there is no split or granularity is 0, otherwise `set_param` raises NotImplementedError; they have the fixed indexes' keys |
| `MonteSearch.MonteGrid` | src/montesearch.py:127-141 | `grid_params` exists iff granularity is 0 or 1 (else NotImplementedError), holds every fitted name, and allows at least 5 indexes per parameter |
| `MonteSearch.SplitCovers` | src/montesearch.py:105-108 | every threshold pair 0..8 is fixed by job id 9·th + tl |
| `MonteSearch.SplitNamesFree` | src/montesearch.py:100-139 | with a split the thresholds are not fitted, and the fitted names are distinct |
| `MonteSearch.NamesDistinct` | src/montesearch.py:100-139 | the fitted names are distinct |
| `MonteSearch.RedrawSets` | src/montesearch.py:215-216 | after a redraw each fitted parameter holds its draw plus one and every other entry is kept |
| `MonteSearch.RedrawOnGrid` | src/montesearch.py:144-146 | draws from `range(grid_params[p])` give indexes 1..grid_params[p] |
| `MonteSearch.Redraw` | src/montesearch.py:144-146 | each fitted index set to its draw + 1, in order |
| `MonteSearch.CopiedTakesRow` | src/montesearch.py:147-152 | copying from the stored row succeeds iff it has every fitted column, and then takes the row's indexes; a missing column raises KeyError |
| `MonteSearch.StartIndexes` | src/montesearch.py:143-152 | draws + 1 for every fitted name, or the stored row's indexes; TypeError when row `first_id` does not exist and KeyError when it lacks a fitted column; other entries kept |
| `MonteSearch.CodedMatches` | src/montesearch.py:157-159 | coding succeeds iff the granularity is 0 and every fitted index is present, and then every value matches its index |
| `MonteSearch.CodedAgree` | src/montesearch.py:157-159 | index dicts that agree on the fitted parameters code alike |
| `MonteSearch.Coded` | src/montesearch.py:157-159 | each fitted value set to the codec of its index, in order, or KeyError or the codec's exception |
| `MonteSearch.MonteSetup` | src/montesearch.py:73-159 | the set-up in order: protocol constants, fixed thresholds, grid, starting indexes, their values, each with its exception |
| `MonteSearch.SetupFacts` | src/montesearch.py:73-159 | granularity other than 0 or an unknown protocol stops the set-up; otherwise the run starts with patience 3 per name, the split thresholds, and the invariant |
| `MonteSearch.ColumnCovered` | src/montesearch.py:226-234 | every looked-up column is a fitted parameter or a fixed split threshold |
| `MonteSearch.GranularityRefused` | src/montesearch.py:128-159 | a granularity other than 0 never completes the set-up |
| `MonteSearch.FirstMatch` | src/montesearch.py:225-234 | `find_one` returns the first row matching the candidate, or none when no row matches |
| `MonteSearch.AcceptProb` | src/montesearch.py:300-303 | a higher score is accepted with probability in [0, 1), a score no higher with probability at least 1, and a zero divisor gives 1 |
| `MonteSearch.Accept` | src/montesearch.py:294-308 | acceptance of a lower score, or of any other with probability current/new, making the new dicts current |
| `MonteSearch.Consider` | src/montesearch.py:225-308 | the lookup, the insert and simulation of a new candidate, then the acceptance |
| `MonteSearch.ResetAsWritten` | src/montesearch.py:215-217 | the reset of lines 216-217 as written: new indexes from the draws, values coded from `indexes[p]` |
| `MonteSearch.Reset` | src/montesearch.py:215-217 | the reset as intended: values coded from the new indexes |
| `MonteSearch.Prepare` | src/montesearch.py:183-218 | the move while `waiting < patience`, otherwise the reset as written, and whether the iteration goes on |
| `MonteSearch.MonteStep` | src/montesearch.py:175-310 | one iteration: `Prepare`, then `Consider` with the candidate's score |
| `MonteSearch.Steps` | src/montesearch.py:175-310 | the iterations in order, stopped by the first exception |
| `MonteSearch.AcceptRule` | src/montesearch.py:294-308 | a lower score is accepted; a higher one with probability current/new; a zero score always; nothing else changes |
| `MonteSearch.ConsiderFacts` | src/montesearch.py:225-308 | a stored candidate is re-used and counts as waiting; a new one is inserted with its score or the sentinel, resets waiting, and raises with the simulator |
| `MonteSearch.MoveFacts` | src/montesearch.py:186-208 | a move copies the dicts and shifts one index by one; it goes on iff the index stays in 1..grid, with the new value coded |
| `MonteSearch.ResetFacts` | src/montesearch.py:210-218 | the reset as written: every fitted index becomes its draw + 1 and its value is coded from `indexes[p]`, the new index when the dicts are shared and the old one when they are not; waiting 0, score `sys.maxsize`; NotImplementedError for a granularity other than 0 |
| `MonteSearch.ResetMatches` | src/montesearch.py:215-217 | the intended reset: each new index gets the value of its own draw, shared dicts or not, and lies on the grid |
| `MonteSearch.CodedFailsOnGranularity` | src/montesearch.py:47-48 | coding any fitted parameter at granularity other than 0 raises NotImplementedError |
| `MonteSearch.StepKeepsKeysUnique` | src/montesearch.py:236-253 | an iteration never inserts a configuration the table already holds |
| `MonteSearch.InsertKeepsKeysUnique` | src/montesearch.py:241-252 | inserting a key that is not yet stored keeps keys unique |
| `MonteSearch.PrepareKeepsInvariant` | src/montesearch.py:183-218 | the move or the reset as written keeps the indexes on the grid and every value a grid value; a candidate that goes on lies on the grid, and its values are those of its own indexes, except after a reset of separate dicts, where they are those of the current indexes |
| `MonteSearch.StepKeepsInvariant` | src/montesearch.py:175-310 | an iteration keeps that invariant; a row it inserts is keyed by the candidate's indexes and holds the score of the candidate's values, which after a reset of separate dicts are the old indexes' values; matched values stay matched unless the iteration resets separate dicts |
| `MonteSearch.ConsiderKeepsInvariant` | src/montesearch.py:225-308 | the lookup and the acceptance keep the invariant, and keep values matched when the candidate's values match its indexes |
| `MonteSearch.MatchedOnGrid` | src/montesearch.py:157-159 | values coded from indexes on the grid are grid values |
| `MonteSearch.StepsKeepInvariant` | src/montesearch.py:175-310 | the whole loop as written keeps keys unique, the indexes on the grid and every value a grid value; the current values match their indexes as long as no iteration resets separate dicts |
| `MonteSearch.ResetAsWrittenKeepsStaleValues` | src/montesearch.py:215-217 | the reset as written gives the new index its draw but the value of the old index |
| `MonteSearch.StepsStopAtFailure` | src/montesearch.py:175-310 | once an iteration raises, later draws change nothing |
| `MonteSearch.CodedPrefixFails` | src/montesearch.py:158-159 | a coding error part-way is the error of the whole loop |
| `MonteSearch.CopiedPrefixFails` | src/montesearch.py:151-152 | a missing column part-way is the error of the whole copy |
| `MonteSearch.Dict.constructor` | src/montesearch.py:187-188 | a dict starts with the given entries |
| `MonteSearch.Dict.Set` | src/montesearch.py:194 | `d[p] = v` changes that entry only |
| `MonteSearch.MonteTable.Insert` | src/montesearch.py:242-252 | an insert appends one row and returns its id |
| `MonteSearch.MonteTable.Update` | src/montesearch.py:283 | the update changes the score of that row only |
| `MonteSearch.ScoreParams` | src/montesearch.py:259-280 | simulating every trace and scoring gives the Monte-Carlo score |
| `MonteSearch.DrawIndexes` | src/montesearch.py:144-146 | the starting indexes are the draws plus one |
| `MonteSearch.CopyIndexes` | src/montesearch.py:150-152 | the starting indexes are copied from the stored row, or KeyError |
| `MonteSearch.CodeValues` | src/montesearch.py:158-159 | the starting values are coded from the indexes, or the codec's exception |
| `MonteSearch.MonteLoop.constructor` | src/montesearch.py:167-171 | the loop starts with score `sys.maxsize`, waiting 0, and the set-up's dicts |
| `MonteSearch.MonteLoop.ResetCandidate` | src/montesearch.py:215-217 | as line 217 is written: each new index is its draw + 1 and its value is coded from `indexes[p]`, so from the new index only when the dicts are shared; or the codec's exception |
| `MonteSearch.MonteLoop.Lookup` | src/montesearch.py:225-292 | a stored candidate gives its score and counts as waiting; a new one is inserted with the sentinel, simulated and updated |
| `MonteSearch.MonteLoop.AcceptCandidate` | src/montesearch.py:294-308 | the acceptance makes the new dicts the current ones, or keeps the old ones |
| `MonteSearch.MonteLoop.ConsiderCandidate` | src/montesearch.py:225-308 | the lookup and the acceptance as their specification states |
| `MonteSearch.MonteLoop.Move` | src/montesearch.py:186-208 | the move copies the dicts and shifts one index as its specification states |
| `MonteSearch.MonteLoop.RandomReset` | src/montesearch.py:210-219 | the random reset as written: waiting 0, score `sys.maxsize`, then the redraw and the coding of lines 216-217, equal to the reset branch of `Prepare` |
| `MonteSearch.MonteLoop.Iterate` | src/montesearch.py:175-310 | one iteration, with the reset as written, changes the table and the state as `MonteStep` specifies |
| `MonteSearch.ResetFails` | src/montesearch.py:215-217 | a codec error at one parameter of the reset is the error of the whole reset |
| `MonteSearch.MonteInit` | src/montesearch.py:73-159 | the set-up fills fresh `indexes` and `parameters` dicts as its specification states, or raises |
| `MonteSearch.RunLoop` | src/montesearch.py:175-310 | the loop runs one iteration per draw, reset as written, until one raises; table and result are those of `Steps` |
| `MonteSearch.MonteMain` | src/montesearch.py:51-312 | `main` raises the set-up's exception without touching the table, or runs the loop as written from the set-up's state |
| `Resampler.ResampleSettings` | src/model_distribution.py:35-48 | only granularity 1, Letzkus, Claire without veto is set up (threshold 3000, 64 splits of 34300); a missing sample space raises EnvironmentError |
| `Resampler.Window` | src/model_distribution.py:67-71 | Python indexing of a run of positions: IndexError outside the list, otherwise `size` ids |
| `Resampler.JobSamples` | src/model_distribution.py:66-71 | job j's slice exists iff it fits the shuffled list, and has `totnr / nrsplits` ids |
| `Resampler.WindowAt` | src/model_distribution.py:71 | each id is read with Python's negative-index rule |
| `Resampler.WindowIsSlice` | src/model_distribution.py:71 | a window inside the list is a plain slice |
| `Resampler.WindowFromEnd` | src/model_distribution.py:71 | a window counted back from the end is the window that far from the end |
| `Resampler.WindowsDisjoint` | src/model_distribution.py:69-71 | non-overlapping windows of a list without repeats share no id |
| `Resampler.JobBounds` | src/model_distribution.py:67 | job j of n starts at j·size and its slice fits in n·size |
| `Resampler.JobSamplesSlice` | src/model_distribution.py:66-71 | job j of n takes exactly positions j·size .. (j+1)·size − 1 |
| `Resampler.MinusOneIsLastJob` | src/model_distribution.py:67-71 | job id −1 takes the same ids as the last job |
| `Resampler.JobSamplesOutOfRange` | src/model_distribution.py:67-71 | job ids from n on, and below −n, raise IndexError |
| `Resampler.JobsDisjoint` | src/model_distribution.py:66-71 | two different jobs never sample the same id |
| `Resampler.JobsCover` | src/model_distribution.py:66-71 | together the n jobs sample every id of the shuffled list |
| `Resampler.FindSpace` | src/model_distribution.py:86 | `find_one(id=s)` finds a row iff 1 ≤ s ≤ row count, and then the row with that id |
| `Resampler.Neighbours` | src/model_distribution.py:90-101 | a coarse row is a neighbour iff every column is at one of the two corner values q ± nh |
| `Resampler.MinCappedIsMinimum` | src/model_distribution.py:103-107 | `relprob` is at most the threshold and every neighbour's l2, and equals one of them |
| `Resampler.MinCapped` | src/model_distribution.py:103-107 | the threshold lowered to each smaller neighbour `l2` in turn |
| `Resampler.KeptIffGoodNeighbour` | src/model_distribution.py:103-110 | a sample is kept iff some neighbour scored below the threshold |
| `Resampler.RelProb` | src/model_distribution.py:103-107 | the minimum loop computes the capped minimum |
| `Resampler.Shifted` | src/model_distribution.py:116-121 | the stored configuration is the sample's with `t1` lowered by nh |
| `Resampler.AppendKeepsCumulative` | src/model_distribution.py:112-121 | appending a row with a larger running total keeps the weights strictly increasing |
| `Resampler.AppendKeepsPending` | src/model_distribution.py:116-121 | an appended row is pending (sentinel losses) and comes from a sample-space configuration |
| `Resampler.CumulativeTotal` | src/model_distribution.py:113 | the running total is never negative |
| `Resampler.VisitKeeps` | src/model_distribution.py:85-122 | a visit appends at most one row and keeps the weights cumulative and the rows pending |
| `Resampler.Visit` | src/model_distribution.py:85-122 | one sample: TypeError when its row is missing, KeyError for a missing column, otherwise kept with its weight when relprob < threshold |
| `Resampler.Accumulate` | src/model_distribution.py:77-122 | the samples in order, each by `Visit` at row id s + 1, stopped by the first exception |
| `Resampler.AccumulateKeeps` | src/model_distribution.py:77-122 | the whole loop keeps the weights cumulative, the rows pending, and appends at most one row per sample |
| `Resampler.AccumulateNext` | src/model_distribution.py:80-122 | the loop after i samples takes one more step on sample i |
| `Resampler.AccumulateStops` | src/model_distribution.py:80-122 | once the loop has raised, later samples change nothing |
| `Resampler.Normalised` | src/model_distribution.py:124-128 | the normalisation keeps every row |
| `Resampler.NormalisedSuffix` | src/model_distribution.py:126 | normalising rescales earlier rows and new ones alike |
| `Resampler.NormalisedIsDistribution` | src/model_distribution.py:124-128 | after normalising, the weights lie in (0, 1], strictly increase, end at 1, and nothing else changes |
| `Resampler.NormalisedAt` | src/model_distribution.py:126 | each row's `crp` is divided by the total |
| `Resampler.Plus` | src/model_distribution.py:126 | Python `+` joins two strings and raises TypeError on a string and a number |
| `Resampler.NormaliseQueryAsWritten` | src/model_distribution.py:126 | line 126 as written: the statement built by `+` from strings and the float total, with Python's str + float TypeError (see `NormaliseQueryAlwaysFails`) |
| `Resampler.NormaliseQueryAlwaysFails` | src/model_distribution.py:126 | the normalisation query as written raises TypeError |
| `Resampler.SampleZeroMissing` | src/model_distribution.py:86 | sample id 0 finds no row, and visiting it raises TypeError |
| `Resampler.CorrectedLookupFinds` | src/model_distribution.py:86 | looked up at s + 1, each sample id finds its configuration |
| `Resampler.BindInsert` | src/model_distribution.py:116-121 | a call to `insert(row, ensure=None, types=None)` binds only when `row` is given and every keyword names a parameter |
| `Resampler.KeywordInsertFails` | src/model_distribution.py:116-121 | the keyword call as written binds no `row` and raises TypeError, with or without veto |
| `Resampler.DictInsertBinds` | src/model_distribution.py:116-121 | passing the row as one dict binds |
| `Resampler.SampleTable.constructor` | src/model_distribution.py:59-60 | a table starts with the given rows |
| `Resampler.SampleTable.Insert` | src/model_distribution.py:116-121 | an insert appends exactly one row |
| `Resampler.SampleTable.Normalise` | src/model_distribution.py:125-127 | the update divides every row's weight by the total |
| `Resampler.SampleTable.Update` | src/samplesearch.py:180 | the update changes that row's losses only |
| `Resampler.VisitSample` | src/model_distribution.py:85-122 | one visit of the loop body appends what the visit specifies |
| `Resampler.VisitFrom` | src/model_distribution.py:85-122 | a visit depends on the state only through its running total |
| `Resampler.ModelDistribution` | src/model_distribution.py:18-128 | a missing or extra argument raises ValueError; otherwise the script raises the set-up's or the slice's exception, or stores the kept samples and normalises their weights, with the lookup at row id s + 1 and the division by the total as intended (see "Left out") |
| `Resampler.VisitAll` | src/model_distribution.py:77-122 | the loop over the job's samples, each looked up at row id s + 1 where line 86 uses s, appends the rows `Accumulate` specifies |
| `SampleSearch.SearchNames` | src/samplesearch.py:110-115 | 7 fitted names without veto, 9 with |
| `SampleSearch.SearchSetup` | src/samplesearch.py:78-118 | an unknown protocol raises ValueError, a missing results file EnvironmentError; otherwise the protocol's well-formed scores |
| `SampleSearch.FirstAtLeast` | src/samplesearch.py:139 | the first row whose weight reaches the draw, or none when no row does |
| `SampleSearch.Select` | src/samplesearch.py:137-141 | a row is selected iff the table is not empty |
| `SampleSearch.SelectIsInverseCdf` | src/samplesearch.py:137-141 | with weights strictly increasing to 1, a draw u ≤ 1 selects the first row whose weight reaches u |
| `SampleSearch.SelectFallback` | src/samplesearch.py:140-141 | a draw above every weight falls back to the last row |
| `SampleSearch.RowParamsCodes` | src/samplesearch.py:149-150 | coding a row succeeds iff every name is a column with a codable index, and then each value is that name's code |
| `SampleSearch.RowParams` | src/samplesearch.py:149-150 | each name coded from the row's column, in order, or KeyError or the codec's exception |
| `SampleSearch.RowScore` | src/samplesearch.py:149-180 | a row's score: code it, simulate every trace, evaluate |
| `SampleSearch.ClopathRowFails` | src/samplesearch.py:42-57 | the Clopath rule has no sample codec: coding raises ValueError |
| `SampleSearch.ClopathPrefix` | src/samplesearch.py:149-150 | under Clopath every prefix of the coding loop raises ValueError |
| `SampleSearch.RowScoreIsLoss` | src/samplesearch.py:156-180 | a pending row's `li` is its largest neuron deviation and `l2` at least its square |
| `SampleSearch.SampleMixingIsGridMixing` | src/samplesearch.py:165-169 | the Brandalise sample search mixes and scores as the grid search does |
| `SampleSearch.StepKeepsRecord` | src/samplesearch.py:138-182 | one draw keeps ids, configurations and weights, updates only a pending row with its score, and counts it |
| `SampleSearch.SearchStep` | src/samplesearch.py:138-182 | one draw: TypeError with no row, nothing for a scored row, otherwise code, simulate and update the pending row, counting it |
| `SampleSearch.SearchSteps` | src/samplesearch.py:132-182 | the draws in order, stopped by the first exception |
| `SampleSearch.StepsKeepRecord` | src/samplesearch.py:132-182 | the whole loop keeps that record |
| `SampleSearch.AtMostOnce` | src/samplesearch.py:143-180 | when no score equals the sentinel, no row is evaluated twice and `nrs` stays at most the row count |
| `SampleSearch.SearchStepsStop` | src/samplesearch.py:132-182 | once an iteration raises, later draws change nothing |
| `SampleSearch.SearchStepsNext` | src/samplesearch.py:132-182 | the loop after i draws takes one more step on draw i |
| `SampleSearch.CodeRow` | src/samplesearch.py:149-150 | the coding loop overwrites each name with its code, or raises the codec's exception |
| `SampleSearch.RowParamsPrefixFails` | src/samplesearch.py:149-150 | a coding error part-way is the error of the whole row |
| `SampleSearch.EvaluateRow` | src/samplesearch.py:143-182 | a pending row is coded, simulated and updated with its losses, or the exception leaves the table as it was |
| `SampleSearch.RunSearch` | src/samplesearch.py:126-184 | one iteration per draw until one raises, with `nrs` counting the evaluations |
| `SampleSearch.SampleMain` | src/samplesearch.py:60-184 | `main` raises the set-up's exception without touching the table, or runs the loop |

## Left out

- Floating point: indexes, values and scores are exact integers or reals. Rounding,
  overflow and numpy's RuntimeWarning are not modelled.
- The simulator is an arbitrary function parameter. Only its results are used.
- Randomness is a parameter: the Monte-Carlo moves and resets, the acceptance draw, the
  sample-search draws, and the seeded shuffle of the resampler.
- Printing, `sys.stdout.flush`, `database.commit` and the BEGIN/END of the normalisation are
  not modelled. Every insert or update is taken to be visible at once.
- The iteration caps (`nr_iterations`) are not modelled. A run is as long as the draws given.
- Only the fitted parameters are modelled in the parameter dicts. The constant entries
  (`PlasticityRule`, `veto`, `x_reset`, `w_max`, `w_init`) are not.
- String identity (`protocol_type is 'Letzkus'`) is taken as equality, as it holds for
  interned literals.
- The `g` that `set_param` reads at src/montesearch.py:111-112 is the global the script's
  entry point sets to the granularity. The model passes the granularity.
- A move that hits a wall at src/montesearch.py:198 and 205 ends the iteration with
  `continue`. It does not count toward `waiting`, so only re-visits of stored
  configurations lead to a reset. The model follows the code.
- Tables are fresh: row ids are positions counted from 1, and no other process writes
  concurrently. The concurrent claim of a configuration by its sentinel row is not modelled.
- The coarse results read by the resampler are modelled as rows with an `l2` loss. The
  Monte-Carlo table at src/montesearch.py:242-252 stores only `score`. Which file holds the
  coarse results is not part of this model.
- Resampler.ModelDistribution: the script model runs the intended forms of three lines of
  src/model_distribution.py: the lookup at row id s + 1 (line 86), the row passed to
  `insert` as one dict (lines 117-121), and the division by the total (line 126). As written
  the script raises TypeError at the first kept sample, at sample 0, or at line 126, so no
  run completes. The "## Findings" rows model each line as written.
- Resampler.VisitAll: looks each sample up at row id s + 1, where line 86 uses s.
  `Resampler.SampleZeroMissing` states what the lookup as written does.
- `Resampler.Normalised`: a total weight of 0 leaves the rows unchanged. SQL division by
  zero would give NULL, which is not modelled.
- Negative job ids pass the `j > 63` guard of src/build_space.py:89. The model computes
  Python's floor and modulo for them, but the lemmas about jobs are stated for ids 0..63.
- The resampler's job id is an integer. −1 aliases the last job and ids out of range raise
  IndexError.
- `SampleSearch.AtMostOnce` requires that no configuration scores exactly the sentinel
  9999999999999999 as its `l2`. Such a row would still look pending and be evaluated again.
- Brian2 units are kept as a `Unit` tag on each value and not checked dimensionally.
- `src/simulation.py`, `src/plasticity.py` and `src/evaluateparameters.py` are not part of
  this model.
- The merging and splitting scripts (`src/merge_databases.py`, `src/split_database.py`) are
  modelled only through `BuildSpace.Joined`, which concatenates the jobs in order.

## Findings

| source | as written | input that shows it | evidently intended | confidence | as-written member | corrected member |
|---|---|---|---|---|---|---|
| src/montesearch.py:217 | the random reset codes `new_parameters[p]` from `indexes[p]`, the current index | a reset in a state whose new dicts are not shared with the current ones: `A_LTP` at index 5 redrawn to 1 keeps the value of index 5 | code each value from `new_indexes[p]`, the index just drawn | not executed | `MonteSearch.ResetAsWritten`, `MonteSearch.ResetAsWrittenKeepsStaleValues`, `MonteSearch.StepKeepsInvariant` | `MonteSearch.Reset`, `MonteSearch.ResetMatches` |
| src/model_distribution.py:86 | sample ids run over `range(totnr)`, 0 .. totnr−1, and are looked up with `find_one(id=s)` in a space whose ids are 1 .. totnr | sample id 0: `find_one` returns None and `q['ap']` raises TypeError; id totnr is never sampled | look up row id s + 1 | not executed | `Resampler.SampleZeroMissing` | `Resampler.CorrectedLookupFinds`, `Resampler.Accumulate` |
| src/model_distribution.py:126 | the normalisation query concatenates the string with the float `crp` | any run that reaches the normalisation: `"... crp / " + 1500.0` raises TypeError | convert the total to a string, dividing every `crp` by it | not executed | `Resampler.NormaliseQueryAsWritten`, `Resampler.NormaliseQueryAlwaysFails` | `Resampler.Normalised`, `Resampler.NormalisedIsDistribution` |
| src/model_distribution.py:117-121 | `newtab.insert(ap=..., ...)` passes the row's fields as keyword arguments, while `Table.insert(row, ensure=None, types=None)` of the dataset library takes the row as one dict | the first kept sample: the call binds no `row` and passes keywords such as `ap` that `insert` lacks, so Python raises TypeError | pass `dict(ap=..., ...)` as the row, as src/build_space.py:56-62 does | not executed; the dataset library is not part of this model, its signature is the published one | `Resampler.BindInsert`, `Resampler.KeywordInsertFails` | `Resampler.DictInsertBinds`, `Resampler.AppendKeepsPending` |
