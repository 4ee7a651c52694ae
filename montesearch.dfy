/** src/montesearch.py: a Monte-Carlo local search over integer grid indexes. Each iteration
    moves one free parameter one step up or down (a move off the grid ends the iteration), or,
    after `patience` iterations without a new configuration, redraws every free parameter. The
    candidate is looked up in the results table; on a miss a pending row is inserted, the traces
    are simulated and the row gets the score. The candidate is accepted when it scores lower, and
    otherwise with probability current/new. Random draws are inputs of the model. */
module MonteSearch {
  import opened Common
  import opened Codec
  import opened Grid
  import opened Loss

  /** The run's constants: the free parameters in order, the largest index of each (the
      smallest is 1), the veto flag, the granularity and `patience = 3 * len(param_names)`. */
  datatype MonteRun = MonteRun(names: seq<Param>, grid: map<Param, int>, veto: bool, g: int, patience: nat)

  /** A results-table row: the indexes of a configuration and its score, which is
      9999999999999999 while the simulation is pending. */
  datatype MonteRow = MonteRow(key: Config, score: real)

  /** The random draws of one iteration: which free parameter (a position in `names`), which
      direction, the uniform number of the acceptance test, and for a reset one draw from
      `range(grid_params[p])` per free parameter. */
  datatype Draw = Draw(pick: nat, up: bool, u: real, reset: seq<int>)

  /** The loop's variables: `indexes`, `parameters`, `new_indexes` and `new_parameters`;
      `aliased` holds when the new dicts are the very objects of the current ones (after an
      acceptance), `current_score`, `waiting`, the table's rows, and the exception that ended
      the run. After an exception only `rows` and `failure` are meaningful. */
  datatype MonteState = MonteState(indexes: Config, parameters: Params, cand: Config, candParams: Params,
                                   aliased: bool, current: real, waiting: nat, rows: seq<MonteRow>,
                                   failure: Option<Error>)

  /** What a simulation needs: the protocol's scoring constants, the protocol, the simulator. */
  datatype MonteJob = MonteJob(sc: Scoring, prot: Protocol, sim: Simulator)

  /** Simulate `nrtraces` traces with `params`, mix them for Brandalise, and take the largest
      deviation from the targets as the score. */
  function MonteScore(job: MonteJob, params: Params): Result<real>
  {
    match Evaluate(job.sc, Traces(job.sim, job.prot, job.sc.nrtraces, params))
    case Ok(s) => Ok(s.li)
    case Err(e) => Err(e)
  }

  function Scorer(job: MonteJob): Params -> Result<real>
  {
    params => MonteScore(job, params)
  }

  /** For both protocols the script accepts, every configuration gets a score, and that score
      is the largest deviation of a scored neuron from its target, so it is non-negative. */
  lemma MonteScoreIsLargestDeviation(prot: Protocol, sim: Simulator, params: Params)
    requires MonteScoring(prot).Ok?
    ensures var sc := MonteScoring(prot).value;
            var s := MonteScore(MonteJob(sc, prot, sim), params);
            var m := Mixed(sc, Traces(sim, prot, sc.nrtraces, params));
            && s.Ok? && s.value >= 0.0
            && (exists t :: 0 <= t < sc.nrneurons && s.value == Deviation(sc.targets[t], sc.repets, m[t]))
            && (forall t :: 0 <= t < sc.nrneurons ==> Deviation(sc.targets[t], sc.repets, m[t]) <= s.value)
  {
    var sc := MonteScoring(prot).value;
    var p := Traces(sim, prot, sc.nrtraces, params);
    ScoringTablesWellFormed(prot);
    WellFormedEvaluates(sc, p);
    EvaluateBounds(sc, p);
  }

  // ---------------------------------------------------------------------------------------
  // Set-up (src/montesearch.py:100-159)
  // ---------------------------------------------------------------------------------------

  const SplitNames: seq<Param> := [ALTP, ALTD, TauLowpass1, TauLowpass2, TauX]

  /** `param_names`: five names when the thresholds are fixed by the job id, all seven
      otherwise, then `b_theta` and `tau_theta` for the veto rule. */
  function MonteNames(split: bool, veto: bool): (names: seq<Param>)
    ensures |names| == (if split then 5 else 7) + (if veto then 2 else 0)
  {
    (if split then SplitNames else NovetoColumns) + (if veto then [BTheta, TauTheta] else [])
  }

  /** `grid_params`: the largest index of each parameter, for granularity 0 or 1, with
      `b_theta` and `tau_theta` set to 5 for the veto rule. */
  function MonteGrid(g: int, veto: bool): (r: Result<map<Param, int>>)
    ensures r.Ok? <==> g == 0 || g == 1
    ensures r.Ok? ==> forall p :: p in MonteNames(false, veto) ==> p in r.value
    ensures r.Ok? ==> forall p :: p in r.value ==> r.value[p] >= 5
  {
    var base := map[ThetaHigh := 8, ThetaLow := 8, ALTP := 8, ALTD := 8,
                     TauLowpass1 := 7, TauLowpass2 := 7, TauX := 7];
    if g != 0 && g != 1 then Err(NotImplementedError)
    else
      var grid := if g == 1 then base[BTheta := 5][TauTheta := 5] else base;
      Ok(if veto then grid[BTheta := 5][TauTheta := 5] else grid)
  }

  /** The job's fixed threshold indexes when the grid is split: `Theta_high` is
      floor(jid / 9) and `Theta_low` is jid mod 9. */
  function FixedIndexes(split: bool, jid: int): (r: Config)
    ensures !split ==> r == map[]
    ensures split ==> r.Keys == {ThetaHigh, ThetaLow}
    ensures split ==> 0 <= r[ThetaLow] < 9 && 9 * r[ThetaHigh] + r[ThetaLow] == jid
  {
    if split then map[ThetaHigh := jid / 9, ThetaLow := jid % 9] else map[]
  }

  /** Their values, `Theta_low` first; `set_param` refuses every granularity but 0. */
  function FixedParams(split: bool, jid: int, g: int): (r: Result<Params>)
    ensures r.Ok? <==> !split || g == 0
    ensures r.Err? ==> r.error == NotImplementedError
    ensures r.Ok? ==> r.value.Keys == FixedIndexes(split, jid).Keys
  {
    if !split then Ok(map[])
    else
      match MonteCodec(ThetaLow, (jid % 9) as real, g)
      case Err(e) => Err(e)
      case Ok(tl) =>
        match MonteCodec(ThetaHigh, (jid / 9) as real, g)
        case Err(e) => Err(e)
        case Ok(th) => Ok(map[ThetaHigh := th, ThetaLow := tl])
  }

  /** Different job ids fix different threshold pairs. */
  lemma SplitInjective(j: int, k: int)
    requires j != k
    ensures FixedIndexes(true, j) != FixedIndexes(true, k)
  {
    var a, b := FixedIndexes(true, j), FixedIndexes(true, k);
    assert a[ThetaHigh] == j / 9 && a[ThetaLow] == j % 9;
    assert b[ThetaHigh] == k / 9 && b[ThetaLow] == k % 9;
    assert j == 9 * (j / 9) + j % 9;
    assert k == 9 * (k / 9) + k % 9;
  }

  /** Every pair of threshold indexes 0..8 is fixed by job id 9·th + tl, one of the ids 0..80. */
  lemma SplitCovers(th: int, tl: int)
    requires 0 <= th <= 8 && 0 <= tl <= 8
    ensures 0 <= 9 * th + tl < 81
    ensures FixedIndexes(true, 9 * th + tl) == map[ThetaHigh := th, ThetaLow := tl]
  {
    DivModUnique(9 * th + tl, 9, th, tl);
  }

  /** With a split grid the thresholds are not free parameters, and the free parameters are
      distinct. */
  lemma SplitNamesFree(veto: bool)
    ensures ThetaHigh !in MonteNames(true, veto) && ThetaLow !in MonteNames(true, veto)
    ensures Distinct(MonteNames(true, veto)) && Distinct(MonteNames(false, veto))
  {
    var names := MonteNames(true, veto);
    forall i | 0 <= i < |names| ensures names[i] != ThetaHigh && names[i] != ThetaLow {
    }
    NamesDistinct(true, veto);
    NamesDistinct(false, veto);
  }

  lemma NamesDistinct(split: bool, veto: bool)
    ensures Distinct(MonteNames(split, veto))
  {
    var names := MonteNames(split, veto);
    forall i, j | 0 <= i < j < |names| ensures names[i] != names[j] {
    }
  }

  /** `indexes[p] = rnd.sample(range(grid_params[p]), 1)[0] + 1` for each free parameter in
      turn; also what a reset does to `new_indexes`. */
  function Redraw(names: seq<Param>, draws: seq<int>, idxs: Config): Config
    requires |draws| == |names|
  {
    if names == [] then idxs
    else
      var n := |names| - 1;
      Redraw(names[..n], draws[..n], idxs)[names[n] := draws[n] + 1]
  }

  /** After a redraw each free parameter holds its draw plus one; every other entry is kept. */
  lemma {:induction false} RedrawSets(names: seq<Param>, draws: seq<int>, idxs: Config)
    requires |draws| == |names| && Distinct(names)
    ensures var r := Redraw(names, draws, idxs);
            && (forall k :: 0 <= k < |names| ==> names[k] in r && r[names[k]] == draws[k] + 1)
            && (forall p :: p !in names ==> (p in r <==> p in idxs) && (p in idxs ==> r[p] == idxs[p]))
  {
    if names != [] {
      var n := |names| - 1;
      RedrawSets(names[..n], draws[..n], idxs);
      forall p | p in names[..n] ensures p in names {
      }
    }
  }

  /** Redrawing on the grid: draws from `range(grid_params[p])` give indexes 1..grid_params[p]. */
  lemma RedrawOnGrid(run: MonteRun, draws: seq<int>, idxs: Config)
    requires DrawsOnGrid(run.names, run.grid, draws) && Distinct(run.names)
    ensures InRange(run, Redraw(run.names, draws, idxs))
  {
    RedrawSets(run.names, draws, idxs);
    var r := Redraw(run.names, draws, idxs);
    forall p | p in run.names ensures p in r && p in run.grid && 1 <= r[p] <= run.grid[p] {
      var k :| 0 <= k < |run.names| && run.names[k] == p;
    }
  }

  /** `indexes[p] = first_indices[translator[p]]` for each free parameter: the starting
      configuration copied from a stored row. */
  function Copied(names: seq<Param>, key: Config, idxs: Config): Result<Config>
  {
    if names == [] then Ok(idxs)
    else
      var n := |names| - 1;
      match Copied(names[..n], key, idxs)
      case Err(e) => Err(e)
      case Ok(prev) => if names[n] !in key then Err(KeyError) else Ok(prev[names[n] := key[names[n]]])
  }

  /** Copying succeeds exactly when the row has every free parameter, and then the free
      parameters take the row's values and nothing else changes. */
  lemma {:induction false} CopiedTakesRow(names: seq<Param>, key: Config, idxs: Config)
    ensures Copied(names, key, idxs).Ok? <==> HasAll(key, names)
    ensures Copied(names, key, idxs).Err? ==> Copied(names, key, idxs).error == KeyError
    ensures Copied(names, key, idxs).Ok? ==>
              var r := Copied(names, key, idxs).value;
              && (forall p :: p in names ==> p in r && r[p] == key[p])
              && (forall p :: p !in names ==> (p in r <==> p in idxs) && (p in idxs ==> r[p] == idxs[p]))
  {
    if names != [] {
      var n := |names| - 1;
      CopiedTakesRow(names[..n], key, idxs);
      assert names == names[..n] + [names[n]];
      forall p | p in names ensures p in names[..n] || p == names[n] {
      }
    }
  }

  /** The value of index `i` under granularity 0, which every move uses. */
  function MonteValue(p: Param, i: int): Value
  {
    MonteCodec(p, i as real, 0).value
  }

  /** `parameters[p] = set_param(p, indexes[p], granularity)` for each free parameter in turn:
      KeyError for a missing index, NotImplementedError for a granularity other than 0. */
  function Coded(names: seq<Param>, g: int, idxs: Config, params: Params): Result<Params>
  {
    if names == [] then Ok(params)
    else
      var n := |names| - 1;
      match Coded(names[..n], g, idxs, params)
      case Err(e) => Err(e)
      case Ok(prev) =>
        if names[n] !in idxs then Err(KeyError)
        else
          match MonteCodec(names[n], idxs[names[n]] as real, g)
          case Err(e) => Err(e)
          case Ok(v) => Ok(prev[names[n] := v])
  }

  /** Each free parameter's value is the codec of its index. */
  predicate ParamsMatch(names: seq<Param>, idxs: Config, params: Params)
  {
    forall p :: p in names ==> p in idxs && p in params && params[p] == MonteValue(p, idxs[p])
  }

  /** Coding succeeds exactly for granularity 0 with every index present (or no names), and
      then every free parameter has the value of its index and nothing else changes. */
  lemma {:induction false} CodedMatches(names: seq<Param>, g: int, idxs: Config, params: Params)
    ensures Coded(names, g, idxs, params).Ok? <==> names == [] || (g == 0 && HasAll(idxs, names))
    ensures Coded(names, g, idxs, params).Ok? ==>
              var r := Coded(names, g, idxs, params).value;
              && ParamsMatch(names, idxs, r)
              && (forall p :: p !in names ==> (p in r <==> p in params) && (p in params ==> r[p] == params[p]))
  {
    if names != [] {
      var n := |names| - 1;
      var init, p := names[..n], names[n];
      CodedMatches(init, g, idxs, params);
      assert names == init + [p];
      assert forall q :: q in names <==> q in init || q == p;
      assert HasAll(idxs, names) <==> HasAll(idxs, init) && p in idxs;
      var c := Coded(names, g, idxs, params);
      if c.Ok? {
        var prev := Coded(init, g, idxs, params).value;
        assert g == 0 && c.value == prev[p := MonteValue(p, idxs[p])];
      }
    }
  }

  /** Two index dicts that agree on the free parameters give the same coding. */
  lemma {:induction false} CodedAgree(names: seq<Param>, g: int, a: Config, b: Config, params: Params)
    requires forall p :: p in names ==> (p in a <==> p in b) && (p in a ==> a[p] == b[p])
    ensures Coded(names, g, a, params) == Coded(names, g, b, params)
  {
    if names != [] {
      var n := |names| - 1;
      forall p | p in names[..n] ensures p in names {
      }
      CodedAgree(names[..n], g, a, b, params);
    }
  }

  /** What the set-up hands to the loop. */
  datatype MonteStart = MonteStart(run: MonteRun, job: MonteJob, indexes: Config, parameters: Params)

  /** The starting indexes: random draws, or the row with id `first_id` (TypeError when there
      is none, KeyError when it lacks a free parameter). Row ids count from 1. */
  function StartIndexes(names: seq<Param>, fixed: Config, firstId: Option<int>, init: seq<int>, rows: seq<MonteRow>): (r: Result<Config>)
    requires |init| == |names|
    ensures r.Err? <==> firstId.Some? && names != [] &&
                        (!(1 <= firstId.value <= |rows|) || !HasAll(rows[firstId.value - 1].key, names))
    ensures r.Err? ==> r.error == (if 1 <= firstId.value <= |rows| then KeyError else TypeError)
    ensures r.Ok? && firstId.Some? ==>
              forall p :: p in names ==> p in r.value && r.value[p] == rows[firstId.value - 1].key[p]
    ensures r.Ok? && firstId.None? && Distinct(names) ==>
              forall k :: 0 <= k < |names| ==> names[k] in r.value && r.value[names[k]] == init[k] + 1
    ensures r.Ok? && (firstId.Some? || Distinct(names)) ==>
              forall p :: p !in names ==> (p in r.value <==> p in fixed) && (p in fixed ==> r.value[p] == fixed[p])
  {
    match firstId
    case None =>
      if Distinct(names) then RedrawSets(names, init, fixed); Ok(Redraw(names, init, fixed))
      else Ok(Redraw(names, init, fixed))
    case Some(id) =>
      if names == [] then Ok(fixed)
      else if !(1 <= id <= |rows|) then Err(TypeError)
      else CopiedTakesRow(names, rows[id - 1].key, fixed); Copied(names, rows[id - 1].key, fixed)
  }

  /** Lines 83-159 in order: the protocol's constants (ValueError), the fixed thresholds of a
      split grid, the grid (NotImplementedError), the starting indexes, their values. */
  function MonteSetup(prot: Protocol, veto: bool, g: int, split: bool, jid: int, firstId: Option<int>,
                      init: seq<int>, rows: seq<MonteRow>, sim: Simulator): Result<MonteStart>
    requires |init| == |MonteNames(split, veto)|
  {
    match MonteScoring(prot)
    case Err(e) => Err(e)
    case Ok(sc) =>
      var names := MonteNames(split, veto);
      match FixedParams(split, jid, g)
      case Err(e) => Err(e)
      case Ok(fixedParams) =>
        match MonteGrid(g, veto)
        case Err(e) => Err(e)
        case Ok(grid) =>
          match StartIndexes(names, FixedIndexes(split, jid), firstId, init, rows)
          case Err(e) => Err(e)
          case Ok(idxs) =>
            match Coded(names, g, idxs, fixedParams)
            case Err(e) => Err(e)
            case Ok(params) =>
              Ok(MonteStart(MonteRun(names, grid, veto, g, 3 * |names|), MonteJob(sc, prot, sim), idxs, params))
  }

  /** The state before the first iteration: `current_score = sys.maxsize`, `waiting = 0`. The
      new dicts are unbound in Python until the first iteration, which always makes them
      (patience is at least 15); the model starts them as copies. */
  function Start(s: MonteStart, rows: seq<MonteRow>): MonteState
  {
    MonteState(s.indexes, s.parameters, s.indexes, s.parameters, false, MaxSize, 0, rows, None)
  }

  /** Every granularity but 0 stops the script during set-up, and so does a protocol other
      than Letzkus and Brandalise; with granularity 0 and random starting indexes a run starts
      with patience 3 per free parameter, the fixed thresholds of a split job, and a state
      that satisfies `MonteInvariant`. */
  lemma SetupFacts(prot: Protocol, veto: bool, g: int, split: bool, jid: int, init: seq<int>,
                   rows: seq<MonteRow>, sim: Simulator)
    requires |init| == |MonteNames(split, veto)|
    ensures g != 0 ==> MonteSetup(prot, veto, g, split, jid, None, init, rows, sim).Err?
    ensures MonteScoring(prot).Err? ==> MonteSetup(prot, veto, g, split, jid, None, init, rows, sim) == Err(ValueError)
    ensures g == 0 && MonteScoring(prot).Ok? && DrawsOnGrid(MonteNames(split, veto), MonteGrid(0, veto).value, init) ==>
              var s := MonteSetup(prot, veto, g, split, jid, None, init, rows, sim);
              && s.Ok?
              && s.value.run == MonteRun(MonteNames(split, veto), MonteGrid(0, veto).value, veto, 0, 3 * |MonteNames(split, veto)|)
              && (split ==> ThetaHigh in s.value.indexes && ThetaLow in s.value.indexes
                            && s.value.indexes[ThetaHigh] == jid / 9 && s.value.indexes[ThetaLow] == jid % 9)
              && MonteInvariant(s.value.run, Start(s.value, rows))
  {
    var names := MonteNames(split, veto);
    NamesDistinct(split, veto);
    if g != 0 {
      GranularityRefused(prot, veto, g, split, jid, init, rows, sim);
    }
    if g == 0 && MonteScoring(prot).Ok? && DrawsOnGrid(names, MonteGrid(0, veto).value, init) {
      var grid := MonteGrid(0, veto).value;
      var run := MonteRun(names, grid, veto, 0, 3 * |names|);
      var fixed := FixedIndexes(split, jid);
      var idxs := Redraw(names, init, fixed);
      RedrawOnGrid(run, init, fixed);
      RedrawSets(names, init, fixed);
      var fp := FixedParams(split, jid, 0).value;
      assert HasAll(idxs, names) by {
        forall p | p in names ensures p in idxs {
          var k :| 0 <= k < |names| && names[k] == p;
        }
      }
      CodedMatches(names, 0, idxs, fp);
      MatchedOnGrid(run, idxs, Coded(names, 0, idxs, fp).value);
      assert HasAll(idxs, Columns(veto)) by {
        forall c | c in Columns(veto) ensures c in idxs {
          ColumnCovered(split, veto, c);
        }
      }
      if split {
        SplitNamesFree(veto);
      }
    }
  }

  /** Every column of the table is a free parameter or, with a split grid, a fixed threshold. */
  lemma ColumnCovered(split: bool, veto: bool, c: Param)
    requires c in Columns(veto)
    ensures c in MonteNames(split, veto) || (split && (c == ThetaHigh || c == ThetaLow))
  {
    var names := MonteNames(split, veto);
    if split {
      assert c in {ThetaHigh, ThetaLow} || c == names[0] || c == names[1] || c == names[2] || c == names[3] || c == names[4]
          || (veto && (c == names[5] || c == names[6]));
    } else {
      assert c == names[0] || c == names[1] || c == names[2] || c == names[3] || c == names[4] || c == names[5] || c == names[6]
          || (veto && (c == names[7] || c == names[8]));
    }
  }

  lemma GranularityRefused(prot: Protocol, veto: bool, g: int, split: bool, jid: int, init: seq<int>,
                           rows: seq<MonteRow>, sim: Simulator)
    requires |init| == |MonteNames(split, veto)| && g != 0
    ensures MonteSetup(prot, veto, g, split, jid, None, init, rows, sim).Err?
  {
    var names := MonteNames(split, veto);
    if MonteScoring(prot).Ok? && !split && MonteGrid(g, veto).Ok? {
      var idxs := Redraw(names, init, map[]);
      RedrawSets(names, init, map[]);
      assert HasAll(idxs, names) by {
        forall p | p in names ensures p in idxs {
          var k :| 0 <= k < |names| && names[k] == p;
        }
      }
      CodedMatches(names, g, idxs, map[]);
    }
  }

  // ---------------------------------------------------------------------------------------
  // One iteration (src/montesearch.py:183-310)
  // ---------------------------------------------------------------------------------------

  /** The draws fit the run: a position in `names` and one reset draw per free parameter. */
  predicate Fits(run: MonteRun, d: Draw)
  {
    d.pick < |run.names| && |d.reset| == |run.names|
  }

  /** What the random generator guarantees besides the shape: `uniform(0, 1)` and draws from
      `range(grid_params[p])`. */
  predicate ValidDraw(run: MonteRun, d: Draw)
  {
    && Fits(run, d)
    && 0.0 <= d.u <= 1.0
    && DrawsOnGrid(run.names, run.grid, d.reset)
  }

  /** One draw from `range(grid_params[p])` per free parameter. */
  predicate DrawsOnGrid(names: seq<Param>, grid: map<Param, int>, draws: seq<int>)
  {
    |draws| == |names| && forall k :: 0 <= k < |names| ==> names[k] in grid && 0 <= draws[k] < grid[names[k]]
  }

  /** Every free parameter lies on the grid 1..grid_params[p]. */
  predicate InRange(run: MonteRun, idxs: Config)
  {
    forall p :: p in run.names ==> p in idxs && p in run.grid && 1 <= idxs[p] <= run.grid[p]
  }

  /** The move's index left the grid: the iteration is skipped with `continue`. */
  predicate OffGrid(run: MonteRun, p: Param, v: int, up: bool)
    requires up ==> p in run.grid
  {
    if up then v > run.grid[p] else v < 1
  }

  /** `accept_prob = current_score / new_score`, or 1 when the division raises
      ZeroDivisionError. */
  function AcceptProb(current: real, ns: real): (r: real)
    ensures 0.0 <= current < ns ==> 0.0 <= r < 1.0
    ensures 0.0 < ns <= current ==> r >= 1.0
    ensures ns == 0.0 ==> r == 1.0
  {
    if ns == 0.0 then 1.0 else current / ns
  }

  /** Lines 294-306: a lower score is accepted, any other with probability `AcceptProb`;
      acceptance makes the new dicts the current ones. */
  function Accept(st: MonteState, ns: real, u: real): MonteState
  {
    if ns < st.current || u < AcceptProb(st.current, ns) then
      st.(indexes := st.cand, parameters := st.candParams, aliased := true, current := ns)
    else st
  }

  /** The first row, in id order, whose key matches `idxs` on `cols` (`find_one`). */
  function FirstMatch(rows: seq<MonteRow>, idxs: Config, cols: seq<Param>): (r: Option<nat>)
    ensures r.Some? ==> (r.value < |rows| && Matches(rows[r.value].key, idxs, cols)
                         && forall k :: 0 <= k < r.value ==> !Matches(rows[k].key, idxs, cols))
    ensures r.None? ==> forall k :: 0 <= k < |rows| ==> !Matches(rows[k].key, idxs, cols)
  {
    if rows == [] then None
    else if Matches(rows[0].key, idxs, cols) then Some(0)
    else
      match FirstMatch(rows[1..], idxs, cols)
      case None => None
      case Some(k) => Some(k + 1)
  }

  /** Lines 253-292 then the acceptance, given the candidate's score if simulated: a stored
      configuration is not simulated again and counts as waiting; a new one resets `waiting`,
      is inserted as pending, simulated and scored. */
  function Consider(run: MonteRun, st: MonteState, u: real, s: Result<real>): MonteState
  {
    var cols := Columns(run.veto);
    if !HasAll(st.cand, cols) then st.(failure := Some(KeyError))
    else
      match FirstMatch(st.rows, st.cand, cols)
      case Some(k) => Accept(st.(waiting := st.waiting + 1), st.rows[k].score, u)
      case None =>
        var key := Restrict(st.cand, cols);
        match s
        case Err(e) => st.(rows := st.rows + [MonteRow(key, Sentinel)], waiting := 0, failure := Some(e))
        case Ok(ns) => Accept(st.(rows := st.rows + [MonteRow(key, ns)], waiting := 0), ns, u)
  }

  /** Lines 217-218 as written: the reset gives each new index its draw, but takes the new
      value from `indexes[p]`, which is the old index unless the dicts are shared. */
  function ResetAsWritten(run: MonteRun, st: MonteState, draws: seq<int>): MonteState
    requires |draws| == |run.names|
  {
    var cand := Redraw(run.names, draws, st.cand);
    match Coded(run.names, run.g, if st.aliased then cand else st.indexes, st.candParams)
    case Err(e) => st.(failure := Some(e))
    case Ok(candParams) =>
      var s := st.(cand := cand, candParams := candParams, waiting := 0, current := MaxSize);
      if st.aliased then s.(indexes := cand, parameters := candParams) else s
  }

  /** Lines 211-218 as intended: the reset draws every free parameter afresh and gives it the
      value of its new index. When the dicts are shared, the current ones change with them.
      The loop below runs `ResetAsWritten`; `ResetMatches` is what this one guarantees. */
  function Reset(run: MonteRun, st: MonteState, draws: seq<int>): MonteState
    requires |draws| == |run.names|
  {
    var cand := Redraw(run.names, draws, st.cand);
    match Coded(run.names, run.g, cand, st.candParams)
    case Err(e) => st.(failure := Some(e))
    case Ok(candParams) =>
      var s := st.(cand := cand, candParams := candParams, waiting := 0, current := MaxSize);
      if st.aliased then s.(indexes := cand, parameters := candParams) else s
  }

  /** The state after the move or the reset (lines 183-218), and whether the iteration goes
      on to the lookup: it does not after a wall (`continue`) or an exception. */
  datatype Prepared = Prepared(st: MonteState, go: bool)

  /** A one-step move while `waiting < patience`: copy both dicts, shift the chosen index,
      skip the iteration off the grid, else give the parameter its new value. Otherwise the
      reset as the script writes it. */
  function Prepare(run: MonteRun, st: MonteState, d: Draw): Prepared
    requires Fits(run, d)
  {
    if st.waiting < run.patience then
      var p := run.names[d.pick];
      if p !in st.indexes then Prepared(st.(failure := Some(KeyError)), false)
      else
        var v := if d.up then st.indexes[p] + 1 else st.indexes[p] - 1;
        var moved := st.(cand := st.indexes[p := v], candParams := st.parameters, aliased := false);
        if d.up && p !in run.grid then Prepared(moved.(failure := Some(KeyError)), false)
        else if OffGrid(run, p, v, d.up) then Prepared(moved, false)
        else Prepared(moved.(candParams := st.parameters[p := MonteValue(p, v)]), true)
    else
      var next := ResetAsWritten(run, st, d.reset);
      Prepared(next, next.failure.None?)
  }

  /** One iteration of the loop: the move or reset, then the lookup, the simulation (whose
      outcome `score` gives) and the acceptance. */
  function MonteStep(run: MonteRun, st: MonteState, d: Draw, score: Params -> Result<real>): MonteState
    requires Fits(run, d)
  {
    if st.failure.Some? then st
    else
      var pr := Prepare(run, st, d);
      if pr.go then Consider(run, pr.st, d.u, score(pr.st.candParams)) else pr.st
  }

  /** The loop over a sequence of iterations' draws; an exception ends the run. */
  function Steps(run: MonteRun, st: MonteState, draws: seq<Draw>, score: Params -> Result<real>): MonteState
    requires forall i :: 0 <= i < |draws| ==> Fits(run, draws[i])
  {
    if draws == [] then st
    else
      var n := |draws| - 1;
      MonteStep(run, Steps(run, st, draws[..n], score), draws[n], score)
  }

  // ---------------------------------------------------------------------------------------
  // Properties of an iteration
  // ---------------------------------------------------------------------------------------

  /** The state after accepting the candidate with score `ns`. */
  function Accepted(st: MonteState, ns: real): MonteState
  {
    st.(indexes := st.cand, parameters := st.candParams, aliased := true, current := ns)
  }

  /** The acceptance rule: a lower score is always taken; a score `ns > 0` that is not lower
      is taken exactly when u·ns < current, with a probability current/ns in (0, 1] when the
      current score is positive; a score of 0 is taken for every u < 1; a rejection changes
      nothing. */
  lemma AcceptRule(st: MonteState, ns: real, u: real)
    ensures var w := Accept(st, ns, u);
            && (w == st || w == Accepted(st, ns))
            && (ns < st.current ==> w == Accepted(st, ns))
            && (ns > 0.0 && st.current <= ns && u * ns < st.current ==> w == Accepted(st, ns))
            && (ns > 0.0 && st.current <= ns && u * ns >= st.current ==> w == st)
            && (ns == 0.0 && u < 1.0 ==> w == Accepted(st, ns))
            && (0.0 < st.current <= ns ==> 0.0 < AcceptProb(st.current, ns) <= 1.0)
  {
    if ns > 0.0 && st.current <= ns {
      DivideByPositive(st.current, ns, u);
    }
  }

  lemma DivideByPositive(c: real, n: real, u: real)
    requires n > 0.0 && c <= n
    ensures u < c / n <==> u * n < c
    ensures c > 0.0 ==> 0.0 < c / n <= 1.0
  {
    var q := c / n;
    assert q * n == c;
    if u < q {
      assert u * n < q * n;
    } else {
      assert u * n >= q * n;
    }
  }

  /** The table lookup: a configuration already in the table is not simulated again, its
      first row's score is reused and `waiting` grows by one; a new configuration is inserted
      once, with its score (or pending, if the simulation raised), and `waiting` restarts at
      0. Either way the candidate is kept, and the current state is either kept or replaced by
      the candidate. */
  lemma ConsiderFacts(run: MonteRun, st: MonteState, u: real, s: Result<real>)
    requires st.failure.None? && HasAll(st.cand, Columns(run.veto))
    ensures var w := Consider(run, st, u, s);
            var cols := Columns(run.veto);
            var k := FirstMatch(st.rows, st.cand, cols);
            && w.cand == st.cand && w.candParams == st.candParams
            && (k.Some? ==> && w.rows == st.rows && w.waiting == st.waiting + 1 && w.failure.None?
                            && (w.current == st.current || w.current == st.rows[k.value].score))
            && (k.None? ==> && w.rows == st.rows + [MonteRow(Restrict(st.cand, cols), if s.Ok? then s.value else Sentinel)]
                            && w.waiting == 0 && (w.failure.None? <==> s.Ok?))
            && (w.failure.None? ==>
                  (w.indexes == st.indexes && w.parameters == st.parameters && w.aliased == st.aliased)
                  || (w.indexes == st.cand && w.parameters == st.candParams && w.aliased))
  {
    var cols := Columns(run.veto);
    match FirstMatch(st.rows, st.cand, cols)
    case Some(k) =>
      AcceptRule(st.(waiting := st.waiting + 1), st.rows[k].score, u);
    case None =>
      if s.Ok? {
        AcceptRule(st.(rows := st.rows + [MonteRow(Restrict(st.cand, cols), s.value)], waiting := 0), s.value, u);
      }
  }

  /** A move: the candidate is the current configuration with the chosen parameter one step
      up or down; the iteration goes on exactly when that step stays on the grid, and then
      the candidate's value is the codec of its new index. The current state, the score,
      `waiting` and the table do not change, so a wall ends the iteration with nothing but the
      candidate changed. */
  lemma MoveFacts(run: MonteRun, st: MonteState, d: Draw, score: Params -> Result<real>)
    requires Fits(run, d) && st.failure.None? && st.waiting < run.patience && InRange(run, st.indexes)
    ensures var p := run.names[d.pick];
            var v := if d.up then st.indexes[p] + 1 else st.indexes[p] - 1;
            var pr := Prepare(run, st, d);
            && pr.st.cand == st.indexes[p := v] && pr.st.failure.None? && !pr.st.aliased
            && pr.st.indexes == st.indexes && pr.st.parameters == st.parameters
            && pr.st.current == st.current && pr.st.waiting == st.waiting && pr.st.rows == st.rows
            && (pr.go <==> 1 <= v <= run.grid[p])
            && (pr.go ==> pr.st.candParams == st.parameters[p := MonteValue(p, v)])
            && (!pr.go ==> MonteStep(run, st, d, score) == pr.st)
  {
    assert run.names[d.pick] in run.names;
  }

  /** The reset as written: every free parameter gets its draw plus one and the candidate's
      other entries stay; each value is coded from `indexes[p]`, which is the new index when
      the dicts are shared and the current, old index when they are not; `waiting` is 0 and
      the score is `sys.maxsize`; shared dicts change with the new ones, separate ones stay. A
      granularity other than 0 raises NotImplementedError. */
  lemma ResetFacts(run: MonteRun, st: MonteState, d: Draw)
    requires Fits(run, d) && st.failure.None? && st.waiting >= run.patience && Distinct(run.names)
    ensures var pr := Prepare(run, st, d);
            && (pr.go <==> pr.st.failure.None?)
            && pr.st.rows == st.rows
            && (run.g != 0 && run.names != [] && (st.aliased || HasAll(st.indexes, run.names)) ==>
                  pr.st.failure == Some(NotImplementedError))
            && (pr.go ==>
                  && (forall k :: 0 <= k < |run.names| ==> run.names[k] in pr.st.cand && pr.st.cand[run.names[k]] == d.reset[k] + 1)
                  && (forall p :: p !in run.names ==> (p in pr.st.cand <==> p in st.cand) && (p in st.cand ==> pr.st.cand[p] == st.cand[p]))
                  && ParamsMatch(run.names, if st.aliased then pr.st.cand else st.indexes, pr.st.candParams)
                  && pr.st.waiting == 0 && pr.st.current == MaxSize && pr.st.aliased == st.aliased
                  && (st.aliased ==> pr.st.indexes == pr.st.cand && pr.st.parameters == pr.st.candParams)
                  && (!st.aliased ==> pr.st.indexes == st.indexes && pr.st.parameters == st.parameters))
  {
    RedrawSets(run.names, d.reset, st.cand);
    var cand := Redraw(run.names, d.reset, st.cand);
    var src := if st.aliased then cand else st.indexes;
    CodedMatches(run.names, run.g, src, st.candParams);
    if run.g != 0 && run.names != [] && (st.aliased || HasAll(st.indexes, run.names)) {
      assert HasAll(src, run.names) by {
        if st.aliased {
          forall p | p in run.names ensures p in cand {
            var k :| 0 <= k < |run.names| && run.names[k] == p;
          }
        }
      }
      CodedFailsOnGranularity(run.names, run.g, src, st.candParams);
    }
  }

  /** The reset as intended: under granularity 0 it always succeeds, every free parameter gets
      its draw plus one and the value of that new index, whether or not the dicts are shared;
      draws from `range(grid_params[p])` put the candidate on the grid. */
  lemma ResetMatches(run: MonteRun, st: MonteState, draws: seq<int>)
    requires |draws| == |run.names| && Distinct(run.names) && st.failure.None?
    ensures var r := Reset(run, st, draws);
            && (r.failure.None? <==> run.g == 0 || run.names == [])
            && (r.failure.None? ==>
                  && (forall k :: 0 <= k < |run.names| ==> run.names[k] in r.cand && r.cand[run.names[k]] == draws[k] + 1)
                  && ParamsMatch(run.names, r.cand, r.candParams)
                  && r.waiting == 0 && r.current == MaxSize
                  && (DrawsOnGrid(run.names, run.grid, draws) ==> InRange(run, r.cand)))
  {
    RedrawSets(run.names, draws, st.cand);
    var cand := Redraw(run.names, draws, st.cand);
    assert HasAll(cand, run.names) by {
      forall p | p in run.names ensures p in cand {
        var k :| 0 <= k < |run.names| && run.names[k] == p;
      }
    }
    CodedMatches(run.names, run.g, cand, st.candParams);
    if DrawsOnGrid(run.names, run.grid, draws) {
      RedrawOnGrid(run, draws, st.cand);
    }
  }

  /** With the free parameters all present, the first failure of `Coded` under a non-zero
      granularity is NotImplementedError. */
  lemma {:induction false} CodedFailsOnGranularity(names: seq<Param>, g: int, idxs: Config, params: Params)
    requires g != 0 && names != [] && HasAll(idxs, names)
    ensures Coded(names, g, idxs, params) == Err(NotImplementedError)
  {
    var n := |names| - 1;
    if n > 0 {
      forall p | p in names[..n] ensures p in names {
      }
      CodedFailsOnGranularity(names[..n], g, idxs, params);
    } else {
      assert names[..n] == [];
    }
  }

  /** Row keys are pairwise different on the table's columns: no configuration is stored
      twice. */
  predicate UniqueKeys(rows: seq<MonteRow>, cols: seq<Param>)
  {
    forall i, j :: 0 <= i < |rows| && 0 <= j < |rows| && i != j ==> !Matches(rows[i].key, rows[j].key, cols)
  }

  /** A single search never stores the same configuration twice: inserting only on a miss
      keeps the keys unique. */
  lemma StepKeepsKeysUnique(run: MonteRun, st: MonteState, d: Draw, score: Params -> Result<real>)
    requires Fits(run, d)
    requires UniqueKeys(st.rows, Columns(run.veto))
    ensures UniqueKeys(MonteStep(run, st, d, score).rows, Columns(run.veto))
  {
    var cols := Columns(run.veto);
    if st.failure.None? {
      var pr := Prepare(run, st, d);
      assert pr.st.rows == st.rows;
      if pr.go {
        var next := pr.st;
        if HasAll(next.cand, cols) {
          var s := score(next.candParams);
          ConsiderFacts(run, next, d.u, s);
          if FirstMatch(next.rows, next.cand, cols).None? {
            InsertKeepsKeysUnique(next.rows, next.cand, cols, if s.Ok? then s.value else Sentinel);
          }
        }
      }
    }
  }

  lemma InsertKeepsKeysUnique(rows: seq<MonteRow>, cand: Config, cols: seq<Param>, score: real)
    requires UniqueKeys(rows, cols) && HasAll(cand, cols)
    requires forall k :: 0 <= k < |rows| ==> !Matches(rows[k].key, cand, cols)
    ensures UniqueKeys(rows + [MonteRow(Restrict(cand, cols), score)], cols)
  {
    var key := Restrict(cand, cols);
    var rows' := rows + [MonteRow(key, score)];
    forall i, j | 0 <= i < |rows'| && 0 <= j < |rows'| && i != j
      ensures !Matches(rows'[i].key, rows'[j].key, cols)
    {
      if i == |rows| {
        assert rows'[j] == rows[j];
        if Matches(key, rows[j].key, cols) {
          assert Matches(rows[j].key, cand, cols);
        }
      } else if j == |rows| {
        assert rows'[i] == rows[i];
        if Matches(rows[i].key, key, cols) {
          assert Matches(rows[i].key, cand, cols);
        }
      } else {
        assert rows'[i] == rows[i] && rows'[j] == rows[j];
      }
    }
  }

  /** Every free parameter's value is the codec of some index on its grid. */
  predicate ValuesOnGrid(run: MonteRun, params: Params)
  {
    forall p :: p in run.names ==>
      p in params && p in run.grid && exists j :: 1 <= j <= run.grid[p] && params[p] == MonteValue(p, j)
  }

  /** What every state of a run keeps, as the script is written: each current free index lies
      on the grid, every value the loop holds is the codec of an index on the grid (so the
      simulator only ever sees grid values), both index dicts have every column the lookup
      reads, and shared dicts hold the same entries. */
  predicate LoopInvariant(run: MonteRun, st: MonteState)
  {
    && InRange(run, st.indexes)
    && ValuesOnGrid(run, st.parameters) && ValuesOnGrid(run, st.candParams)
    && HasAll(st.indexes, Columns(run.veto)) && HasAll(st.cand, Columns(run.veto))
    && (st.aliased ==> st.cand == st.indexes && st.candParams == st.parameters)
  }

  /** What the design asks of every state besides: each current value is the codec of its own
      current index. */
  predicate MonteInvariant(run: MonteRun, st: MonteState)
  {
    LoopInvariant(run, st) && ParamsMatch(run.names, st.indexes, st.parameters)
  }

  /** An iteration that starts in this state resets separate dicts, the case in which line 217
      codes the old indexes. */
  predicate StaleReset(run: MonteRun, st: MonteState)
  {
    st.waiting >= run.patience && !st.aliased
  }

  /** Values coded from indexes on the grid are grid values. */
  lemma MatchedOnGrid(run: MonteRun, idxs: Config, params: Params)
    requires InRange(run, idxs) && ParamsMatch(run.names, idxs, params)
    ensures ValuesOnGrid(run, params)
  {
    forall p | p in run.names
      ensures p in params && p in run.grid && exists j :: 1 <= j <= run.grid[p] && params[p] == MonteValue(p, j)
    {
      assert 1 <= idxs[p] <= run.grid[p] && params[p] == MonteValue(p, idxs[p]);
    }
  }

  /** Under granularity 0 the move or reset keeps `LoopInvariant`, and a candidate that goes on
      to the lookup lies on the grid. When the current values match their indexes they still
      do, and the candidate's values are those of its own indexes, except after a reset of
      separate dicts, where they are those of the current indexes. */
  lemma PrepareKeepsInvariant(run: MonteRun, st: MonteState, d: Draw)
    requires ValidDraw(run, d) && Distinct(run.names) && run.g == 0
    requires st.failure.None? && LoopInvariant(run, st)
    ensures var pr := Prepare(run, st, d);
            && pr.st.rows == st.rows
            && (pr.st.failure.None? ==> LoopInvariant(run, pr.st))
            && (pr.st.failure.None? && MonteInvariant(run, st) ==> MonteInvariant(run, pr.st))
            && (pr.go ==> && pr.st.failure.None? && InRange(run, pr.st.cand) && HasAll(pr.st.cand, Columns(run.veto)))
            && (pr.go && MonteInvariant(run, st) ==>
                  ParamsMatch(run.names, if StaleReset(run, st) then st.indexes else pr.st.cand, pr.st.candParams))
  {
    var cols := Columns(run.veto);
    var pr := Prepare(run, st, d);
    if st.waiting < run.patience {
      MoveFacts(run, st, d, (params: Params) => Err(KeyError));
      var p := run.names[d.pick];
      if pr.go {
        var v := pr.st.cand[p];
        assert ValuesOnGrid(run, pr.st.candParams) by {
          forall q | q in run.names
            ensures q in pr.st.candParams && q in run.grid
                    && exists j :: 1 <= j <= run.grid[q] && pr.st.candParams[q] == MonteValue(q, j)
          {
            if q == p {
              assert 1 <= v <= run.grid[q] && pr.st.candParams[q] == MonteValue(q, v);
            }
          }
        }
        assert InRange(run, pr.st.cand);
      }
    } else {
      ResetFacts(run, st, d);
      if pr.go {
        assert InRange(run, pr.st.cand) by {
          forall p | p in run.names ensures p in pr.st.cand && p in run.grid && 1 <= pr.st.cand[p] <= run.grid[p] {
            var k :| 0 <= k < |run.names| && run.names[k] == p;
          }
        }
        assert HasAll(pr.st.cand, cols) by {
          forall c | c in cols ensures c in pr.st.cand {
            if c !in run.names {
              assert c in st.cand;
            }
          }
        }
        if st.aliased {
          MatchedOnGrid(run, pr.st.cand, pr.st.candParams);
        } else {
          MatchedOnGrid(run, st.indexes, pr.st.candParams);
        }
      }
    }
  }

  /** Under granularity 0 an iteration keeps `LoopInvariant`, and a row it inserts is keyed by
      the candidate's indexes and holds the score of the candidate's values. Those values are
      the codec of the candidate's own indexes when the current values matched theirs and the
      iteration was no reset of separate dicts; after such a reset they are the codec of the
      old current indexes, so the row stores a score under another configuration. Matching
      current values stay matched, except when that reset's candidate is accepted. */
  lemma StepKeepsInvariant(run: MonteRun, st: MonteState, d: Draw, score: Params -> Result<real>)
    requires ValidDraw(run, d) && Distinct(run.names) && run.g == 0
    requires st.failure.None? && LoopInvariant(run, st)
    ensures var w := MonteStep(run, st, d, score);
            var cols := Columns(run.veto);
            && (w.failure.None? ==> LoopInvariant(run, w))
            && (w.failure.None? && MonteInvariant(run, st) && !StaleReset(run, st) ==> MonteInvariant(run, w))
            && (|w.rows| != |st.rows| ==>
                  && |w.rows| == |st.rows| + 1 && HasAll(w.cand, cols)
                  && w.rows == st.rows + [MonteRow(Restrict(w.cand, cols), w.rows[|st.rows|].score)]
                  && (w.failure.None? ==> score(w.candParams) == Ok(w.rows[|st.rows|].score))
                  && (MonteInvariant(run, st) ==>
                        ParamsMatch(run.names, if StaleReset(run, st) then st.indexes else w.cand, w.candParams)))
  {
    PrepareKeepsInvariant(run, st, d);
    var pr := Prepare(run, st, d);
    if pr.go {
      var s := score(pr.st.candParams);
      var w := Consider(run, pr.st, d.u, s);
      assert MonteStep(run, st, d, score) == w;
      ConsiderFacts(run, pr.st, d.u, s);
      ConsiderKeepsInvariant(run, pr.st, d.u, s);
    } else {
      assert MonteStep(run, st, d, score) == pr.st;
    }
  }

  /** The lookup and the acceptance keep `LoopInvariant` for a candidate on the grid, and
      keep matching values matched when the candidate's values match its indexes. */
  lemma ConsiderKeepsInvariant(run: MonteRun, st: MonteState, u: real, s: Result<real>)
    requires st.failure.None? && LoopInvariant(run, st) && InRange(run, st.cand)
    ensures var w := Consider(run, st, u, s);
            && (w.failure.None? ==> LoopInvariant(run, w))
            && (w.failure.None? && MonteInvariant(run, st) && ParamsMatch(run.names, st.cand, st.candParams) ==>
                  MonteInvariant(run, w))
  {
    ConsiderFacts(run, st, u, s);
  }

  /** No iteration of the run resets separate dicts. */
  predicate NoStaleReset(run: MonteRun, st: MonteState, draws: seq<Draw>, score: Params -> Result<real>)
    requires forall i :: 0 <= i < |draws| ==> Fits(run, draws[i])
  {
    draws == [] ||
    var n := |draws| - 1;
    NoStaleReset(run, st, draws[..n], score) && !StaleReset(run, Steps(run, st, draws[..n], score))
  }

  /** Every state a run of granularity 0 reaches keeps `LoopInvariant` and the table's keys
      stay unique; the current values keep matching their indexes as long as no iteration
      resets separate dicts. */
  lemma {:induction false} StepsKeepInvariant(run: MonteRun, st: MonteState, draws: seq<Draw>, score: Params -> Result<real>)
    requires forall i :: 0 <= i < |draws| ==> Fits(run, draws[i]) && ValidDraw(run, draws[i])
    requires Distinct(run.names) && run.g == 0
    requires st.failure.None? && LoopInvariant(run, st) && UniqueKeys(st.rows, Columns(run.veto))
    ensures var w := Steps(run, st, draws, score);
            && UniqueKeys(w.rows, Columns(run.veto))
            && (w.failure.None? ==> LoopInvariant(run, w))
            && (w.failure.None? && MonteInvariant(run, st) && NoStaleReset(run, st, draws, score) ==> MonteInvariant(run, w))
  {
    if draws != [] {
      var n := |draws| - 1;
      StepsKeepInvariant(run, st, draws[..n], score);
      var prev := Steps(run, st, draws[..n], score);
      StepKeepsKeysUnique(run, prev, draws[n], score);
      if prev.failure.None? {
        StepKeepsInvariant(run, prev, draws[n], score);
      }
    }
  }

  /** The reset as written stores scores under the wrong configuration: with separate dicts,
      an index moved from 5 to 1 keeps the value of index 5, while the corrected reset gives
      the value of index 1. With shared dicts the two agree. */
  lemma ResetAsWrittenKeepsStaleValues()
    ensures var run := MonteRun([ALTP], map[ALTP := 8], false, 0, 3);
            var st := MonteState(map[ALTP := 5], map[ALTP := MonteValue(ALTP, 5)], map[ALTP := 5],
                                 map[ALTP := MonteValue(ALTP, 5)], false, 1.0, 3, [], None);
            && InRange(run, st.indexes) && ParamsMatch(run.names, st.indexes, st.parameters)
            && ResetAsWritten(run, st, [0]).cand[ALTP] == 1
            && ResetAsWritten(run, st, [0]).candParams[ALTP] == MonteValue(ALTP, 5)
            && MonteValue(ALTP, 5) != MonteValue(ALTP, 1)
            && !ParamsMatch(run.names, ResetAsWritten(run, st, [0]).cand, ResetAsWritten(run, st, [0]).candParams)
            && ParamsMatch(run.names, Reset(run, st, [0]).cand, Reset(run, st, [0]).candParams)
  {
  }

  /** Once an iteration raises, the rest of the draws change nothing. */
  lemma {:induction false} StepsStopAtFailure(run: MonteRun, st: MonteState, draws: seq<Draw>, k: nat, score: Params -> Result<real>)
    requires k <= |draws| && forall i :: 0 <= i < |draws| ==> Fits(run, draws[i])
    requires Steps(run, st, draws[..k], score).failure.Some?
    ensures Steps(run, st, draws, score) == Steps(run, st, draws[..k], score)
  {
    if k < |draws| {
      var n := |draws| - 1;
      assert draws[..n][..k] == draws[..k];
      StepsStopAtFailure(run, st, draws[..n], k, score);
    } else {
      assert draws[..k] == draws;
    }
  }

  /** An error of a prefix of `Coded` is the error of the whole. */
  lemma {:induction false} CodedPrefixFails(names: seq<Param>, k: nat, g: int, idxs: Config, params: Params)
    requires k <= |names| && Coded(names[..k], g, idxs, params).Err?
    ensures Coded(names, g, idxs, params) == Coded(names[..k], g, idxs, params)
  {
    if k < |names| {
      var n := |names| - 1;
      assert names[..n][..k] == names[..k];
      CodedPrefixFails(names[..n], k, g, idxs, params);
    } else {
      assert names[..k] == names;
    }
  }

  /** An error of a prefix of `Copied` is the error of the whole. */
  lemma {:induction false} CopiedPrefixFails(names: seq<Param>, k: nat, key: Config, idxs: Config)
    requires k <= |names| && Copied(names[..k], key, idxs).Err?
    ensures Copied(names, key, idxs) == Copied(names[..k], key, idxs)
  {
    if k < |names| {
      var n := |names| - 1;
      assert names[..n][..k] == names[..k];
      CopiedPrefixFails(names[..n], k, key, idxs);
    } else {
      assert names[..k] == names;
    }
  }

  // ---------------------------------------------------------------------------------------
  // The script's state and loop
  // ---------------------------------------------------------------------------------------

  /** A Python dict of the loop, updated in place; two variables may name the same one. */
  class Dict<V> {
    var m: map<Param, V>

    constructor(m0: map<Param, V>)
      ensures m == m0
    {
      m := m0;
    }

    /** `d[p] = v`. */
    method Set(p: Param, v: V)
      modifies this
      ensures m == old(m)[p := v]
    {
      m := m[p := v];
    }
  }

  /** The job's results table. */
  class MonteTable {
    var rows: seq<MonteRow>

    /** `insert(row)`: appends the row and returns its id, its position counted from 1. */
    method Insert(row: MonteRow) returns (id: nat)
      modifies this
      ensures rows == old(rows) + [row] && id == |rows|
    {
      rows := rows + [row];
      id := |rows|;
    }

    /** `update(dict(id=id, score=score), ['id'])`: the row with that id gets the score. */
    method Update(id: nat, score: real)
      requires 1 <= id <= |rows|
      modifies this
      ensures rows == old(rows)[id - 1 := MonteRow(old(rows)[id - 1].key, score)]
    {
      rows := rows[id - 1 := MonteRow(rows[id - 1].key, score)];
    }
  }

  /** Lines 263-286: simulate every trace with `params` and score them. */
  method ScoreParams(job: MonteJob, params: Params) returns (r: Result<real>)
    ensures r == MonteScore(job, params)
  {
    var p := SimulateTraces(job.sim, job.prot, job.sc.nrtraces, params);
    SimulateTracesIsTraces(job.sim, job.prot, job.sc.nrtraces, params, p);
    var s := Evaluate(job.sc, p);
    if s.Err? {
      return Err(s.error);
    }
    return Ok(s.value.li);
  }

  /** Lines 144-146: draw each free parameter's starting index. */
  method DrawIndexes(names: seq<Param>, draws: seq<int>, indexes: Dict<int>)
    requires |draws| == |names|
    modifies indexes
    ensures indexes.m == Redraw(names, draws, old(indexes.m))
  {
    for k := 0 to |names|
      invariant indexes.m == Redraw(names[..k], draws[..k], old(indexes.m))
    {
      assert names[..k + 1][..k] == names[..k] && draws[..k + 1][..k] == draws[..k];
      indexes.Set(names[k], draws[k] + 1);
    }
    assert names[..|names|] == names && draws[..|draws|] == draws;
  }

  /** Lines 151-152: copy each free parameter's starting index from a stored row. */
  method CopyIndexes(names: seq<Param>, key: Config, indexes: Dict<int>) returns (err: Option<Error>)
    modifies indexes
    ensures Copied(names, key, old(indexes.m)) == if err.None? then Ok(indexes.m) else Err(err.value)
  {
    for k := 0 to |names|
      invariant Copied(names[..k], key, old(indexes.m)) == Ok(indexes.m)
    {
      assert names[..k + 1][..k] == names[..k];
      if names[k] !in key {
        CopiedPrefixFails(names, k + 1, key, old(indexes.m));
        return Some(KeyError);
      }
      indexes.Set(names[k], key[names[k]]);
    }
    assert names[..|names|] == names;
    return None;
  }

  /** Lines 158-159: give each free parameter the value of its index. */
  method CodeValues(names: seq<Param>, g: int, idxs: Config, parameters: Dict<Value>) returns (err: Option<Error>)
    modifies parameters
    ensures Coded(names, g, idxs, old(parameters.m)) == if err.None? then Ok(parameters.m) else Err(err.value)
  {
    for k := 0 to |names|
      invariant Coded(names[..k], g, idxs, old(parameters.m)) == Ok(parameters.m)
    {
      assert names[..k + 1][..k] == names[..k];
      if names[k] !in idxs {
        CodedPrefixFails(names, k + 1, g, idxs, old(parameters.m));
        return Some(KeyError);
      }
      var v := MonteCodec(names[k], idxs[names[k]] as real, g);
      if v.Err? {
        CodedPrefixFails(names, k + 1, g, idxs, old(parameters.m));
        return Some(v.error);
      }
      parameters.Set(names[k], v.value);
    }
    assert names[..|names|] == names;
    return None;
  }

  /** The variables of the Monte-Carlo loop of `main` (lines 167-310): the current and the new
      index and value dicts, the current score and `waiting`, with the run's constants and its
      table. */
  class MonteLoop {
    const run: MonteRun
    const job: MonteJob
    const table: MonteTable
    var indexes: Dict<int>
    var parameters: Dict<Value>
    var newIndexes: Dict<int>
    var newParameters: Dict<Value>
    var current: real
    var waiting: nat

    /** The index dicts are shared exactly when the value dicts are. */
    predicate Valid()
      reads this
    {
      (indexes == newIndexes) == (parameters == newParameters) && Distinct(run.names)
    }

    /** The loop's variables as a value. */
    function State(): MonteState
      reads this, indexes, parameters, newIndexes, newParameters, table
    {
      MonteState(indexes.m, parameters.m, newIndexes.m, newParameters.m, indexes == newIndexes,
                 current, waiting, table.rows, None)
    }

    /** Lines 167-170, with the dicts the set-up filled. */
    constructor(run: MonteRun, job: MonteJob, table: MonteTable, indexes: Dict<int>, parameters: Dict<Value>)
      requires Distinct(run.names)
      ensures this.run == run && this.job == job && this.table == table
      ensures this.indexes == indexes && this.parameters == parameters
      ensures fresh(newIndexes) && fresh(newParameters)
      ensures Valid() && State() == MonteState(indexes.m, parameters.m, indexes.m, parameters.m, false, MaxSize, 0, table.rows, None)
    {
      this.run := run;
      this.job := job;
      this.table := table;
      this.indexes := indexes;
      this.parameters := parameters;
      newIndexes := new Dict(indexes.m);
      newParameters := new Dict(parameters.m);
      current := MaxSize;
      waiting := 0;
    }

    /** Lines 216-217: each free parameter's new index is its draw plus one, and its new value
        is coded from `indexes[p]`, which is that new index only when the dicts are shared. */
    method ResetCandidate(draws: seq<int>) returns (err: Option<Error>)
      requires Valid() && |draws| == |run.names|
      modifies newIndexes, newParameters
      ensures var cand := Redraw(run.names, draws, old(newIndexes.m));
              var coded := Coded(run.names, run.g, if old(indexes == newIndexes) then cand else old(indexes.m), old(newParameters.m));
              && (err.None? <==> coded.Ok?)
              && (coded.Err? ==> err == Some(coded.error))
              && (coded.Ok? ==> newIndexes.m == cand && newParameters.m == coded.value)
    {
      var names := run.names;
      ghost var c0, p0, i0 := newIndexes.m, newParameters.m, indexes.m;
      ghost var shared := indexes == newIndexes;
      for k := 0 to |names|
        invariant newIndexes.m == Redraw(names[..k], draws[..k], c0)
        invariant !shared ==> indexes.m == i0
        invariant shared ==> indexes == newIndexes
        invariant Coded(names[..k], run.g, if shared then newIndexes.m else i0, p0) == Ok(newParameters.m)
      {
        assert names[..k + 1][..k] == names[..k] && draws[..k + 1][..k] == draws[..k];
        var p := names[k];
        ghost var before := newIndexes.m;
        newIndexes.Set(p, draws[k] + 1);
        if shared {
          forall q | q in names[..k] ensures q != p {
            var j :| 0 <= j < k && names[j] == q;
          }
          CodedAgree(names[..k], run.g, before, newIndexes.m, p0);
        }
        if p !in indexes.m {
          assert !shared;
          CodedPrefixFails(names, k + 1, run.g, i0, p0);
          return Some(KeyError);
        }
        var v := MonteCodec(p, indexes.m[p] as real, run.g);
        if v.Err? {
          if shared {
            ResetFails(names, draws, k, run.g, c0, p0);
          } else {
            CodedPrefixFails(names, k + 1, run.g, i0, p0);
          }
          return Some(v.error);
        }
        newParameters.Set(p, v.value);
      }
      assert names[..|names|] == names && draws[..|draws|] == draws;
      return None;
    }

    /** Lines 249-292: look the candidate up; on a miss insert it as pending, simulate it and
        store its score. `ns` is the candidate's score, stored or new. */
    method Lookup() returns (ns: real, err: Option<Error>)
      modifies this`waiting, table
      ensures var cols := Columns(run.veto);
              var st := old(State());
              && (!HasAll(st.cand, cols) ==> err == Some(KeyError) && table.rows == st.rows)
              && (HasAll(st.cand, cols) ==>
                    var k := FirstMatch(st.rows, st.cand, cols);
                    var key := Restrict(st.cand, cols);
                    var s := MonteScore(job, st.candParams);
                    && (k.Some? ==> err.None? && table.rows == st.rows && waiting == st.waiting + 1 && ns == st.rows[k.value].score)
                    && (k.None? && s.Err? ==> err == Some(s.error) && table.rows == st.rows + [MonteRow(key, Sentinel)])
                    && (k.None? && s.Ok? ==> err.None? && table.rows == st.rows + [MonteRow(key, s.value)] && waiting == 0 && ns == s.value))
    {
      var cols := Columns(run.veto);
      ns := 0.0;
      if !HasAll(newIndexes.m, cols) {
        return ns, Some(KeyError);
      }
      var k := FirstMatch(table.rows, newIndexes.m, cols);
      if k.None? {
        waiting := 0;
        var key := Restrict(newIndexes.m, cols);
        var id := table.Insert(MonteRow(key, Sentinel));
        var s := ScoreParams(job, newParameters.m);
        if s.Err? {
          return ns, Some(s.error);
        }
        table.Update(id, s.value);
        ns := s.value;
      } else {
        waiting := waiting + 1;
        ns := table.rows[k.value].score;
      }
      return ns, None;
    }

    /** Lines 294-306: accept the candidate with score `ns`, given the uniform draw `u`. */
    method AcceptCandidate(ns: real, u: real)
      requires Valid()
      modifies this`indexes, this`parameters, this`current
      ensures Valid()
      ensures (indexes == old(indexes) && parameters == old(parameters)) || (indexes == newIndexes && parameters == newParameters)
      ensures State() == Accept(old(State()), ns, u)
    {
      if ns < current {
        parameters := newParameters;
        indexes := newIndexes;
        current := ns;
      } else {
        var prob := if ns == 0.0 then 1.0 else current / ns;
        if u < prob {
          parameters := newParameters;
          indexes := newIndexes;
          current := ns;
        }
      }
    }

    /** Lines 249-306: the lookup, the simulation on a miss and the acceptance, with
        `new_indexes` and `new_parameters` as the candidate. */
    method ConsiderCandidate(u: real) returns (err: Option<Error>)
      requires Valid()
      modifies this, table
      ensures Valid() && newIndexes == old(newIndexes) && newParameters == old(newParameters)
      ensures (indexes == old(indexes) && parameters == old(parameters)) || (indexes == newIndexes && parameters == newParameters)
      ensures var w := Consider(run, old(State()), u, MonteScore(job, old(newParameters.m)));
              err == w.failure && table.rows == w.rows && (err.None? ==> State() == w)
    {
      var ns;
      ns, err := Lookup();
      if err.None? {
        AcceptCandidate(ns, u);
      }
    }

    /** Lines 186-208: copy both dicts and move the chosen parameter one step; `go` is false
        when the step leaves the grid (`continue`) or raises. */
    method Move(d: Draw) returns (go: bool, err: Option<Error>)
      requires Valid() && Fits(run, d) && waiting < run.patience
      modifies this`newIndexes, this`newParameters
      ensures Valid() && fresh(newIndexes) && fresh(newParameters)
      ensures var pr := Prepare(run, old(State()), d);
              go == pr.go && err == pr.st.failure && (err.None? ==> State() == pr.st)
    {
      newParameters := new Dict(parameters.m);
      newIndexes := new Dict(indexes.m);
      var p := run.names[d.pick];
      if p !in newIndexes.m {
        return false, Some(KeyError);
      }
      if d.up {
        newIndexes.Set(p, newIndexes.m[p] + 1);
        if p !in run.grid {
          return false, Some(KeyError);
        }
        if newIndexes.m[p] > run.grid[p] {
          return false, None;
        }
      } else {
        newIndexes.Set(p, newIndexes.m[p] - 1);
        if newIndexes.m[p] < 1 {
          return false, None;
        }
      }
      var value := MonteCodec(p, newIndexes.m[p] as real, 0);
      newParameters.Set(p, value.value);
      return true, None;
    }

    /** Lines 210-220: the random reset, as written. */
    method RandomReset(d: Draw) returns (go: bool, err: Option<Error>)
      requires Valid() && Fits(run, d) && waiting >= run.patience
      modifies this`waiting, this`current, newIndexes, newParameters
      ensures Valid()
      ensures var pr := Prepare(run, old(State()), d);
              go == pr.go && err == pr.st.failure && (err.None? ==> State() == pr.st)
    {
      waiting := 0;
      current := MaxSize;
      err := ResetCandidate(d.reset);
      go := err.None?;
    }

    /** One iteration of the loop (lines 183-310). */
    method Iterate(d: Draw) returns (err: Option<Error>)
      requires Valid() && Fits(run, d)
      modifies this, indexes, parameters, newIndexes, newParameters, table
      ensures Valid()
      ensures fresh(newIndexes) || newIndexes == old(newIndexes)
      ensures fresh(newParameters) || newParameters == old(newParameters)
      ensures fresh(indexes) || indexes == old(indexes) || indexes == old(newIndexes)
      ensures fresh(parameters) || parameters == old(parameters) || parameters == old(newParameters)
      ensures var w := MonteStep(run, old(State()), d, Scorer(job));
              err == w.failure && table.rows == w.rows && (err.None? ==> State() == w)
    {
      var go;
      if waiting < run.patience {
        go, err := Move(d);
      } else {
        go, err := RandomReset(d);
      }
      if go {
        err := ConsiderCandidate(d.u);
      }
    }
  }

  /** A codec error at position k of a reset is the error of the whole reset. */
  lemma ResetFails(names: seq<Param>, draws: seq<int>, k: nat, g: int, c0: Config, p0: Params)
    requires k < |names| && |draws| == |names| && Distinct(names)
    requires Coded(names[..k + 1], g, Redraw(names[..k + 1], draws[..k + 1], c0), p0).Err?
    ensures Coded(names, g, Redraw(names, draws, c0), p0) == Coded(names[..k + 1], g, Redraw(names[..k + 1], draws[..k + 1], c0), p0)
  {
    var cand := Redraw(names, draws, c0);
    var part := Redraw(names[..k + 1], draws[..k + 1], c0);
    assert Distinct(names[..k + 1]);
    RedrawSets(names, draws, c0);
    RedrawSets(names[..k + 1], draws[..k + 1], c0);
    forall p | p in names[..k + 1] ensures p in cand && p in part && cand[p] == part[p] {
      var j :| 0 <= j <= k && names[j] == p;
      assert names[..k + 1][j] == p;
    }
    CodedAgree(names[..k + 1], g, part, cand, p0);
    CodedPrefixFails(names, k + 1, g, cand, p0);
  }

  /** Lines 83-159: the set-up, building the `indexes` and `parameters` dicts. */
  method MonteInit(prot: Protocol, veto: bool, g: int, firstId: Option<int>, split: bool, jid: int,
                   init: seq<int>, sim: Simulator, table: MonteTable)
    returns (r: Result<MonteStart>, indexes: Dict<int>, parameters: Dict<Value>)
    requires |init| == |MonteNames(split, veto)|
    ensures r == MonteSetup(prot, veto, g, split, jid, firstId, init, table.rows, sim)
    ensures fresh(indexes) && fresh(parameters)
    ensures r.Ok? ==> indexes.m == r.value.indexes && parameters.m == r.value.parameters
  {
    indexes := new Dict(FixedIndexes(split, jid));
    parameters := new Dict(map[]);
    var sc := MonteScoring(prot);
    if sc.Err? {
      return Err(sc.error), indexes, parameters;
    }
    var names := MonteNames(split, veto);
    var fixedParams := FixedParams(split, jid, g);
    if fixedParams.Err? {
      return Err(fixedParams.error), indexes, parameters;
    }
    var grid := MonteGrid(g, veto);
    if grid.Err? {
      return Err(grid.error), indexes, parameters;
    }
    if firstId.None? {
      DrawIndexes(names, init, indexes);
    } else if names != [] {
      var id := firstId.value;
      if !(1 <= id <= |table.rows|) {
        return Err(TypeError), indexes, parameters;
      }
      var e := CopyIndexes(names, table.rows[id - 1].key, indexes);
      if e.Some? {
        return Err(e.value), indexes, parameters;
      }
    }
    parameters := new Dict(fixedParams.value);
    var e := CodeValues(names, g, indexes.m, parameters);
    if e.Some? {
      return Err(e.value), indexes, parameters;
    }
    var run := MonteRun(names, grid.value, veto, g, 3 * |names|);
    r := Ok(MonteStart(run, MonteJob(sc.value, prot, sim), indexes.m, parameters.m));
  }

  /** Lines 172-310: one iteration per element of `draws`, until one raises. */
  method RunLoop(loop: MonteLoop, draws: seq<Draw>) returns (r: Result<int>)
    requires loop.Valid() && forall i :: 0 <= i < |draws| ==> Fits(loop.run, draws[i])
    modifies loop, loop.indexes, loop.parameters, loop.newIndexes, loop.newParameters, loop.table
    ensures var w := Steps(loop.run, old(loop.State()), draws, Scorer(loop.job));
            loop.table.rows == w.rows && r == if w.failure.Some? then Err(w.failure.value) else Ok(0)
  {
    ghost var st := loop.State();
    assert draws[..0] == [];
    for i := 0 to |draws|
      invariant loop.Valid()
      invariant fresh(loop.indexes) || loop.indexes == old(loop.indexes) || loop.indexes == old(loop.newIndexes)
      invariant fresh(loop.parameters) || loop.parameters == old(loop.parameters) || loop.parameters == old(loop.newParameters)
      invariant fresh(loop.newIndexes) || loop.newIndexes == old(loop.newIndexes)
      invariant fresh(loop.newParameters) || loop.newParameters == old(loop.newParameters)
      invariant loop.State() == Steps(loop.run, st, draws[..i], Scorer(loop.job))
    {
      assert draws[..i + 1][..i] == draws[..i];
      var err := loop.Iterate(draws[i]);
      if err.Some? {
        StepsStopAtFailure(loop.run, st, draws, i + 1, Scorer(loop.job));
        return Err(err.value);
      }
    }
    assert draws[..|draws|] == draws;
    return Ok(0);
  }

  /** `main(protocol_type, plasticity, veto, debug, granularity, first_id, split, jid)` of
      src/montesearch.py: the set-up, then one iteration per element of `draws`. Returns 0,
      or the exception that stopped the script; the table keeps every row written before. */
  method MonteMain(prot: Protocol, veto: bool, g: int, firstId: Option<int>, split: bool, jid: int,
                   init: seq<int>, draws: seq<Draw>, sim: Simulator, table: MonteTable) returns (r: Result<int>)
    requires |init| == |MonteNames(split, veto)|
    requires forall i :: 0 <= i < |draws| ==> draws[i].pick < |MonteNames(split, veto)| && |draws[i].reset| == |MonteNames(split, veto)|
    modifies table
    ensures match MonteSetup(prot, veto, g, split, jid, firstId, init, old(table.rows), sim)
            case Err(e) => r == Err(e) && table.rows == old(table.rows)
            case Ok(s) =>
              var w := Steps(s.run, Start(s, old(table.rows)), draws, Scorer(s.job));
              table.rows == w.rows && r == if w.failure.Some? then Err(w.failure.value) else Ok(0)
  {
    var setup, indexes, parameters := MonteInit(prot, veto, g, firstId, split, jid, init, sim, table);
    if setup.Err? {
      return Err(setup.error);
    }
    NamesDistinct(split, veto);
    var loop := new MonteLoop(setup.value.run, setup.value.job, table, indexes, parameters);
    r := RunLoop(loop, draws);
  }
}
