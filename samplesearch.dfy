/** The sample-driven search of src/samplesearch.py: each iteration draws a row of the job's
    sample table by inverse-CDF on `crp` and simulates it if it is still pending, storing
    its losses in place. */
module SampleSearch {
  import opened Common
  import opened Codec
  import opened Loss
  import opened Resampler

  /** `param_names` of lines 111-115. */
  function SearchNames(veto: bool): (names: seq<Param>)
    ensures |names| == if veto then 9 else 7
  {
    [ALTP, ALTD, ThetaHigh, ThetaLow, TauLowpass1, TauLowpass2, TauX] + (if veto then [BTheta, TauTheta] else [])
  }

  /** What one run fixes: the scoring constants, the protocol, the simulator, the rule
      (`table_name`, passed to `set_param`), the granularity and the fitted names. */
  datatype Search = Search(sc: Scoring, prot: Protocol, sim: Simulator, rule: Rule, g: nat, names: seq<Param>)

  /** Lines 78-101: an unknown protocol raises ValueError, a missing sample table
      EnvironmentError. */
  function SearchSetup(prot: Protocol, plas: Plasticity, veto: bool, g: nat, dbExists: bool, sim: Simulator): (r: Result<Search>)
    ensures r.Ok? <==> prot in {Letzkus, Brandalise} && dbExists
    ensures prot !in {Letzkus, Brandalise} ==> r == Err(ValueError)
    ensures prot in {Letzkus, Brandalise} && !dbExists ==> r == Err(EnvironmentError)
    ensures r.Ok? ==> r.value.rule == Rule(plas, veto) && r.value.names == SearchNames(veto) &&
                      WellFormed(r.value.sc) && r.value.sc == SampleScoring(prot).value
  {
    ScoringTablesWellFormed(prot);
    match SampleScoring(prot)
    case Err(e) => Err(e)
    case Ok(sc) =>
      if !dbExists then Err(EnvironmentError)
      else Ok(Search(sc, prot, sim, Rule(plas, veto), g, SearchNames(veto)))
  }

  /** `find_one(crp >= draw)`: the first row, in id order, whose weight reaches the draw. */
  function FirstAtLeast(rows: seq<SampleRow>, u: real): (r: Option<nat>)
    ensures r.Some? ==> r.value < |rows| && rows[r.value].crp >= u &&
                        forall k :: 0 <= k < r.value ==> rows[k].crp < u
    ensures r.None? ==> forall k :: 0 <= k < |rows| ==> rows[k].crp < u
  {
    if rows == [] then None
    else if rows[0].crp >= u then Some(0)
    else
      match FirstAtLeast(rows[1..], u)
      case None => None
      case Some(k) => Some(k + 1)
  }

  /** Lines 139-141: the first row reaching the draw, else the row whose id is the row count
      (the last one); on an empty table both lookups give None. Returns a position. */
  function Select(rows: seq<SampleRow>, u: real): (r: Option<nat>)
    ensures r.Some? <==> rows != []
    ensures r.Some? ==> r.value < |rows|
  {
    match FirstAtLeast(rows, u)
    case Some(k) => Some(k)
    case None => if |rows| >= 1 then Some(|rows| - 1) else None
  }

  /** On a table the resampler normalised, with `crp` increasing to 1, a draw in [0, 1]
      selects the row whose interval (crp of the previous row, crp] holds it: the
      inverse-CDF rule, and the fallback never applies. */
  lemma SelectIsInverseCdf(rows: seq<SampleRow>, u: real)
    requires rows != [] && rows[|rows| - 1].crp == 1.0 && u <= 1.0
    requires forall i, k :: 0 <= i < k < |rows| ==> rows[i].crp < rows[k].crp
    ensures FirstAtLeast(rows, u).Some?
    ensures var k := Select(rows, u).value;
            && rows[k].crp >= u
            && (k > 0 ==> rows[k - 1].crp < u)
            && forall i :: 0 <= i < |rows| && rows[i].crp >= u ==> k <= i
  {
    assert rows[|rows| - 1].crp >= u;
  }

  /** A draw above every weight falls back to the last row. */
  lemma SelectFallback(rows: seq<SampleRow>, u: real)
    requires rows != [] && forall k :: 0 <= k < |rows| ==> rows[k].crp < u
    ensures Select(rows, u) == Some(|rows| - 1)
  {
  }

  /** Lines 149-150 as a value: `parameters[p] = set_param(p, query[translate[p]], table_name)`
      for each name in order; a missing column raises KeyError, the codec its own error. */
  function RowParams(names: seq<Param>, key: Config, g: nat, rule: Rule): (r: Result<Params>)
  {
    if names == [] then Ok(map[])
    else
      match RowParams(names[..|names| - 1], key, g, rule)
      case Err(e) => Err(e)
      case Ok(m) =>
        var p := names[|names| - 1];
        if p !in key then Err(KeyError)
        else
          match SampleCodec(p, TickValue(key[p], g), rule)
          case Err(e) => Err(e)
          case Ok(v) => Ok(m[p := v])
  }

  /** The row is coded exactly when every name has a column and a value under the rule; the
      coded dict then holds the names and nothing else, each with its codec value. */
  lemma {:induction false} RowParamsCodes(names: seq<Param>, key: Config, g: nat, rule: Rule)
    ensures RowParams(names, key, g, rule).Ok? <==>
            forall i :: 0 <= i < |names| ==> names[i] in key && SampleCodec(names[i], TickValue(key[names[i]], g), rule).Ok?
    ensures RowParams(names, key, g, rule).Ok? ==>
            && (forall p :: p in RowParams(names, key, g, rule).value <==> p in names)
            && (forall p :: p in names ==> Ok(RowParams(names, key, g, rule).value[p]) == SampleCodec(p, TickValue(key[p], g), rule))
  {
    if names != [] {
      var init := names[..|names| - 1];
      RowParamsCodes(init, key, g, rule);
      assert forall i :: 0 <= i < |init| ==> init[i] == names[i];
      assert forall p :: p in names <==> p in init || p == names[|names| - 1];
    }
  }

  /** The Clopath rule has no sample codec: the first parameter already raises ValueError. */
  lemma ClopathRowFails(veto: bool, key: Config, g: nat)
    requires ALTP in key
    ensures RowParams(SearchNames(veto), key, g, Rule(Clopath, veto)) == Err(ValueError)
  {
    var names := SearchNames(veto);
    var k := |names|;
    assert names[..1] == [ALTP];
    assert [ALTP][..0] == [];
    forall n | 1 <= n <= k ensures RowParams(names[..n], key, g, Rule(Clopath, veto)) == Err(ValueError) {
      ClopathPrefix(names, key, g, veto, n);
    }
    assert names[..k] == names;
  }

  lemma {:induction false} ClopathPrefix(names: seq<Param>, key: Config, g: nat, veto: bool, n: nat)
    requires 1 <= n <= |names| && names[0] == ALTP && ALTP in key
    ensures RowParams(names[..n], key, g, Rule(Clopath, veto)) == Err(ValueError)
  {
    var pre := names[..n];
    if n == 1 {
      assert pre == [ALTP];
      assert pre[..0] == [];
    } else {
      ClopathPrefix(names, key, g, veto, n - 1);
      assert pre[..n - 1] == names[..n - 1];
    }
  }

  /** The score of a row: code its configuration, simulate every trace, evaluate. */
  function RowScore(s: Search, key: Config): Result<Score>
  {
    match RowParams(s.names, key, s.g, s.rule)
    case Err(e) => Err(e)
    case Ok(ps) => Evaluate(s.sc, Traces(s.sim, s.prot, s.sc.nrtraces, ps))
  }

  /** What an evaluation stores: li is the largest deviation over the scored neurons of the
      simulated (and, for Brandalise, mixed) outcomes, li >= 0, and li² <= l2. */
  lemma RowScoreIsLoss(s: Search, key: Config)
    requires RowScore(s, key).Ok?
    ensures RowParams(s.names, key, s.g, s.rule).Ok?
    ensures var p := Traces(s.sim, s.prot, s.sc.nrtraces, RowParams(s.names, key, s.g, s.rule).value);
            var sc := RowScore(s, key).value;
            && Evaluate(s.sc, p) == Ok(sc)
            && sc.li >= 0.0 && Sq(sc.li) <= sc.l2
            && (forall t :: 0 <= t < s.sc.nrneurons ==> Deviation(s.sc.targets[t], s.sc.repets, Mixed(s.sc, p)[t]) <= sc.li)
            && (exists t :: 0 <= t < s.sc.nrneurons && sc.li == Deviation(s.sc.targets[t], s.sc.repets, Mixed(s.sc, p)[t]))
  {
    var p := Traces(s.sim, s.prot, s.sc.nrtraces, RowParams(s.names, key, s.g, s.rule).value);
    EvaluateBounds(s.sc, p);
  }

  /** The Brandalise sample search mixes and scores exactly as the grid search does. */
  lemma SampleMixingIsGridMixing()
    ensures SampleScoring(Brandalise) == GridScoring(Brandalise) == Ok(BrandaliseScoring)
    ensures BrandaliseScoring.mixed && BrandaliseScoring.nrtraces == 24 && BrandaliseScoring.nrneurons == 18
  {
  }

  /** The scores of a run as a function of a row's configuration alone. */
  function Scorer(s: Search): Config -> Result<Score>
  {
    key => RowScore(s, key)
  }

  /** The state of the iteration loop: the table rows, the count `nrs` of evaluations, the
      positions evaluated in order, and the exception that stopped the loop, if any. */
  datatype SearchState = SearchState(rows: seq<SampleRow>, nrs: nat, evaluated: seq<nat>, failure: Option<Error>)

  /** Lines 138-182 for one draw u. A pending row (l2 still the sentinel) is coded, simulated
      and updated; any other row leaves everything as it was. */
  function SearchStep(score: Config -> Result<Score>, st: SearchState, u: real): SearchState
  {
    match Select(st.rows, u)
    case None => st.(failure := Some(TypeError))
    case Some(k) =>
      if st.rows[k].l2 != Sentinel then st
      else
        match score(st.rows[k].key)
        case Err(e) => st.(nrs := st.nrs + 1, failure := Some(e))
        case Ok(s) =>
          SearchState(st.rows[k := st.rows[k].(li := s.li, l2 := s.l2)], st.nrs + 1, st.evaluated + [k], None)
  }

  /** Lines 132-182 over the draws, stopping at the first exception. */
  function SearchSteps(score: Config -> Result<Score>, st: SearchState, draws: seq<real>): SearchState
  {
    if draws == [] then st
    else
      var w := SearchSteps(score, st, draws[..|draws| - 1]);
      if w.failure.Some? then w else SearchStep(score, w, draws[|draws| - 1])
  }

  /** What the loop keeps relative to the table it started from: the rows, their ids,
      configurations and weights stay; `nrs` counts the evaluations; every evaluated row was
      pending at the start and now holds its score; every other row is untouched; and a row
      is evaluated twice only when its score is itself the sentinel. */
  predicate Recorded(score: Config -> Result<Score>, init: seq<SampleRow>, st: SearchState)
  {
    && |st.rows| == |init|
    && (forall k :: 0 <= k < |init| ==> st.rows[k].key == init[k].key && st.rows[k].crp == init[k].crp)
    && (st.failure.None? ==> st.nrs == |st.evaluated|)
    && (forall i :: 0 <= i < |st.evaluated| ==> st.evaluated[i] < |init|)
    && (forall i :: 0 <= i < |st.evaluated| ==>
          && init[st.evaluated[i]].l2 == Sentinel
          && score(init[st.evaluated[i]].key).Ok?
          && st.rows[st.evaluated[i]].li == score(init[st.evaluated[i]].key).value.li
          && st.rows[st.evaluated[i]].l2 == score(init[st.evaluated[i]].key).value.l2)
    && (forall k :: 0 <= k < |init| && k !in st.evaluated ==> st.rows[k] == init[k])
    && (forall i, j :: 0 <= i < j < |st.evaluated| && st.evaluated[i] == st.evaluated[j] ==>
          score(init[st.evaluated[i]].key).value.l2 == Sentinel)
  }

  /** One draw keeps the record. */
  lemma StepKeepsRecord(score: Config -> Result<Score>, init: seq<SampleRow>, st: SearchState, u: real)
    requires Recorded(score, init, st) && st.failure.None?
    ensures Recorded(score, init, SearchStep(score, st, u))
  {
    match Select(st.rows, u)
    case None =>
    case Some(k) =>
      if st.rows[k].l2 == Sentinel && score(st.rows[k].key).Ok? {
        var w := SearchStep(score, st, u);
        var s := score(st.rows[k].key).value;
        assert st.rows[k].key == init[k].key;
        assert w.evaluated == st.evaluated + [k];
        assert forall i :: 0 <= i < |st.evaluated| ==> w.evaluated[i] == st.evaluated[i];
        forall i | 0 <= i < |st.evaluated| && st.evaluated[i] == k
          ensures score(init[k].key).value.l2 == Sentinel
        {
        }
        forall k' | 0 <= k' < |init| && k' !in w.evaluated ensures w.rows[k'] == init[k'] {
          assert k' !in st.evaluated;
        }
      }
  }

  /** The record holds from the start of the loop through every draw. */
  lemma {:induction false} StepsKeepRecord(score: Config -> Result<Score>, init: seq<SampleRow>, draws: seq<real>)
    ensures Recorded(score, init, SearchSteps(score, SearchState(init, 0, [], None), draws))
  {
    if draws != [] {
      var pre := draws[..|draws| - 1];
      StepsKeepRecord(score, init, pre);
      var w := SearchSteps(score, SearchState(init, 0, [], None), pre);
      if w.failure.None? {
        StepKeepsRecord(score, init, w, draws[|draws| - 1]);
      }
    }
  }

  /** At most once: when no configuration scores exactly the sentinel l2, no row is
      evaluated twice in a run, so a run that ends without an exception has `nrs` at most
      the number of rows. */
  lemma AtMostOnce(score: Config -> Result<Score>, init: seq<SampleRow>, draws: seq<real>)
    requires forall k :: 0 <= k < |init| && score(init[k].key).Ok? ==> score(init[k].key).value.l2 != Sentinel
    ensures var w := SearchSteps(score, SearchState(init, 0, [], None), draws);
            Distinct(w.evaluated) && |w.evaluated| <= |init| && (w.failure.None? ==> w.nrs == |w.evaluated|)
  {
    StepsKeepRecord(score, init, draws);
    var w := SearchSteps(score, SearchState(init, 0, [], None), draws);
    DistinctBound(w.evaluated, |init|);
  }

  /** A repetition-free list of positions below n has at most n elements. */
  lemma DistinctBound(s: seq<nat>, n: nat)
    requires Distinct(s) && forall i :: 0 <= i < |s| ==> s[i] < n
    ensures |s| <= n
  {
    var elems := set i | 0 <= i < |s| :: s[i];
    DistinctCard(s);
    BoundedSetCard(elems, n);
  }

  lemma {:induction false} DistinctCard(s: seq<nat>)
    requires Distinct(s)
    ensures |set i | 0 <= i < |s| :: s[i]| == |s|
  {
    if s != [] {
      var init := s[..|s| - 1];
      assert Distinct(init);
      DistinctCard(init);
      var a := set i | 0 <= i < |init| :: init[i];
      var b := set i | 0 <= i < |s| :: s[i];
      assert b == a + {s[|s| - 1]};
      assert s[|s| - 1] !in a;
    }
  }

  lemma {:induction false} BoundedSetCard(a: set<nat>, n: nat)
    requires forall x :: x in a ==> x < n
    ensures |a| <= n
  {
    if n > 0 {
      var rest := a - {n - 1};
      BoundedSetCard(rest, n - 1);
      assert a <= rest + {n - 1};
      assert |a| <= |rest + {n - 1}| <= |rest| + 1;
    } else {
      assert a == {};
    }
  }

  /** Once an iteration has raised, later draws change nothing. */
  lemma {:induction false} SearchStepsStop(score: Config -> Result<Score>, st: SearchState, draws: seq<real>, n: nat)
    requires n <= |draws| && SearchSteps(score, st, draws[..n]).failure.Some?
    ensures SearchSteps(score, st, draws) == SearchSteps(score, st, draws[..n])
    decreases |draws| - n
  {
    if n < |draws| {
      var next := draws[..n + 1];
      assert next[..n] == draws[..n];
      if n + 1 == |draws| {
        assert next == draws;
      } else {
        SearchStepsStop(score, st, draws, n + 1);
      }
    } else {
      assert draws[..n] == draws;
    }
  }

  /** The loop after i draws takes one more step on draw i. */
  lemma SearchStepsNext(score: Config -> Result<Score>, st: SearchState, draws: seq<real>, i: int)
    requires 0 <= i < |draws|
    ensures var w := SearchSteps(score, st, draws[..i]);
            SearchSteps(score, st, draws[..i + 1]) == if w.failure.Some? then w else SearchStep(score, w, draws[i])
  {
    assert draws[..i + 1][..i] == draws[..i];
  }

  /** Lines 149-150: overwrite each name of `params` with its coded value. */
  method CodeRow(names: seq<Param>, key: Config, g: nat, rule: Rule, params: Params)
    returns (params': Params, err: Option<Error>)
    ensures match RowParams(names, key, g, rule)
            case Err(e) => err == Some(e)
            case Ok(m) => err.None? && params' == params + m
    ensures forall p :: p in params' ==> p in params || p in names
  {
    params' := params;
    ghost var coded: Params := map[];
    assert names[..0] == [];
    for i := 0 to |names|
      invariant RowParams(names[..i], key, g, rule) == Ok(coded)
      invariant params' == params + coded
      invariant forall p :: p in coded ==> p in names
    {
      var p := names[i];
      assert names[..i + 1][..i] == names[..i];
      assert names[..i + 1][i] == p;
      if p !in key {
        RowParamsPrefixFails(names, key, g, rule, i + 1);
        return params', Some(KeyError);
      }
      var v := SampleCodec(p, TickValue(key[p], g), rule);
      if v.Err? {
        RowParamsPrefixFails(names, key, g, rule, i + 1);
        return params', Some(v.error);
      }
      params' := params'[p := v.value];
      coded := coded[p := v.value];
    }
    assert names[..|names|] == names;
    err := None;
  }

  /** A coding error part-way stops the coding of the whole row. */
  lemma {:induction false} RowParamsPrefixFails(names: seq<Param>, key: Config, g: nat, rule: Rule, n: nat)
    requires n <= |names| && RowParams(names[..n], key, g, rule).Err?
    ensures RowParams(names, key, g, rule) == RowParams(names[..n], key, g, rule)
    decreases |names| - n
  {
    if n < |names| {
      var next := names[..n + 1];
      assert next[..n] == names[..n];
      if n + 1 == |names| {
        assert next == names;
      } else {
        RowParamsPrefixFails(names, key, g, rule, n + 1);
      }
    } else {
      assert names[..n] == names;
    }
  }

  /** Lines 143-180 for the selected pending row `id`: code it into `params`, simulate, score
      and update the row. */
  method EvaluateRow(s: Search, id: nat, params: Params, table: SampleTable) returns (params': Params, err: Option<Error>)
    requires 1 <= id <= |table.rows|
    requires forall p :: p in params ==> p in s.names
    modifies table
    ensures forall p :: p in params' ==> p in s.names
    ensures match RowScore(s, old(table.rows)[id - 1].key)
            case Err(e) => err == Some(e) && table.rows == old(table.rows)
            case Ok(sc) => err.None? && table.rows == old(table.rows)[id - 1 := old(table.rows)[id - 1].(li := sc.li, l2 := sc.l2)]
  {
    var key := table.rows[id - 1].key;
    params', err := CodeRow(s.names, key, s.g, s.rule, params);
    RowParamsCodes(s.names, key, s.g, s.rule);
    if err.Some? {
      return;
    }
    ghost var m := RowParams(s.names, key, s.g, s.rule).value;
    assert params' == m;
    var p := SimulateTraces(s.sim, s.prot, s.sc.nrtraces, params');
    SimulateTracesIsTraces(s.sim, s.prot, s.sc.nrtraces, params', p);
    var score := Evaluate(s.sc, p);
    if score.Err? {
      return params', Some(score.error);
    }
    table.Update(id, score.value.li, score.value.l2);
  }

  /** Lines 132-182: one iteration per draw, until one raises. Returns `nrs` as well. */
  method RunSearch(s: Search, draws: seq<real>, table: SampleTable) returns (err: Option<Error>, nrs: nat)
    modifies table
    ensures var w := SearchSteps(Scorer(s), SearchState(old(table.rows), 0, [], None), draws);
            table.rows == w.rows && err == w.failure && nrs == w.nrs
  {
    ghost var init := table.rows;
    ghost var evaluated: seq<nat> := [];
    var params: Params := map[];
    nrs := 0;
    assert draws[..0] == [];
    for i := 0 to |draws|
      invariant forall p :: p in params ==> p in s.names
      invariant SearchSteps(Scorer(s), SearchState(init, 0, [], None), draws[..i]) ==
                SearchState(table.rows, nrs, evaluated, None)
    {
      SearchStepsNext(Scorer(s), SearchState(init, 0, [], None), draws, i);
      var k := Select(table.rows, draws[i]);
      if k.None? {
        SearchStepsStop(Scorer(s), SearchState(init, 0, [], None), draws, i + 1);
        return Some(TypeError), nrs;
      }
      if table.rows[k.value].l2 == Sentinel {
        nrs := nrs + 1;
        var e;
        params, e := EvaluateRow(s, k.value + 1, params, table);
        if e.Some? {
          SearchStepsStop(Scorer(s), SearchState(init, 0, [], None), draws, i + 1);
          return e, nrs;
        }
        evaluated := evaluated + [k.value];
      }
    }
    assert draws[..|draws|] == draws;
    err := None;
  }

  /** `main(protocol_type, plasticity, veto, granularity, jid)` of src/samplesearch.py with
      the uniform draws given; returns 0 or the exception that stopped it. Each update is
      committed, so rows updated before an exception stay. */
  method SampleMain(prot: Protocol, plas: Plasticity, veto: bool, g: nat, dbExists: bool,
                    draws: seq<real>, sim: Simulator, table: SampleTable) returns (r: Result<int>)
    modifies table
    ensures match SearchSetup(prot, plas, veto, g, dbExists, sim)
            case Err(e) => r == Err(e) && table.rows == old(table.rows)
            case Ok(s) =>
              var w := SearchSteps(Scorer(s), SearchState(old(table.rows), 0, [], None), draws);
              table.rows == w.rows && r == if w.failure.Some? then Err(w.failure.value) else Ok(0)
  {
    var setup := SearchSetup(prot, plas, veto, g, dbExists, sim);
    if setup.Err? {
      return Err(setup.error);
    }
    var err, nrs := RunSearch(setup.value, draws, table);
    r := if err.Some? then Err(err.value) else Ok(0);
  }
}
