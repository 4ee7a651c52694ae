/** src/gridsearch.py: a depth-first grid search over the plasticity parameters that
    scores every grid point with the simulator and stores the losses, resuming a run that
    was interrupted by skipping the configurations already in the table ("catching up"). */
module GridSearch {
  import opened Common
  import opened Codec
  import opened Grid
  import opened Loss

  /*********************************************************************************
   * init_params: fitted parameters, fixed split indexes and grid tables
   *********************************************************************************/

  /** What `init_params` returns: the parameters to vary, the starting indexes (in ticks
      of 0.5^g), their values, and the grid of each parameter. */
  datatype Init = Init(names: seq<Param>, indexes: Config, parameters: Params, space: Space)

  /** Parameters varied by a split Claire_veto search; A_LTP and A_LTD are fixed per job. */
  const VetoSplitNames: seq<Param> := [ThetaHigh, ThetaLow, TauLowpass1, TauLowpass2, TauX, BTheta, TauTheta]

  /** `grid_params` of Claire_noveto in ticks: integers at g = 0, halves at g = 1. */
  function NovetoSpace(g: nat): (r: Space)
    requires g == 0 || g == 1
    ensures Covers(r, NovetoColumns) && forall p :: p in r ==> r[p].lo < r[p].hi
  {
    if g == 0 then
      map[ThetaHigh := Axis(1, 8), ThetaLow := Axis(1, 8), ALTP := Axis(1, 7), ALTD := Axis(1, 7),
          TauLowpass1 := Axis(1, 6), TauLowpass2 := Axis(1, 6), TauX := Axis(1, 6)]
    else
      map[ThetaHigh := Axis(6, 14), ThetaLow := Axis(4, 16), ALTP := Axis(-2, 14), ALTD := Axis(2, 14),
          TauLowpass1 := Axis(2, 12), TauLowpass2 := Axis(2, 8), TauX := Axis(2, 16)]
  }

  /** `grid_params` of Claire_veto in ticks: halves at g = 1 ([-1.5, 1] is [-3, 2]),
      eighths at g = 3 ([-0.25, 0.25] is [-2, 2]). */
  function VetoSpace(g: nat): (r: Space)
    requires g == 1 || g == 3
    ensures Covers(r, VetoColumns) && forall p :: p in r ==> r[p].lo < r[p].hi
  {
    if g == 1 then
      map[ThetaHigh := Axis(-3, 2), ThetaLow := Axis(-1, 3), ALTP := Axis(-4, 4), ALTD := Axis(-4, 4),
          TauLowpass1 := Axis(-2, 1), TauLowpass2 := Axis(-1, 2), TauX := Axis(-2, 2),
          BTheta := Axis(-2, 1), TauTheta := Axis(-2, 1)]
    else
      map[ThetaHigh := Axis(-2, 2), ThetaLow := Axis(-2, 2), ALTP := Axis(-2, 2), ALTD := Axis(-2, 2),
          TauLowpass1 := Axis(-2, 2), TauLowpass2 := Axis(-2, 2), TauX := Axis(-2, 2),
          BTheta := Axis(-2, 2), TauTheta := Axis(-2, 2)]
  }

  /** The `grid_params` table `init_params` picks for a rule and granularity. */
  function GridSpace(rule: Rule, g: nat): (r: Result<Space>)
    ensures r.Ok? ==> Covers(r.value, if rule == ClaireVeto then VetoColumns else NovetoColumns)
  {
    if rule == ClaireNoveto then
      if g == 0 || g == 1 then Ok(NovetoSpace(g)) else Err(NotImplementedError)
    else if rule == ClaireVeto then
      if g == 1 || g == 3 then Ok(VetoSpace(g)) else Err(NotImplementedError)
    else Err(ValueError)
  }

  /** Job partition of a split Claire_noveto search at g = 0: (Theta_high, Theta_low) =
      (floor(jid / 9), jid mod 9). */
  function NovetoSplit(jid: int): (int, int)
  {
    (jid / 9, jid % 9)
  }

  /** Job partition of a split Claire_veto search, in ticks: at g = 1 (A_LTP, A_LTD) =
      ((jid mod 9) * 0.5 - 2, floor(jid / 9) * 0.5 - 2); at g = 3 the same with 5 and 0.125. */
  function VetoSplit(g: nat, jid: int): (int, int)
    requires g == 1 || g == 3
  {
    if g == 1 then (jid % 9 - 4, jid / 9 - 4) else (jid % 5 - 2, jid / 5 - 2)
  }

  lemma EuclidUnique(x: int, y: int, d: int)
    requires d > 0 && x / d == y / d && x % d == y % d
    ensures x == y
  {
    assert x == d * (x / d) + x % d;
    assert y == d * (y / d) + y % d;
  }

  /** Distinct jobs fix distinct index pairs. */
  lemma SplitsInjective(g: nat, j: int, k: int)
    requires j != k
    ensures NovetoSplit(j) != NovetoSplit(k)
    ensures (g == 1 || g == 3) ==> VetoSplit(g, j) != VetoSplit(g, k)
  {
    if NovetoSplit(j) == NovetoSplit(k) {
      EuclidUnique(j, k, 9);
    }
    if g == 1 && VetoSplit(g, j) == VetoSplit(g, k) {
      EuclidUnique(j, k, 9);
    }
    if g == 3 && VetoSplit(g, j) == VetoSplit(g, k) {
      EuclidUnique(j, k, 5);
    }
  }

  /** Jobs 0 .. 80 (g = 1) or 0 .. 24 (g = 3) fix (A_LTP, A_LTD) on the full veto grid, and
      every grid point of those two axes is fixed by exactly such a job. */
  lemma VetoSplitCoversGrid(g: nat, a: int, d: int)
    requires g == 1 || g == 3
    ensures var w := if g == 1 then 9 else 5;
            var lo := VetoSpace(g)[ALTP].lo;
            && VetoSpace(g)[ALTP] == VetoSpace(g)[ALTD] == Axis(lo, lo + w - 1)
            && (lo <= a < lo + w && lo <= d < lo + w ==>
                  var jid := (a - lo) + w * (d - lo);
                  0 <= jid < w * w && VetoSplit(g, jid) == (a, d))
            && (forall jid :: 0 <= jid < w * w ==>
                  lo <= VetoSplit(g, jid).0 < lo + w && lo <= VetoSplit(g, jid).1 < lo + w)
  {
    var w := if g == 1 then 9 else 5;
    var lo := VetoSpace(g)[ALTP].lo;
    if lo <= a < lo + w && lo <= d < lo + w {
      var jid := (a - lo) + w * (d - lo);
      DivModUnique(jid, w, d - lo, a - lo);
    }
  }

  /** The value `init_params` computes for a Claire_veto search at g = 1 or 3: the parameters
      to vary, each started at the lower end of its grid, plus (when split) the two fixed
      amplitudes; every index carries the value of the Letzkus-centred codec. */
  function VetoInit(g: nat, split: bool, jid: int): Init
    requires g == 1 || g == 3
  {
    var names := VetoNames(split);
    var space := VetoSpace(g);
    var fixed := VetoFixed(g, split, jid);
    var lows := LowerBounds(names, space);
    Init(names, fixed + lows, CodecValues(fixed, g) + CodecValues(lows, g), space)
  }

  /** The parameters a Claire_veto run varies. */
  function VetoNames(split: bool): seq<Param>
  {
    if split then VetoSplitNames else VetoColumns
  }

  /** The indexes a split Claire_veto job fixes; none without a split. */
  function VetoFixed(g: nat, split: bool, jid: int): Config
    requires g == 1 || g == 3
  {
    if split then map[ALTP := VetoSplit(g, jid).0, ALTD := VetoSplit(g, jid).1] else map[]
  }

  /** Every parameter of `names` at the lower end of its grid. */
  function LowerBounds(names: seq<Param>, space: Space): (idxs: Config)
    requires Covers(space, names)
    ensures idxs.Keys == set p | p in names
  {
    map p | p in names :: space[p].lo
  }

  lemma LowerBoundsGrow(names: seq<Param>, space: Space, k: nat)
    requires k < |names| && Covers(space, names)
    ensures Covers(space, names[..k]) && Covers(space, names[..k + 1])
    ensures LowerBounds(names[..k], space)[names[k] := space[names[k]].lo] == LowerBounds(names[..k + 1], space)
  {
    assert names[..k + 1] == names[..k] + [names[k]];
  }

  lemma CodecValuesUpdate(m: Config, p: Param, t: int, g: nat)
    ensures CodecValues(m[p := t], g) == CodecValues(m, g)[p := VetoValue(LetzkusCentres, p, TickValue(t, g))]
  {
  }

  lemma UnionUpdate<V>(a: map<Param, V>, b: map<Param, V>, p: Param, v: V)
    ensures (a + b)[p := v] == a + b[p := v]
  {
  }

  lemma CodecValuesUnion(a: Config, b: Config, g: nat)
    ensures CodecValues(a + b, g) == CodecValues(a, g) + CodecValues(b, g)
  {
  }

  /** Values of the Letzkus-centred veto codec at every index of a configuration. */
  function CodecValues(indexes: Config, g: nat): (params: Params)
    ensures params.Keys == indexes.Keys
  {
    map p | p in indexes :: VetoValue(LetzkusCentres, p, TickValue(indexes[p], g))
  }

  /** The part of `init_params` before the grids: the parameters to vary and, for a split
      run, the two indexes the job id fixes with their codec values (src/gridsearch.py:140-182).
      Split Claire_noveto fails in `set_param`; every other combination without a partition
      raises as the source does. */
  function SplitStart(g: nat, split: bool, rule: Rule, jid: int): Result<(seq<Param>, Config, Params)>
  {
    if !split then
      Ok((if rule == ClaireVeto then VetoColumns else NovetoColumns, map[], map[]))
    else if rule == ClaireNoveto then
      if g == 0 then
        var (ith, itl) := NovetoSplit(jid);
        var tl := GridCodec(ThetaLow, TickValue(itl, g), rule, Letzkus);
        var th := GridCodec(ThetaHigh, TickValue(ith, g), rule, Letzkus);
        if tl.Err? then Err(tl.error)
        else if th.Err? then Err(th.error)
        else Ok(([ALTP, ALTD, TauLowpass1, TauLowpass2, TauX], map[ThetaHigh := ith, ThetaLow := itl],
                 map[ThetaHigh := th.value, ThetaLow := tl.value]))
      else if g == 1 then
        var itl, iad := jid % 13 + 4, 2 * (jid / 13) + 2;
        var tl := GridCodec(ThetaLow, TickValue(itl, g), rule, Letzkus);
        var ad := GridCodec(ALTD, TickValue(iad, g), rule, Letzkus);
        if tl.Err? then Err(tl.error)
        else if ad.Err? then Err(ad.error)
        else Ok(([ThetaHigh, ALTP, TauLowpass1, TauLowpass2, TauX], map[ThetaLow := itl, ALTD := iad],
                 map[ThetaLow := tl.value, ALTD := ad.value]))
      else Err(ValueError)
    else if rule == ClaireVeto then
      if g != 1 && g != 3 then Err(NotImplementedError)
      else
        var (iap, iad) := VetoSplit(g, jid);
        var fixed := map[ALTP := iap, ALTD := iad];
        Ok((VetoSplitNames, fixed, CodecValues(fixed, g)))
    else Err(NotImplementedError)
  }

  /** The start of a veto run: the parameters to vary and the fixed amplitudes, valued by the
      Letzkus-centred codec; a split noveto run fails in `set_param`. */
  lemma SplitStartOutcomes(g: nat, split: bool, rule: Rule, jid: int)
    ensures rule == ClaireVeto && (g == 1 || g == 3) ==>
              var fixed := VetoFixed(g, split, jid);
              SplitStart(g, split, rule, jid) == Ok((VetoNames(split), fixed, CodecValues(fixed, g)))
    ensures split && rule == ClaireNoveto ==>
              SplitStart(g, split, rule, jid) == Err(if g == 0 || g == 1 then NotImplementedError else ValueError)
    ensures split && rule == ClaireVeto && g != 1 && g != 3 ==> SplitStart(g, split, rule, jid) == Err(NotImplementedError)
    ensures split && rule.plasticity != Claire ==> SplitStart(g, split, rule, jid) == Err(NotImplementedError)
    ensures !split ==> SplitStart(g, split, rule, jid).Ok? && |SplitStart(g, split, rule, jid).value.0| > 0
  {
    GridCodecAcceptsOnlyVeto(ThetaLow, TickValue(jid % 9, g), rule);
    GridCodecAcceptsOnlyVeto(ThetaLow, TickValue(jid % 13 + 4, g), rule);
    if !split && rule == ClaireVeto {
      assert CodecValues(map[], g) == map[];
    }
  }

  /** `init_params(granularity, split, table_name, ...)`; `set_param` is always called with
      the default protocol, so only the Letzkus centres are ever used. */
  method InitParams(g: nat, split: bool, rule: Rule, jid: int) returns (r: Result<Init>)
    ensures rule == ClaireVeto && (g == 1 || g == 3) ==> r == Ok(VetoInit(g, split, jid))
    ensures rule == ClaireVeto && g != 1 && g != 3 ==> r == Err(NotImplementedError)
    ensures rule == ClaireNoveto ==>
              r == Err(if split && g != 0 && g != 1 then ValueError else NotImplementedError)
    ensures rule.plasticity != Claire ==> r == Err(if split then NotImplementedError else ValueError)
  {
    SplitStartOutcomes(g, split, rule, jid);
    var start := SplitStart(g, split, rule, jid);
    if start.Err? {
      return Err(start.error);
    }
    var names, indexes, parameters := start.value.0, start.value.1, start.value.2;

    var grid := GridSpace(rule, g);
    if grid.Err? {
      return Err(grid.error);
    }
    var space := grid.value;

    var values := SetParams(names, indexes, parameters, space, g, rule);
    if values.Err? {
      return Err(values.error);
    }
    return Ok(Init(names, values.value.0, values.value.1, space));
  }

  /** The loop of `init_params` over the varied parameters: start each at the lower end of
      its grid and look up its value with `set_param`. */
  method SetParams(names: seq<Param>, indexes: Config, parameters: Params, space: Space, g: nat, rule: Rule)
    returns (r: Result<(Config, Params)>)
    requires Covers(space, names)
    ensures rule == ClaireVeto ==>
              r == Ok((indexes + LowerBounds(names, space), parameters + CodecValues(LowerBounds(names, space), g)))
    ensures rule == ClaireNoveto && names != [] ==> r == Err(NotImplementedError)
  {
    var idxs, pmts := indexes, parameters;
    for k := 0 to |names|
      invariant rule == ClaireNoveto ==> k == 0
      invariant idxs == indexes + LowerBounds(names[..k], space)
      invariant rule == ClaireVeto ==> pmts == parameters + CodecValues(LowerBounds(names[..k], space), g)
    {
      var p := names[k];
      var lo := space[p].lo;
      LowerBoundsGrow(names, space, k);
      UnionUpdate(indexes, LowerBounds(names[..k], space), p, lo);
      idxs := idxs[p := lo];
      var value := GridCodec(p, TickValue(idxs[p], g), rule, Letzkus);
      if value.Err? {
        return Err(value.error);
      }
      GridCodecAcceptsOnlyVeto(p, TickValue(lo, g), rule);
      CodecValuesUpdate(LowerBounds(names[..k], space), p, lo, g);
      UnionUpdate(parameters, CodecValues(LowerBounds(names[..k], space), g), p, VetoValue(LetzkusCentres, p, TickValue(lo, g)));
      pmts := pmts[p := value.value];
    }
    assert names[..|names|] == names;
    return Ok((idxs, pmts));
  }

  /** A veto initialisation starts every varied parameter at the lower end of its grid, keeps
      the job's fixed amplitudes, has a grid for each varied parameter, and gives every index
      the value of the Letzkus-centred codec. */
  lemma VetoInitStartsAtLowerBounds(g: nat, split: bool, jid: int)
    requires g == 1 || g == 3
    ensures var init := VetoInit(g, split, jid);
            && |init.names| > 0 && Distinct(init.names) && Covers(init.space, init.names)
            && (forall p :: p in init.names ==> init.indexes[p] == init.space[p].lo)
            && (split ==> init.indexes[ALTP] == VetoSplit(g, jid).0 && init.indexes[ALTD] == VetoSplit(g, jid).1)
            && init.parameters == CodecValues(init.indexes, g)
  {
    VetoNamesCovered(g, split);
    var lows := LowerBounds(VetoNames(split), VetoSpace(g));
    CodecValuesUnion(VetoFixed(g, split, jid), lows, g);
  }

  /** The parameters a veto run varies are distinct and all have a grid; a split run does
      not vary the amplitudes it fixes. */
  lemma VetoNamesCovered(g: nat, split: bool)
    requires g == 1 || g == 3
    ensures var names := VetoNames(split);
            |names| > 0 && Distinct(names) && Covers(VetoSpace(g), names)
    ensures ALTP !in VetoSplitNames && ALTD !in VetoSplitNames
  {
    assert Distinct(Columns(true));
    var n := VetoSplitNames;
    assert n == [n[0], n[1], n[2], n[3], n[4], n[5], n[6]];
    assert Distinct(n);
  }

  /*********************************************************************************
   * The result table and one leaf of the recursion
   *********************************************************************************/

  /** A row of the grid-search table: the nine indexes, and the two losses. */
  datatype GridRow = GridRow(key: Config, li: real, l2: real)

  /** The SQLite table the recursion inserts into. */
  class GridTable {
    var rows: seq<GridRow>

    constructor(rows0: seq<GridRow>)
      ensures rows == rows0
    {
      rows := rows0;
    }

    /** `table.insert(...)`. */
    method Insert(row: GridRow)
      modifies this
      ensures rows == old(rows) + [row]
    {
      rows := rows + [row];
    }
  }

  /** `find_one(th=..., tl=..., ...)` finds a row. */
  predicate Found(rows: seq<GridRow>, idxs: Config, cols: seq<Param>)
  {
    exists k :: 0 <= k < |rows| && Matches(rows[k].key, idxs, cols)
  }

  /** Everything about a run that the recursion passes down unchanged. */
  datatype GridJob = GridJob(space: Space, g: nat, rule: Rule, veto: bool, prot: Protocol, sc: Scoring, sim: Simulator)

  /** `prot[:10]`, the name the simulator is called with: 'Brandaliseb' is cut to 'Brandalise'. */
  function SimProtocol(prot: Protocol): Protocol
  {
    if prot == Brandaliseb then Brandalise else prot
  }

  /** The state threaded through the recursion: the table, `nr`, `catching_up`, and the
      exception that stopped the run, if any. */
  datatype Progress = Progress(rows: seq<GridRow>, nr: int, catching: bool, failure: Option<Error>)

  /** The recursion's return value, or the exception it raises. */
  function Outcome(w: Progress): Result<(int, bool)>
  {
    if w.failure.Some? then Err(w.failure.value) else Ok((w.nr, w.catching))
  }

  /** The `pmts` dict at a leaf: the caller's values, with every varied parameter replaced
      by the codec value of its index in the leaf. */
  function LeafParams(base: Params, leaf: Config, names: seq<Param>, g: nat): (params: Params)
    ensures params.Keys == base.Keys + (set p | p in names && p in leaf)
  {
    map p | p in base.Keys + (set p | p in names && p in leaf) ::
      if p in names && p in leaf then VetoValue(LetzkusCentres, p, TickValue(leaf[p], g)) else base[p]
  }

  /** The scores of a leaf that is simulated: losses of the simulated traces (the simulator
      receives `prot[:10]`). */
  function Simulated(job: GridJob, params: Params): Result<Score>
  {
    Evaluate(job.sc, Traces(job.sim, SimProtocol(job.prot), job.sc.nrtraces, params))
  }

  /** What each leaf of a traversal would score if simulated: `pmts` at that leaf, simulated. */
  function LeafScores(job: GridJob, base: Params, names: seq<Param>): Config -> Result<Score>
  {
    leaf => Simulated(job, LeafParams(base, leaf, names, job.g))
  }

  /** One leaf (src/gridsearch.py:268-322), given what it would score: while catching up, look
      the configuration up; a hit is only counted; otherwise insert a row with the scores.
      Python raises, in this order: IndexError in mixing or scoring, KeyError for a missing
      index when the row dict is built, ValueError from `max` of nothing. */
  function Step(veto: bool, score: Result<Score>, s: Progress, leaf: Config): Progress
  {
    var cols := Columns(veto);
    if s.failure.Some? then s
    else if s.catching && !HasAll(leaf, cols) then s.(failure := Some(KeyError))
    else if s.catching && Found(s.rows, leaf, cols) then s.(nr := s.nr + 1)
    else if score == Err(IndexError) then Progress(s.rows, s.nr, false, Some(IndexError))
    else if !HasAll(leaf, VetoColumns) then Progress(s.rows, s.nr, false, Some(KeyError))
    else if score.Err? then Progress(s.rows, s.nr, false, Some(score.error))
    else Progress(s.rows + [GridRow(Restrict(leaf, VetoColumns), score.value.li, score.value.l2)],
                  s.nr + 1, false, None)
  }

  /** The leaves processed in order, each scored by `score` if it is simulated. */
  function Walk(veto: bool, score: Config -> Result<Score>, s: Progress, leaves: seq<Config>): Progress
    decreases |leaves|
  {
    if leaves == [] then s
    else Walk(veto, score, Step(veto, score(leaves[0]), s, leaves[0]), leaves[1..])
  }

  /*********************************************************************************
   * Properties of the walk
   *********************************************************************************/

  /** After an exception nothing more happens. */
  lemma {:induction false} WalkAfterFailure(veto: bool, score: Config -> Result<Score>, s: Progress, leaves: seq<Config>)
    requires s.failure.Some?
    ensures Walk(veto, score, s, leaves) == s
    decreases |leaves|
  {
    if leaves != [] {
      WalkAfterFailure(veto, score, s, leaves[1..]);
    }
  }

  /** Walking two lists of leaves one after the other is walking their concatenation. */
  lemma {:induction false} WalkConcat(veto: bool, score: Config -> Result<Score>, s: Progress, a: seq<Config>, b: seq<Config>)
    ensures Walk(veto, score, s, a + b) == Walk(veto, score, Walk(veto, score, s, a), b)
    decreases |a|
  {
    if a == [] {
      assert a + b == b;
    } else {
      assert (a + b)[0] == a[0] && (a + b)[1..] == a[1..] + b;
      WalkConcat(veto, score, Step(veto, score(a[0]), s, a[0]), a[1..], b);
    }
  }

  /** Two walks whose leaves would score alike agree. */
  lemma {:induction false} WalkSameScores(veto: bool, f: Config -> Result<Score>, h: Config -> Result<Score>,
                                          s: Progress, leaves: seq<Config>)
    requires forall l :: l in leaves ==> f(l) == h(l)
    ensures Walk(veto, f, s, leaves) == Walk(veto, h, s, leaves)
    decreases |leaves|
  {
    if leaves != [] {
      assert leaves[0] in leaves;
      assert forall l :: l in leaves[1..] ==> l in leaves;
      WalkSameScores(veto, f, h, Step(veto, f(leaves[0]), s, leaves[0]), leaves[1..]);
    }
  }

  /** Fixing the first varied parameter in `pmts` before recursing gives every leaf below the
      same values as varying it at the leaf. */
  lemma LeafParamsShift(base: Params, names: seq<Param>, space: Space, idxs: Config, v: int, leaf: Config, g: nat)
    requires names != [] && Covers(space, names[1..])
    requires Reached(names[1..], space, 1, idxs[names[0] := v], leaf)
    ensures LeafParams(base[names[0] := VetoValue(LetzkusCentres, names[0], TickValue(v, g))], leaf, names[1..], g)
            == LeafParams(base, leaf, names, g)
  {
    var n0 := names[0];
    var lhs := LeafParams(base[n0 := VetoValue(LetzkusCentres, n0, TickValue(v, g))], leaf, names[1..], g);
    var rhs := LeafParams(base, leaf, names, g);
    assert forall p :: p in names <==> p == n0 || p in names[1..];
    assert n0 in leaf;
    assert lhs.Keys == rhs.Keys;
    forall p | p in lhs.Keys
      ensures lhs[p] == rhs[p]
    {
      if p == n0 && n0 !in names[1..] {
        assert leaf[n0] == v;
      }
    }
  }

  /** The leaves below one iteration of the loop at `names[0]` score as the whole traversal
      scores them. */
  lemma SubtreeScores(job: GridJob, base: Params, names: seq<Param>, idxs: Config, v: int)
    requires names != [] && Covers(job.space, names)
    ensures var leaves := Enumerate(names[1..], job.space, 1, idxs[names[0] := v]);
            var sub := LeafScores(job, base[names[0] := VetoValue(LetzkusCentres, names[0], TickValue(v, job.g))], names[1..]);
            forall l :: l in leaves ==> sub(l) == LeafScores(job, base, names)(l)
  {
    var leaves := Enumerate(names[1..], job.space, 1, idxs[names[0] := v]);
    forall l | l in leaves
      ensures LeafParams(base[names[0] := VetoValue(LetzkusCentres, names[0], TickValue(v, job.g))], l, names[1..], job.g)
              == LeafParams(base, l, names, job.g)
    {
      EnumerateCoordinates(names[1..], job.space, 1, idxs[names[0] := v], l);
      LeafParamsShift(base, names, job.space, idxs, v, l, job.g);
    }
  }

  /** One iteration of the loop at `names[0]`: its subtree, then the remaining iterations;
      an exception inside the subtree ends the loop. */
  lemma SweepSplits(veto: bool, score: Config -> Result<Score>, names: seq<Param>, space: Space, idxs: Config, i: nat, s: Progress)
    requires names != [] && Covers(space, names) && i < AxisCount(space[names[0]], 1)
    ensures var here := Enumerate(names[1..], space, 1, idxs[names[0] := AxisValue(space[names[0]], 1, i)]);
            var mid := Walk(veto, score, s, here);
            && Walk(veto, score, s, Sweep(names, space, 1, idxs, i))
               == Walk(veto, score, mid, Sweep(names, space, 1, idxs, i + 1))
            && (mid.failure.Some? ==> Walk(veto, score, s, Sweep(names, space, 1, idxs, i)) == mid)
  {
    var here := Enumerate(names[1..], space, 1, idxs[names[0] := AxisValue(space[names[0]], 1, i)]);
    WalkConcat(veto, score, s, here, Sweep(names, space, 1, idxs, i + 1));
    var mid := Walk(veto, score, s, here);
    if mid.failure.Some? {
      WalkAfterFailure(veto, score, mid, Sweep(names, space, 1, idxs, i + 1));
    }
  }

  /** Every leaf is counted, skipped or simulated alike: without an exception `nr` grows by
      the number of leaves. */
  lemma {:induction false} WalkCounts(veto: bool, score: Config -> Result<Score>, s: Progress, leaves: seq<Config>)
    requires s.failure.None?
    ensures var w := Walk(veto, score, s, leaves);
            w.failure.None? ==> w.nr == s.nr + |leaves|
    decreases |leaves|
  {
    if leaves != [] {
      var s1 := Step(veto, score(leaves[0]), s, leaves[0]);
      if s1.failure.Some? {
        WalkAfterFailure(veto, score, s1, leaves[1..]);
      } else {
        WalkCounts(veto, score, s1, leaves[1..]);
      }
    }
  }

  /** Rows are only ever appended. */
  lemma {:induction false} WalkKeepsRows(veto: bool, score: Config -> Result<Score>, s: Progress, leaves: seq<Config>)
    ensures var w := Walk(veto, score, s, leaves);
            |s.rows| <= |w.rows| && w.rows[..|s.rows|] == s.rows
    decreases |leaves|
  {
    if leaves != [] {
      var s1 := Step(veto, score(leaves[0]), s, leaves[0]);
      WalkKeepsRows(veto, score, s1, leaves[1..]);
      var w := Walk(veto, score, s, leaves);
      assert s1.rows[..|s.rows|] == s.rows;
      assert w.rows[..|s.rows|] == w.rows[..|s1.rows|][..|s.rows|];
    }
  }

  /** With catching up off, a leaf either raises or appends one row keyed by its indexes. */
  lemma StepWhenOff(veto: bool, score: Result<Score>, s: Progress, leaf: Config)
    requires !s.catching && s.failure.None?
    ensures var t := Step(veto, score, s, leaf);
            && !t.catching
            && (t.failure.None? ==>
                  && HasAll(leaf, VetoColumns)
                  && |t.rows| == |s.rows| + 1
                  && t.rows[..|s.rows|] == s.rows
                  && t.rows[|s.rows|].key == Restrict(leaf, VetoColumns))
  {
  }

  /** Once catching up is off it stays off, and every later leaf inserts exactly one row,
      keyed by that leaf's nine indexes, after the rows already there. */
  lemma {:induction false} WalkInsertsEveryLeaf(veto: bool, score: Config -> Result<Score>, s: Progress, leaves: seq<Config>)
    requires !s.catching && s.failure.None?
    ensures var w := Walk(veto, score, s, leaves);
            && !w.catching
            && (w.failure.None? ==>
                  && |w.rows| == |s.rows| + |leaves|
                  && w.rows[..|s.rows|] == s.rows
                  && forall k :: 0 <= k < |leaves| ==>
                       HasAll(leaves[k], VetoColumns) && w.rows[|s.rows| + k].key == Restrict(leaves[k], VetoColumns))
    decreases |leaves|
  {
    if leaves != [] {
      var s1 := Step(veto, score(leaves[0]), s, leaves[0]);
      StepWhenOff(veto, score(leaves[0]), s, leaves[0]);
      var w := Walk(veto, score, s1, leaves[1..]);
      if s1.failure.Some? {
        WalkAfterFailure(veto, score, s1, leaves[1..]);
      } else {
        WalkInsertsEveryLeaf(veto, score, s1, leaves[1..]);
        if w.failure.None? {
          var n := |s.rows|;
          assert w.rows[..n] == w.rows[..n + 1][..n] == s1.rows[..n] == s.rows;
          assert w.rows[n] == s1.rows[n];
          forall k | 0 <= k < |leaves|
            ensures HasAll(leaves[k], VetoColumns) && w.rows[n + k].key == Restrict(leaves[k], VetoColumns)
          {
            if k > 0 {
              assert leaves[k] == leaves[1..][k - 1];
            }
          }
        }
      }
    }
  }

  /** While catching up, configurations already in the table are neither simulated nor
      inserted: they are only counted. */
  lemma {:induction false} WalkSkipsStored(veto: bool, score: Config -> Result<Score>, s: Progress, leaves: seq<Config>)
    requires s.catching && s.failure.None?
    requires forall l :: l in leaves ==> HasAll(l, Columns(veto)) && Found(s.rows, l, Columns(veto))
    ensures Walk(veto, score, s, leaves) == s.(nr := s.nr + |leaves|)
    decreases |leaves|
  {
    if leaves != [] {
      assert leaves[0] in leaves;
      assert forall l :: l in leaves[1..] ==> l in leaves;
      WalkSkipsStored(veto, score, s.(nr := s.nr + 1), leaves[1..]);
    }
  }

  /** The first configuration missing from the table ends catching up: it is handled exactly
      as if catching up had already been off. */
  lemma MissEndsCatchingUp(veto: bool, score: Result<Score>, s: Progress, leaf: Config)
    requires s.catching && s.failure.None?
    requires HasAll(leaf, Columns(veto)) && !Found(s.rows, leaf, Columns(veto))
    ensures Step(veto, score, s, leaf) == Step(veto, score, s.(catching := false), leaf)
    ensures !Step(veto, score, s, leaf).catching
  {
  }

  /** A simulated leaf with well-formed scoring constants inserts one row holding its nine
      indexes, li = the largest deviation and l2 = the sum of squared deviations. */
  lemma SimulatedLeafInsertsOneRow(job: GridJob, params: Params, s: Progress, leaf: Config)
    requires !s.catching && s.failure.None? && WellFormed(job.sc) && HasAll(leaf, VetoColumns)
    ensures var score := Simulated(job, params);
            && score.Ok?
            && Step(job.veto, score, s, leaf)
               == Progress(s.rows + [GridRow(Restrict(leaf, VetoColumns), score.value.li, score.value.l2)], s.nr + 1, false, None)
            && score.value.li >= 0.0 && Sq(score.value.li) <= score.value.l2
  {
    var p := Traces(job.sim, SimProtocol(job.prot), job.sc.nrtraces, params);
    WellFormedEvaluates(job.sc, p);
    EvaluateBounds(job.sc, p);
  }

  /** The insert reads `b_theta` and `tau_theta` even for a Claire_noveto table, so a
      noveto configuration that has to be simulated raises KeyError and inserts nothing. */
  lemma NovetoInsertRaisesKeyError(job: GridJob, params: Params, s: Progress, leaf: Config)
    requires !s.catching && s.failure.None? && WellFormed(job.sc)
    requires leaf.Keys == set p | p in NovetoColumns
    ensures Step(job.veto, Simulated(job, params), s, leaf) == Progress(s.rows, s.nr, false, Some(KeyError))
  {
    var p := Traces(job.sim, SimProtocol(job.prot), job.sc.nrtraces, params);
    WellFormedEvaluates(job.sc, p);
    assert BTheta !in leaf;
  }

  /*********************************************************************************
   * gridrecursion
   *********************************************************************************/

  /** The traversal `gridrecursion` performs from `names[0]` with the given dicts. */
  function Traversal(job: GridJob, names: seq<Param>, indexes: Config, parameters: Params, s: Progress): Progress
    requires Covers(job.space, names)
  {
    Walk(job.veto, LeafScores(job, parameters, names), s, Enumerate(names, job.space, 1, indexes))
  }

  /** `gridrecursion(pi, pnames, indexes, grid_params, parameters, ...)`: the loop over the
      values of `pnames[pi]`. The dicts are values here, so the caller's `indexes` and
      `parameters` cannot change. */
  method GridRecursion(pi: nat, pnames: seq<Param>, indexes: Config, parameters: Params, job: GridJob,
                       table: GridTable, nr: int, catching: bool) returns (r: Result<(int, bool)>)
    requires pi < |pnames| && Covers(job.space, pnames[pi..])
    modifies table
    ensures GridCentres(Letzkus, job.rule).Err? ==>
              && table.rows == old(table.rows)
              && r == if AxisCount(job.space[pnames[pi]], 1) == 0 then Ok((nr, catching))
                      else Err(GridCentres(Letzkus, job.rule).error)
    ensures GridCentres(Letzkus, job.rule).Ok? ==>
              var w := Traversal(job, pnames[pi..], indexes, parameters, Progress(old(table.rows), nr, catching, None));
              table.rows == w.rows && r == Outcome(w)
    decreases |pnames| - pi, 1
  {
    var a := job.space[pnames[pi]];
    var count, caught := nr, catching;
    ghost var score := LeafScores(job, parameters, pnames[pi..]);
    ghost var total := Traversal(job, pnames[pi..], indexes, parameters, Progress(old(table.rows), nr, catching, None));
    TraversalSweeps(job, pnames, pi, indexes, parameters, Progress(old(table.rows), nr, catching, None));
    for i := 0 to AxisCount(a, 1)
      invariant GridCentres(Letzkus, job.rule).Err? ==>
                  i == 0 && table.rows == old(table.rows) && count == nr && caught == catching
      invariant GridCentres(Letzkus, job.rule).Ok? ==>
                  Walk(job.veto, score, Progress(table.rows, count, caught, None),
                       Sweep(pnames[pi..], job.space, 1, indexes, i)) == total
    {
      SweepStep(job, pnames, pi, indexes, parameters, i, Progress(table.rows, count, caught, None));
      var step := GridIteration(pi, pnames, indexes, parameters, job, table, count, caught, i);
      if step.Err? {
        return step;
      }
      count, caught := step.value.0, step.value.1;
    }
    SweepStep(job, pnames, pi, indexes, parameters, AxisCount(a, 1), Progress(table.rows, count, caught, None));
    return Ok((count, caught));
  }

  /** The traversal from `pnames[pi]` is the loop over its values from the first. */
  lemma TraversalSweeps(job: GridJob, pnames: seq<Param>, pi: nat, indexes: Config, parameters: Params, s: Progress)
    requires pi < |pnames| && Covers(job.space, pnames[pi..])
    ensures Traversal(job, pnames[pi..], indexes, parameters, s)
            == Walk(job.veto, LeafScores(job, parameters, pnames[pi..]), s, Sweep(pnames[pi..], job.space, 1, indexes, 0))
  {
  }

  /** Iteration `i` of the loop at `pnames[pi]`: its subtree, then the remaining iterations;
      an exception inside the subtree ends the loop, and after the last value nothing is left. */
  lemma SweepStep(job: GridJob, pnames: seq<Param>, pi: nat, indexes: Config, parameters: Params, i: nat, s: Progress)
    requires pi < |pnames| && Covers(job.space, pnames[pi..])
    ensures var a := job.space[pnames[pi]];
            var score := LeafScores(job, parameters, pnames[pi..]);
            var sweep := Walk(job.veto, score, s, Sweep(pnames[pi..], job.space, 1, indexes, i));
            && (i >= AxisCount(a, 1) ==> sweep == s)
            && (i < AxisCount(a, 1) ==>
                  var here := Enumerate(pnames[pi + 1..], job.space, 1, indexes[pnames[pi] := AxisValue(a, 1, i)]);
                  var mid := Walk(job.veto, score, s, here);
                  sweep == if mid.failure.Some? then mid
                           else Walk(job.veto, score, mid, Sweep(pnames[pi..], job.space, 1, indexes, i + 1)))
  {
    var names := pnames[pi..];
    assert names[0] == pnames[pi] && names[1..] == pnames[pi + 1..];
    if i < AxisCount(job.space[pnames[pi]], 1) {
      SweepSplits(job.veto, LeafScores(job, parameters, names), names, job.space, indexes, i, s);
    }
  }

  /** Iteration `i` of the loop of `gridrecursion`: set `pnames[pi]` to its `i`-th grid value in
      `idxs` and `pmts` (the source overwrites that one key of its copies in place), then
      recurse into the next parameter or handle the leaf. */
  method GridIteration(pi: nat, pnames: seq<Param>, indexes: Config, parameters: Params, job: GridJob,
                       table: GridTable, nr: int, catching: bool, i: nat) returns (r: Result<(int, bool)>)
    requires pi < |pnames| && Covers(job.space, pnames[pi..]) && i < AxisCount(job.space[pnames[pi]], 1)
    modifies table
    ensures GridCentres(Letzkus, job.rule).Err? ==>
              table.rows == old(table.rows) && r == Err(GridCentres(Letzkus, job.rule).error)
    ensures GridCentres(Letzkus, job.rule).Ok? ==>
              var here := Enumerate(pnames[pi + 1..], job.space, 1,
                                    indexes[pnames[pi] := AxisValue(job.space[pnames[pi]], 1, i)]);
              var w := Walk(job.veto, LeafScores(job, parameters, pnames[pi..]),
                            Progress(old(table.rows), nr, catching, None), here);
              table.rows == w.rows && r == Outcome(w)
    decreases |pnames| - pi, 0
  {
    var pname := pnames[pi];
    var idxs := indexes[pname := AxisValue(job.space[pname], 1, i)];
    var value := GridCodec(pname, TickValue(idxs[pname], job.g), job.rule, Letzkus);
    if value.Err? {
      return Err(value.error);
    }
    GridCodecAcceptsOnlyVeto(pname, TickValue(idxs[pname], job.g), job.rule);
    var pmts := parameters[pname := value.value];
    if pi < |pnames| - 1 {
      r := GridRecursion(pi + 1, pnames, idxs, pmts, job, table, nr, catching);
      SubtreeTraversal(job, pnames, pi, indexes, parameters, idxs, pmts, i, Progress(old(table.rows), nr, catching, None));
    } else {
      r := VisitLeaf(job, pmts, idxs, table, nr, catching);
      LeafTraversal(job, pnames, pi, indexes, parameters, idxs, pmts, i, Progress(old(table.rows), nr, catching, None));
    }
  }

  /** The recursion into `pnames[pi + 1..]` with `pnames[pi]` fixed in both dicts walks the
      leaves of that iteration as the whole traversal scores them. */
  lemma SubtreeTraversal(job: GridJob, pnames: seq<Param>, pi: nat, indexes: Config, parameters: Params,
                         idxs: Config, pmts: Params, i: nat, s: Progress)
    requires pi < |pnames| - 1 && Covers(job.space, pnames[pi..])
    requires idxs == indexes[pnames[pi] := AxisValue(job.space[pnames[pi]], 1, i)]
    requires pmts == parameters[pnames[pi] := VetoValue(LetzkusCentres, pnames[pi], TickValue(idxs[pnames[pi]], job.g))]
    ensures Covers(job.space, pnames[pi + 1..])
    ensures Traversal(job, pnames[pi + 1..], idxs, pmts, s)
            == Walk(job.veto, LeafScores(job, parameters, pnames[pi..]), s, Enumerate(pnames[pi + 1..], job.space, 1, idxs))
  {
    var names := pnames[pi..];
    assert names[0] == pnames[pi] && names[1..] == pnames[pi + 1..];
    var v := idxs[pnames[pi]];
    SubtreeScores(job, parameters, names, indexes, v);
    assert indexes[names[0] := v] == idxs;
    WalkSameScores(job.veto, LeafScores(job, pmts, names[1..]), LeafScores(job, parameters, names), s,
                   Enumerate(names[1..], job.space, 1, idxs));
  }

  /** At the last parameter the one leaf is scored with `pmts`, the caller's values plus that
      parameter's codec value. */
  lemma LeafTraversal(job: GridJob, pnames: seq<Param>, pi: nat, indexes: Config, parameters: Params,
                      idxs: Config, pmts: Params, i: nat, s: Progress)
    requires pi == |pnames| - 1 && Covers(job.space, pnames[pi..])
    requires idxs == indexes[pnames[pi] := AxisValue(job.space[pnames[pi]], 1, i)]
    requires pmts == parameters[pnames[pi] := VetoValue(LetzkusCentres, pnames[pi], TickValue(idxs[pnames[pi]], job.g))]
    ensures Walk(job.veto, LeafScores(job, parameters, pnames[pi..]), s, Enumerate(pnames[pi + 1..], job.space, 1, idxs))
            == Step(job.veto, Simulated(job, pmts), s, idxs)
  {
    var pname := pnames[pi];
    assert pnames[pi..] == [pname] && pnames[pi + 1..] == [];
    assert LeafParams(parameters, idxs, [pname], job.g) == pmts;
  }

  /** The innermost level of `gridrecursion` (src/gridsearch.py:268-322): while catching up,
      a configuration found in the table is only counted; otherwise the traces are simulated,
      scored, and inserted as a row. */
  method VisitLeaf(job: GridJob, pmts: Params, idxs: Config, table: GridTable, nr: int, catching: bool)
    returns (r: Result<(int, bool)>)
    modifies table
    ensures var t := Step(job.veto, Simulated(job, pmts), Progress(old(table.rows), nr, catching, None), idxs);
            table.rows == t.rows && r == Outcome(t)
  {
    var caught := catching;
    var cols := Columns(job.veto);
    if caught {
      if !HasAll(idxs, cols) {
        return Err(KeyError);
      }
      if !Found(table.rows, idxs, cols) {
        caught := false;
      }
    }
    if !caught {
      var p := SimulateTraces(job.sim, SimProtocol(job.prot), job.sc.nrtraces, pmts);
      SimulateTracesIsTraces(job.sim, SimProtocol(job.prot), job.sc.nrtraces, pmts, p);
      var score := Evaluate(job.sc, p);
      if score == Err(IndexError) {
        return Err(IndexError);
      }
      if !HasAll(idxs, VetoColumns) {
        return Err(KeyError);
      }
      if score.Err? {
        return Err(score.error);
      }
      table.Insert(GridRow(Restrict(idxs, VetoColumns), score.value.li, score.value.l2));
    }
    return Ok((nr + 1, caught));
  }

  /** `main(protocol_type, plasticity, veto, granularity, split, jid)` of src/gridsearch.py:
      protocol constants, initialisation, then the recursion from the first parameter with
      `nr = 0` and catching up on. Returns what the recursion returns (main itself discards
      it and returns 0). */
  method GridMain(prot: Protocol, rule: Rule, g: nat, split: bool, jid: int, sim: Simulator, table: GridTable)
    returns (r: Result<(int, bool)>)
    modifies table
    ensures prot == OtherProtocol ==> r == Err(ValueError) && table.rows == old(table.rows)
    ensures prot != OtherProtocol && rule == ClaireNoveto ==>
              r == Err(if split && g != 0 && g != 1 then ValueError else NotImplementedError) && table.rows == old(table.rows)
    ensures prot != OtherProtocol && rule == ClaireVeto && g != 1 && g != 3 ==>
              r == Err(NotImplementedError) && table.rows == old(table.rows)
    ensures prot != OtherProtocol && rule.plasticity != Claire ==>
              r == Err(if split then NotImplementedError else ValueError) && table.rows == old(table.rows)
    ensures prot != OtherProtocol && rule == ClaireVeto && (g == 1 || g == 3) ==>
              var init := VetoInit(g, split, jid);
              var job := GridJob(init.space, g, rule, true, prot, GridScoring(prot).value, sim);
              && Covers(init.space, init.names)
              && var w := Traversal(job, init.names, init.indexes, init.parameters, Progress(old(table.rows), 0, true, None));
                 table.rows == w.rows && r == Outcome(w)
  {
    var sc := GridScoring(prot);
    if sc.Err? {
      return Err(sc.error);
    }
    var init := InitParams(g, split, rule, jid);
    if init.Err? {
      return Err(init.error);
    }
    VetoInitStartsAtLowerBounds(g, split, jid);
    var job := GridJob(init.value.space, g, rule, rule.veto, prot, sc.value, sim);
    assert init.value.names[0..] == init.value.names;
    r := GridRecursion(0, init.value.names, init.value.indexes, init.value.parameters, job, table, 0, true);
  }

  /** A completed traversal counts every grid point: the final `nr` is the product of the
      axis counts of the varied parameters, the traversal visits every point once, in
      nested-loop order, and the rows it inserts follow the table's existing rows. With
      `VetoInitStartsAtLowerBounds` this covers every Claire_veto run of `GridMain`. */
  lemma TraversalVisitsEveryPoint(job: GridJob, names: seq<Param>, indexes: Config, parameters: Params, s: Progress)
    requires Covers(job.space, names) && Distinct(names) && s.failure.None?
    ensures var leaves := Enumerate(names, job.space, 1, indexes);
            var w := Traversal(job, names, indexes, parameters, s);
            && |leaves| == Product(names, job.space, 1)
            && Distinct(leaves)
            && (forall l :: l in leaves ==> HasAll(l, names))
            && LexSorted(leaves, names)
            && (w.failure.None? ==> w.nr == s.nr + Product(names, job.space, 1))
            && |s.rows| <= |w.rows| && w.rows[..|s.rows|] == s.rows
  {
    var leaves := Enumerate(names, job.space, 1, indexes);
    EnumerateLength(names, job.space, 1, indexes);
    EnumerateNoRepeats(names, job.space, 1, indexes);
    EnumerateSorted(names, job.space, 1, indexes);
    WalkCounts(job.veto, LeafScores(job, parameters, names), s, leaves);
    WalkKeepsRows(job.veto, LeafScores(job, parameters, names), s, leaves);
  }
}
