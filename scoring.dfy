/** Turning simulated trace plasticities into losses, as every search script does:
    the optional Brandalise 24-to-18 trace mixing, the absolute deviation of each
    neuron's predicted weight change from its target, and the losses li (maximum
    deviation) and l2 (sum of squared deviations). */
module Loss {
  import opened Common
  import opened Codec

  /** `simulate(protocol, trace, parameters)`: the plasticity of one trace. The brian2
      simulation behind it is opaque; it is deterministic in its arguments. */
  type Simulator = (Protocol, nat, Params) -> real

  /** The protocol-specific constants a script sets up before searching: number of traces
      to simulate, number of neurons scored, repetitions, targets, and whether the
      Brandalise mixing applies. */
  datatype Scoring = Scoring(nrtraces: nat, nrneurons: nat, repets: real, targets: seq<real>, mixed: bool)

  /** The two losses stored per configuration. */
  datatype Score = Score(li: real, l2: real)

  const LetzkusTargets: seq<real> := [92.0, 129.0, 90.0, 100.0, 118.0, 100.0, 137.0, 85.0, 100.0]

  const BrandaliseTargets: seq<real> :=
    [100.0, 144.8, 96.6, 122.0, 101.4, 95.5, 128.7, 101.1, 94.5,
     100.0, 131.0, 96.6, 100.0, 119.3, 104.5, 104.3, 40.0, 40.0]

  const BrandaliseScoring := Scoring(24, 18, 60.0, BrandaliseTargets, true)

  /** Grid search: any protocol whose first ten characters are 'Brandalise' is mixed; the
      Letzkus run scores nine traces. */
  function GridScoring(prot: Protocol): Result<Scoring>
  {
    match prot
    case Brandalise => Ok(BrandaliseScoring)
    case Brandaliseb => Ok(BrandaliseScoring)
    case Letzkus => Ok(Scoring(9, 9, 150.0, LetzkusTargets, false))
    case OtherProtocol => Err(ValueError)
  }

  /** Monte-Carlo search: only the exact name 'Brandalise' is recognised, and the Letzkus run
      scores a tenth trace with target 78. */
  function MonteScoring(prot: Protocol): Result<Scoring>
  {
    match prot
    case Brandalise => Ok(BrandaliseScoring)
    case Letzkus => Ok(Scoring(10, 10, 150.0, LetzkusTargets + [78.0], false))
    case _ => Err(ValueError)
  }

  /** Sample search: only the exact names 'Brandalise' and 'Letzkus'. */
  function SampleScoring(prot: Protocol): (r: Result<Scoring>)
    ensures r.Ok? <==> prot == Brandalise || prot == Letzkus
    ensures r.Ok? ==> WellFormed(r.value) && (r.value.mixed <==> prot == Brandalise)
    ensures r.Ok? ==> r.value.nrneurons == (if prot == Brandalise then 18 else 9)
  {
    match prot
    case Brandalise => Ok(BrandaliseScoring)
    case Letzkus => Ok(Scoring(9, 9, 150.0, LetzkusTargets, false))
    case _ => Err(ValueError)
  }

  /** The constants fit together: mixing has its 24 traces, and every scored neuron has a
      trace outcome and a target. */
  predicate WellFormed(sc: Scoring)
  {
    && 0 < sc.nrneurons <= |sc.targets|
    && (sc.mixed ==> sc.nrtraces >= 24 && sc.nrneurons <= 18)
    && (!sc.mixed ==> sc.nrneurons <= sc.nrtraces)
  }

  /** Every protocol table any of the three scripts accepts is well formed. */
  lemma ScoringTablesWellFormed(prot: Protocol)
    ensures GridScoring(prot).Ok? ==> WellFormed(GridScoring(prot).value)
    ensures MonteScoring(prot).Ok? ==> WellFormed(MonteScoring(prot).value)
    ensures SampleScoring(prot).Ok? ==> WellFormed(SampleScoring(prot).value)
    ensures GridScoring(prot).Err? <==> prot == OtherProtocol
    ensures MonteScoring(prot).Ok? <==> prot in {Brandalise, Letzkus}
  {
  }

  /** The plasticities of traces 0 .. n-1, as the simulation loop fills them in. */
  function Traces(sim: Simulator, prot: Protocol, n: nat, params: Params): (p: seq<real>)
    ensures |p| == n
  {
    seq(n, t requires 0 <= t < n => sim(prot, t, params))
  }

  /** `p = [0] * nrtraces; for t in range(nrtraces): p[t], _ = simulate(prot, t, parameters)`. */
  method SimulateTraces(sim: Simulator, prot: Protocol, n: nat, params: Params) returns (p: seq<real>)
    ensures |p| == n
    ensures forall t :: 0 <= t < n ==> p[t] == sim(prot, t, params)
  {
    var a := new real[n](_ => 0.0);
    for t := 0 to n
      invariant forall k :: 0 <= k < t ==> a[k] == sim(prot, k, params)
    {
      a[t] := sim(prot, t, params);
    }
    p := a[..];
  }

  lemma SimulateTracesIsTraces(sim: Simulator, prot: Protocol, n: nat, params: Params, p: seq<real>)
    requires |p| == n && forall t :: 0 <= t < n ==> p[t] == sim(prot, t, params)
    ensures p == Traces(sim, prot, n, params)
  {
  }

  /** The Brandalise mixing: supralinear and linear responses of six neurons are blended
      with fixed weights, the other twelve traces pass through. */
  function Mix(p: seq<real>): (m: seq<real>)
    requires |p| >= 24
    ensures |m| == 18
  {
    [p[0], 0.78 * p[1] + 0.22 * p[2], p[3], 0.8 * p[4] + 0.2 * p[5], p[6], p[7],
     0.85 * p[8] + 0.15 * p[9], p[10], p[11], p[12], 0.81 * p[13] + 0.19 * p[14], p[15], p[16],
     0.84 * p[17] + 0.16 * p[18], p[19], p[20], 0.85 * p[21] + 0.15 * p[22], p[23]]
  }

  /** One output of the mixing: a trace copied, or two consecutive traces blended. */
  datatype MixTerm = Single(i: nat) | Pair(i: nat, j: nat, wi: real, wj: real)

  /** The mixing written as data, one term per scored neuron. */
  const BrandalisePlan: seq<MixTerm> :=
    [Single(0), Pair(1, 2, 0.78, 0.22), Single(3), Pair(4, 5, 0.8, 0.2), Single(6), Single(7),
     Pair(8, 9, 0.85, 0.15), Single(10), Single(11), Single(12), Pair(13, 14, 0.81, 0.19), Single(15),
     Single(16), Pair(17, 18, 0.84, 0.16), Single(19), Single(20), Pair(21, 22, 0.85, 0.15), Single(23)]

  /** The traces a term reads. */
  function TermSources(t: MixTerm): seq<nat>
  {
    match t
    case Single(i) => [i]
    case Pair(i, j, _, _) => [i, j]
  }

  /** The traces read by terms k, k+1, ... of a plan, in order. */
  function SourcesFrom(plan: seq<MixTerm>, k: nat): seq<nat>
    decreases |plan| - k
  {
    if k >= |plan| then [] else TermSources(plan[k]) + SourcesFrom(plan, k + 1)
  }

  /** The last trace a term reads. */
  function Last(t: MixTerm): nat
  {
    match t
    case Single(i) => i
    case Pair(_, j, _, _) => j
  }

  /** The terms read consecutive runs of traces: the first starts at trace 0, each pair reads
      two neighbouring traces, each term starts right after the previous one ends, and the
      last ends at trace n-1. */
  predicate Tiles(plan: seq<MixTerm>, n: nat)
  {
    && |plan| > 0 && plan[0].i == 0 && Last(plan[|plan| - 1]) + 1 == n
    && (forall k :: 0 <= k < |plan| && plan[k].Pair? ==> plan[k].j == plan[k].i + 1)
    && (forall k :: 0 <= k < |plan| - 1 ==> plan[k + 1].i == Last(plan[k]) + 1)
  }

  /** A tiling plan reads every trace from its current start to n-1 exactly once, in order. */
  lemma {:induction false} TilesSources(plan: seq<MixTerm>, n: nat, k: nat)
    requires Tiles(plan, n) && k < |plan|
    ensures plan[k].i < n
    ensures |SourcesFrom(plan, k)| == n - plan[k].i
    ensures forall x :: 0 <= x < n - plan[k].i ==> SourcesFrom(plan, k)[x] == plan[k].i + x
    decreases |plan| - k
  {
    var t := plan[k];
    if k == |plan| - 1 {
      assert SourcesFrom(plan, k + 1) == [];
    } else {
      TilesSources(plan, n, k + 1);
      var rest := SourcesFrom(plan, k + 1);
      var head := TermSources(t);
      assert SourcesFrom(plan, k) == head + rest;
      forall x | 0 <= x < n - t.i
        ensures (head + rest)[x] == t.i + x
      {
        if x >= |head| {
          assert (head + rest)[x] == rest[x - |head|];
        }
      }
    }
  }

  /** Every blend has positive weights summing to 1. */
  predicate ConvexWeights(plan: seq<MixTerm>)
  {
    forall k :: 0 <= k < |plan| ==> Convex(plan[k])
  }

  predicate Convex(t: MixTerm)
  {
    t.Pair? ==> t.wi > 0.0 && t.wj > 0.0 && t.wi + t.wj == 1.0
  }

  function Apply(t: MixTerm, p: seq<real>): real
    requires |p| >= 24 && t.i < 24 && (t.Pair? ==> t.j < 24)
  {
    match t
    case Single(i) => p[i]
    case Pair(i, j, wi, wj) => wi * p[i] + wj * p[j]
  }

  /** Every one of the 24 traces feeds exactly one scored neuron, in trace order, and every
      blend is a convex combination (positive weights summing to 1). */
  lemma BrandalisePlanIsPartition()
    ensures |BrandalisePlan| == 18 && Tiles(BrandalisePlan, 24)
    ensures |SourcesFrom(BrandalisePlan, 0)| == 24
    ensures forall x :: 0 <= x < 24 ==> SourcesFrom(BrandalisePlan, 0)[x] == x
  {
    var P := BrandalisePlan;
    assert P[1].i == Last(P[0]) + 1;
    assert P[2].i == Last(P[1]) + 1;
    assert P[3].i == Last(P[2]) + 1;
    assert P[4].i == Last(P[3]) + 1;
    assert P[5].i == Last(P[4]) + 1;
    assert P[6].i == Last(P[5]) + 1;
    assert P[7].i == Last(P[6]) + 1;
    assert P[8].i == Last(P[7]) + 1;
    assert P[9].i == Last(P[8]) + 1;
    assert P[10].i == Last(P[9]) + 1;
    assert P[11].i == Last(P[10]) + 1;
    assert P[12].i == Last(P[11]) + 1;
    assert P[13].i == Last(P[12]) + 1;
    assert P[14].i == Last(P[13]) + 1;
    assert P[15].i == Last(P[14]) + 1;
    assert P[16].i == Last(P[15]) + 1;
    assert P[17].i == Last(P[16]) + 1;
    assert Tiles(P, 24);
    TilesSources(P, 24, 0);
  }

  /** Every term of the plan reads traces below 24 and blends with convex weights. */
  lemma BrandalisePlanWeights()
    ensures forall k :: 0 <= k < 18 ==> BrandalisePlan[k].i < 24 && Last(BrandalisePlan[k]) < 24
    ensures ConvexWeights(BrandalisePlan)
  {
    var P := BrandalisePlan;
    assert Convex(P[0]);
    assert Convex(P[1]);
    assert Convex(P[2]);
    assert Convex(P[3]);
    assert Convex(P[4]);
    assert Convex(P[5]);
    assert Convex(P[6]);
    assert Convex(P[7]);
    assert Convex(P[8]);
    assert Convex(P[9]);
    assert Convex(P[10]);
    assert Convex(P[11]);
    assert Convex(P[12]);
    assert Convex(P[13]);
    assert Convex(P[14]);
    assert Convex(P[15]);
    assert Convex(P[16]);
    assert Convex(P[17]);
  }

  /** The mixing computes exactly the plan, term by term. */
  lemma MixFollowsPlan(p: seq<real>)
    requires |p| >= 24
    ensures forall k :: 0 <= k < 18 ==> Mix(p)[k] == Apply(BrandalisePlan[k], p)
  {
  }

  lemma ConvexPair(x: real, y: real, wx: real, wy: real, lo: real, hi: real)
    requires lo <= x <= hi && lo <= y <= hi && wx > 0.0 && wy > 0.0 && wx + wy == 1.0
    ensures lo <= wx * x + wy * y <= hi
  {
    ConvexAbove(x, y, wx, wy, lo);
    ConvexAbove(-x, -y, wx, wy, -hi);
    NegateFactor(wx, x);
    NegateFactor(wy, y);
  }

  lemma NegateFactor(a: real, b: real)
    ensures a * -b == -(a * b)
  {
  }

  /** A convex combination of two numbers at least `lo` is at least `lo`. */
  lemma ConvexAbove(x: real, y: real, wx: real, wy: real, lo: real)
    requires lo <= x && lo <= y && wx > 0.0 && wy > 0.0 && wx + wy == 1.0
    ensures lo <= wx * x + wy * y
  {
    ScaleMonotone(wx, lo, x);
    ScaleMonotone(wy, lo, y);
    WeightsSumToOne(wx, wy, lo);
    var xl := wx * lo;
    var yl := wy * lo;
    var xx := wx * x;
    var yy := wy * y;
    assert xl <= xx;
    assert yl <= yy;
    assert xl + yl == lo;
  }

  lemma WeightsSumToOne(wx: real, wy: real, c: real)
    requires wx + wy == 1.0
    ensures wx * c + wy * c == c
  {
    assert wy * c == (1.0 - wx) * c;
  }

  /** Mixing is a weighted average: each mixed outcome lies between the smallest and the
      largest trace outcome. */
  lemma MixIsConvex(p: seq<real>, lo: real, hi: real)
    requires |p| >= 24 && forall i :: 0 <= i < 24 ==> lo <= p[i] <= hi
    ensures forall k :: 0 <= k < 18 ==> lo <= Mix(p)[k] <= hi
  {
    MixFollowsPlan(p);
    BrandalisePlanWeights();
    forall k | 0 <= k < 18
      ensures lo <= Mix(p)[k] <= hi
    {
      var t := BrandalisePlan[k];
      assert Convex(t);
      if t.Pair? {
        ConvexPair(p[t.i], p[t.j], t.wi, t.wj, lo, hi);
      }
    }
  }

  /** Traces that all have the same outcome mix to that outcome for every neuron. */
  lemma MixKeepsConstant(p: seq<real>, c: real)
    requires |p| >= 24 && forall i :: 0 <= i < 24 ==> p[i] == c
    ensures Mix(p) == seq(18, _ => c)
  {
    MixIsConvex(p, c, c);
  }

  function Abs(x: real): (r: real)
    ensures r >= 0.0 && (r == x || r == -x)
  {
    if x < 0.0 then -x else x
  }

  /** |target - 100 (1 + repets p)|: the predicted weight change in percent, against the target. */
  function Deviation(target: real, repets: real, pl: real): (r: real)
    ensures r >= 0.0
    ensures r == 0.0 <==> target == 100.0 * (1.0 + repets * pl)
  {
    Abs(target - 100.0 * (1.0 + repets * pl))
  }

  /** `differences = [abs(targets[t] - 100 * (1 + repets * p[t])) for t in range(nrneurons)]`. */
  function Differences(sc: Scoring, m: seq<real>): (d: seq<real>)
    requires sc.nrneurons <= |m| && sc.nrneurons <= |sc.targets|
    ensures |d| == sc.nrneurons
    ensures forall t :: 0 <= t < |d| ==> d[t] == Deviation(sc.targets[t], sc.repets, m[t]) && d[t] >= 0.0
  {
    seq(sc.nrneurons, t requires 0 <= t < sc.nrneurons => Deviation(sc.targets[t], sc.repets, m[t]))
  }

  /** Python's `max` of a non-empty list. */
  function MaxOf(d: seq<real>): real
    requires |d| > 0
  {
    if |d| == 1 then d[0]
    else
      var rest := MaxOf(d[1..]);
      if d[0] >= rest then d[0] else rest
  }

  /** `max` returns one of the list's elements, and none is larger. */
  lemma {:induction false} MaxOfIsLargest(d: seq<real>)
    requires |d| > 0
    ensures MaxOf(d) in d
    ensures forall x :: x in d ==> x <= MaxOf(d)
  {
    if |d| > 1 {
      MaxOfIsLargest(d[1..]);
      assert forall x :: x in d ==> x == d[0] || x in d[1..];
    }
  }

  function Sq(x: real): real
  {
    x * x
  }

  /** `sum([x ** 2 for x in d])`. */
  function SumSquares(d: seq<real>): real
  {
    if d == [] then 0.0 else Sq(d[0]) + SumSquares(d[1..])
  }

  /** The scored outcomes: mixed for the Brandalise protocols, as simulated otherwise. */
  function Mixed(sc: Scoring, p: seq<real>): (m: seq<real>)
    requires sc.mixed ==> |p| >= 24
    ensures sc.mixed ==> m == Mix(p)
    ensures !sc.mixed ==> m == p
  {
    if sc.mixed then Mix(p) else p
  }

  /** Scoring one configuration from its trace outcomes, with the exceptions Python raises
      when the constants do not fit: an index past the end of a list, or `max` of nothing. */
  function Evaluate(sc: Scoring, p: seq<real>): Result<Score>
  {
    if sc.mixed && |p| < 24 then Err(IndexError)
    else
      var m := Mixed(sc, p);
      if sc.nrneurons > |m| || sc.nrneurons > |sc.targets| then Err(IndexError)
      else if sc.nrneurons == 0 then Err(ValueError)
      else
        var d := Differences(sc, m);
        Ok(Score(MaxOf(d), SumSquares(d)))
  }

  /** A well-formed table scores every full set of trace outcomes. */
  lemma WellFormedEvaluates(sc: Scoring, p: seq<real>)
    requires WellFormed(sc) && |p| == sc.nrtraces
    ensures Evaluate(sc, p).Ok?
  {
  }

  /** A non-empty sum of squares is at least the square of its largest term. */
  lemma {:induction false} SumSquaresBounds(d: seq<real>)
    requires |d| > 0 && forall x :: x in d ==> x >= 0.0
    ensures 0.0 <= Sq(MaxOf(d)) <= SumSquares(d)
  {
    if |d| == 1 {
      assert d[1..] == [];
      assert MaxOf(d) == d[0];
      assert SumSquares(d) == Sq(d[0]);
    } else {
      var tail := d[1..];
      assert forall x :: x in tail ==> x in d;
      SumSquaresBounds(tail);
      MaxOfIsLargest(tail);
      var mr := MaxOf(tail);
      SquareNonNegative(d[0]);
      assert MaxOf(d) == (if d[0] >= mr then d[0] else mr);
      assert SumSquares(d) == Sq(d[0]) + SumSquares(tail);
    }
  }

  lemma SquareNonNegative(x: real)
    ensures Sq(x) >= 0.0
  {
  }

  lemma ScaleMonotone(c: real, a: real, b: real)
    requires c >= 0.0 && a <= b
    ensures c * a <= c * b
  {
  }

  /** The two losses of a non-empty list of deviations: li is one of them and bounds them
      all, li >= 0, and li² <= l2. */
  lemma LossBounds(d: seq<real>)
    requires |d| > 0 && forall t :: 0 <= t < |d| ==> d[t] >= 0.0
    ensures MaxOf(d) >= 0.0
    ensures exists t :: 0 <= t < |d| && MaxOf(d) == d[t]
    ensures forall t :: 0 <= t < |d| ==> d[t] <= MaxOf(d)
    ensures Sq(MaxOf(d)) <= SumSquares(d)
  {
    assert d[0] in d;
    SumSquaresBounds(d);
    MaxOfIsLargest(d);
    var t :| t in d && t == MaxOf(d);
    var i :| 0 <= i < |d| && d[i] == t;
  }

  /** What a successful evaluation stores: li is the largest deviation over the scored
      neurons (so non-negative), and li² <= l2. */
  lemma EvaluateBounds(sc: Scoring, p: seq<real>)
    requires Evaluate(sc, p).Ok?
    ensures var s := Evaluate(sc, p).value;
            var m := Mixed(sc, p);
            && s.li >= 0.0
            && (exists t :: 0 <= t < sc.nrneurons && s.li == Deviation(sc.targets[t], sc.repets, m[t]))
            && (forall t :: 0 <= t < sc.nrneurons ==> Deviation(sc.targets[t], sc.repets, m[t]) <= s.li)
            && Sq(s.li) <= s.l2
  {
    var m := Mixed(sc, p);
    var d := Differences(sc, m);
    assert Evaluate(sc, p) == Ok(Score(MaxOf(d), SumSquares(d)));
    LossBounds(d);
  }
}
