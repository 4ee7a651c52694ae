/** The importance resampler of src/model_distribution.py. Job `j` takes its slice of a
    shuffled range of sample-space ids. It scores each sampled configuration by the best
    coarse-grid result among its corner neighbours, keeps the promising ones with a running
    cumulative weight `crp`, and finally rescales `crp` into a cumulative distribution. */
module Resampler {
  import opened Common
  import opened Codec

  /** The constants the script fixes for its one supported run. */
  datatype Settings = Settings(threshold: real, totnr: nat, nrsplits: nat)

  /** Lines 36-48: only granularity 1, protocol Letzkus and rule Claire_noveto are set up;
      `totnr` must split evenly between the jobs, and the merged sample space must exist. */
  function ResampleSettings(granularity: int, prot: Protocol, plas: Plasticity, veto: bool,
                            spaceExists: bool): (r: Result<Settings>)
    ensures r.Ok? <==> granularity == 1 && prot == Letzkus && plas == Claire && !veto && spaceExists
    ensures !(granularity == 1 && prot == Letzkus && plas == Claire && !veto) ==> r == Err(NotImplementedError)
    ensures r.Ok? ==> r.value.threshold == 3000.0 && r.value.nrsplits == 64
    ensures r.Ok? ==> r.value.totnr == r.value.nrsplits * 34300
  {
    if granularity == 1 && prot == Letzkus && plas == Claire && !veto then
      var s := Settings(3000.0, 2195200, 64);
      if s.totnr % s.nrsplits != 0 then Err(ValueError)
      else if !spaceExists then Err(EnvironmentError)
      else Ok(s)
    else Err(NotImplementedError)
  }

  /** Python list indexing: a negative position counts from the end. */
  function PyIndex(n: nat, i: int): int
  {
    if i < 0 then n + i else i
  }

  /** Positions lo .. lo+size-1 of `perm`, read with Python's indexing. */
  function Window(perm: seq<int>, lo: int, size: nat): (r: Result<seq<int>>)
    ensures r.Ok? <==> size == 0 || (-|perm| <= lo && lo + size <= |perm|)
    ensures r.Err? ==> r.error == IndexError
    ensures r.Ok? ==> |r.value| == size
  {
    if size > 0 && !(-|perm| <= lo && lo + size <= |perm|) then Err(IndexError)
    else Ok(seq(size, k requires 0 <= k < size => perm[PyIndex(|perm|, lo + k)]))
  }

  /** Lines 67-71: `[allids[i] for i in range(j*size, (j+1)*size)]`, where `allids` is the
      shuffled list `perm` and `size = totnr / nrsplits` (exact, as nrsplits divides totnr).
      A position outside -len .. len-1 raises IndexError. */
  function JobSamples(perm: seq<int>, j: int, size: nat): (r: Result<seq<int>>)
    ensures r.Ok? <==> size == 0 || (-|perm| <= j * size && j * size + size <= |perm|)
    ensures r.Err? ==> r.error == IndexError
    ensures r.Ok? ==> |r.value| == size
  {
    Window(perm, j * size, size)
  }

  lemma WindowAt(perm: seq<int>, lo: int, size: nat, k: int)
    requires Window(perm, lo, size).Ok? && 0 <= k < size
    ensures Window(perm, lo, size).value[k] == perm[PyIndex(|perm|, lo + k)]
  {
  }

  /** A window inside the list is a plain slice. */
  lemma WindowIsSlice(perm: seq<int>, lo: int, size: nat)
    requires 0 <= lo && lo + size <= |perm|
    ensures Window(perm, lo, size) == Ok(perm[lo .. lo + size])
  {
    var r := Window(perm, lo, size);
    forall k | 0 <= k < size ensures r.value[k] == perm[lo .. lo + size][k] {
      WindowAt(perm, lo, size, k);
    }
    assert r.value == perm[lo .. lo + size];
  }

  /** A window counted back from the end is the window that far from the end. */
  lemma WindowFromEnd(perm: seq<int>, lo: int, size: nat)
    requires -|perm| <= lo && lo + size <= 0
    ensures Window(perm, lo, size) == Window(perm, |perm| + lo, size)
  {
    var r := Window(perm, lo, size);
    var t := Window(perm, |perm| + lo, size);
    forall k | 0 <= k < size ensures r.value[k] == t.value[k] {
      WindowAt(perm, lo, size, k);
      WindowAt(perm, |perm| + lo, size, k);
    }
    assert r.value == t.value;
  }

  /** Windows that do not overlap share no element of a list without repeats. */
  lemma WindowsDisjoint(perm: seq<int>, lo: int, hi: int, size: nat)
    requires Distinct(perm) && 0 <= lo && lo + size <= hi && hi + size <= |perm|
    ensures Window(perm, lo, size).Ok? && Window(perm, hi, size).Ok?
    ensures forall x :: x in Window(perm, lo, size).value ==> x !in Window(perm, hi, size).value
  {
    var sl := Window(perm, lo, size).value;
    var sh := Window(perm, hi, size).value;
    forall x | x in sl
      ensures x !in sh
    {
      var a :| 0 <= a < size && sl[a] == x;
      WindowAt(perm, lo, size, a);
      forall b | 0 <= b < size ensures sh[b] != x {
        WindowAt(perm, hi, size, b);
      }
    }
  }

  lemma MulMonotone(a: int, b: int, size: nat)
    requires a <= b
    ensures a * size <= b * size
  {
  }

  /** Where job j of n starts, and that its slice fits in the list. */
  lemma JobBounds(n: nat, size: nat, j: int)
    requires 0 <= j < n
    ensures 0 <= j * size && j * size + size <= n * size
  {
    MulMonotone(j + 1, n, size);
    assert j * size + size == (j + 1) * size;
  }

  /** Job j of n takes exactly the positions j·size .. (j+1)·size - 1 of the shuffled list. */
  lemma JobSamplesSlice(perm: seq<int>, n: nat, size: nat, j: int)
    requires |perm| == n * size && 0 <= j < n
    ensures 0 <= j * size && j * size + size <= |perm|
    ensures JobSamples(perm, j, size) == Ok(perm[j * size .. j * size + size])
  {
    JobBounds(n, size, j);
    WindowIsSlice(perm, j * size, size);
  }

  /** Job id -1 wraps around to the end of the list: it takes the same slice as job n-1. */
  lemma MinusOneIsLastJob(perm: seq<int>, n: nat, size: nat)
    requires |perm| == n * size && n > 0
    ensures JobSamples(perm, -1, size) == JobSamples(perm, n - 1, size)
  {
    var m: int := size;
    assert (n - 1) * size + size == n * size;
    assert -1 * m == -m;
    WindowFromEnd(perm, -m, size);
  }

  /** Job ids from n on, and below -n, run off the list. */
  lemma JobSamplesOutOfRange(perm: seq<int>, n: nat, size: nat, j: int)
    requires |perm| == n * size && size > 0 && (j >= n || j + n < 0)
    ensures JobSamples(perm, j, size) == Err(IndexError)
  {
    if j >= n {
      MulMonotone(n, j, size);
    } else {
      var m: int := n;
      MulMonotone(j, -m - 1, size);
      assert (-m - 1) * size == -(m * size) - size;
    }
  }

  /** The shuffled `allids`: every id 0 .. totnr-1 exactly once. */
  predicate Shuffled(perm: seq<int>, totnr: nat)
  {
    && |perm| == totnr
    && Distinct(perm)
    && (forall i :: 0 <= i < |perm| ==> 0 <= perm[i] < totnr)
    && (forall id :: 0 <= id < totnr ==> id in perm)
  }

  /** Two different jobs never sample the same id. */
  lemma JobsDisjoint(perm: seq<int>, n: nat, size: nat, j: int, k: int)
    requires Distinct(perm) && |perm| == n * size && 0 <= j < k < n
    ensures JobSamples(perm, j, size).Ok? && JobSamples(perm, k, size).Ok?
    ensures forall x :: x in JobSamples(perm, j, size).value ==> x !in JobSamples(perm, k, size).value
  {
    JobBounds(n, size, j);
    JobBounds(n, size, k);
    MulMonotone(j + 1, k, size);
    assert j * size + size == (j + 1) * size;
    WindowsDisjoint(perm, j * size, k * size, size);
  }

  /** Together the n jobs sample every id of the shuffled list. */
  lemma JobsCover(perm: seq<int>, n: nat, size: nat, id: int)
    requires |perm| == n * size && id in perm
    ensures exists j :: 0 <= j < n && JobSamples(perm, j, size).Ok? && id in JobSamples(perm, j, size).value
  {
    var p :| 0 <= p < |perm| && perm[p] == id;
    assert size > 0;
    var j := p / size;
    var a := p % size;
    assert p == j * size + a;
    if j >= n {
      MulMonotone(n, j, size);
      assert false;
    }
    JobSamplesSlice(perm, n, size, j);
    assert perm[j * size .. j * size + size][a] == id;
  }

  /** A row of the coarse results table the neighbours are read from. */
  datatype CoarseRow = CoarseRow(key: Config, l2: real)

  /** A row of the per-job sample table: the configuration, its two losses (the sentinel until
      the sample search simulates it) and its cumulative weight. */
  datatype SampleRow = SampleRow(key: Config, li: real, l2: real, crp: real)

  /** `spacetab.find_one(id=s)`: the merged sample space numbers its rows 1, 2, ... */
  function FindSpace(space: seq<Config>, id: int): (r: Option<Config>)
    ensures r.Some? <==> 1 <= id <= |space|
    ensures r.Some? ==> r.value == space[id - 1]
  {
    if 1 <= id <= |space| then Some(space[id - 1]) else None
  }

  /** Lines 91-101: the dataset library reads a list value `[a, b]` as `IN (a, b)`, so a
      coarse row is a neighbour only when every column sits exactly the half-step nh away
      from the sample, on either side: a corner cell of the window. */
  predicate Corner(key: Config, q: Config, cols: seq<Param>, nh: int)
  {
    forall c :: c in cols ==> c in key && c in q && (key[c] == q[c] - nh || key[c] == q[c] + nh)
  }

  /** `oldtab.find(...)`: the corner neighbours of q, in table order. */
  function Neighbours(coarse: seq<CoarseRow>, q: Config, cols: seq<Param>, nh: int): (ns: seq<CoarseRow>)
    ensures forall n :: n in ns <==> n in coarse && Corner(n.key, q, cols, nh)
  {
    if coarse == [] then []
    else (if Corner(coarse[0].key, q, cols, nh) then [coarse[0]] else []) + Neighbours(coarse[1..], q, cols, nh)
  }

  /** Lines 104-107 as a value: the threshold, lowered to each smaller neighbour l2 in turn. */
  function MinCapped(threshold: real, ns: seq<CoarseRow>): real
  {
    if ns == [] then threshold
    else
      var m := MinCapped(threshold, ns[..|ns| - 1]);
      if m > ns[|ns| - 1].l2 then ns[|ns| - 1].l2 else m
  }

  /** relprob is the minimum of the threshold and every neighbour l2: no larger than any of
      them, and equal to one of them. */
  lemma {:induction false} MinCappedIsMinimum(threshold: real, ns: seq<CoarseRow>)
    ensures MinCapped(threshold, ns) <= threshold
    ensures forall i :: 0 <= i < |ns| ==> MinCapped(threshold, ns) <= ns[i].l2
    ensures MinCapped(threshold, ns) == threshold ||
            exists i :: 0 <= i < |ns| && MinCapped(threshold, ns) == ns[i].l2
  {
    if ns != [] {
      var init := ns[..|ns| - 1];
      MinCappedIsMinimum(threshold, init);
      assert forall i :: 0 <= i < |init| ==> init[i] == ns[i];
    }
  }

  /** A sample is kept exactly when some neighbour scored below the threshold. */
  lemma KeptIffGoodNeighbour(threshold: real, ns: seq<CoarseRow>)
    ensures MinCapped(threshold, ns) < threshold <==> exists i :: 0 <= i < |ns| && ns[i].l2 < threshold
    ensures ns == [] ==> MinCapped(threshold, ns) == threshold
  {
    MinCappedIsMinimum(threshold, ns);
  }

  /** Lines 104-107: the minimum loop. */
  method RelProb(threshold: real, ns: seq<CoarseRow>) returns (relprob: real)
    ensures relprob == MinCapped(threshold, ns)
  {
    relprob := threshold;
    for i := 0 to |ns|
      invariant relprob == MinCapped(threshold, ns[..i])
    {
      assert ns[..i + 1][..i] == ns[..i];
      if relprob > ns[i].l2 {
        relprob := ns[i].l2;
      }
    }
    assert ns[..|ns|] == ns;
  }

  /** Lines 117 and 120: the stored configuration is the sample's, with `t1` lowered by nh. */
  function Shifted(q: Config, cols: seq<Param>, nh: int): (k: Config)
    requires HasAll(q, cols) && TauLowpass1 in q
    ensures forall c :: c in k <==> c in cols || c == TauLowpass1
    ensures forall c :: c in k && c != TauLowpass1 ==> k[c] == q[c]
    ensures k[TauLowpass1] == q[TauLowpass1] - nh
  {
    Restrict(q, cols)[TauLowpass1 := q[TauLowpass1] - nh]
  }

  /** What one job works on: the merged sample space, the coarse results, the table columns,
      the threshold and the half-step nh (one tick). */
  datatype Job = Job(space: seq<Config>, coarse: seq<CoarseRow>, cols: seq<Param>, threshold: real, nh: int)

  /** The state of the sample loop: the running total `crp`, the rows inserted so far, and
      the exception that stopped the loop, if any. */
  datatype Progress = Progress(crp: real, added: seq<SampleRow>, failure: Option<Error>)

  /** Lines 86-122 for the space row with id `id`: look it up (None raises TypeError on its
      first subscript, a missing column KeyError), then keep it when relprob < threshold. */
  function Visit(job: Job, st: Progress, id: int): Progress
  {
    match FindSpace(job.space, id)
    case None => st.(failure := Some(TypeError))
    case Some(q) =>
      if !HasAll(q, job.cols) || TauLowpass1 !in q then st.(failure := Some(KeyError))
      else
        var gain := Gain(job, q);
        if gain > 0.0 then Progress(st.crp + gain, st.added + [Stored(job, q, st.crp + gain)], None)
        else st
  }

  /** `threshold - relprob`: positive exactly when the sample is kept (line 110). */
  function Gain(job: Job, q: Config): real
  {
    job.threshold - MinCapped(job.threshold, Neighbours(job.coarse, q, job.cols, job.nh))
  }

  /** The row lines 117-121 insert for a kept sample. */
  function Stored(job: Job, q: Config, crp: real): SampleRow
    requires HasAll(q, job.cols) && TauLowpass1 in q
  {
    SampleRow(Shifted(q, job.cols, job.nh), Sentinel, Sentinel, crp)
  }

  /** Lines 77-122: the loop over the job's samples. Sample id s is looked up as row s + 1,
      the row it names in the merged space (see SampleZeroMissing for the code as written). */
  function Accumulate(job: Job, samples: seq<int>): Progress
  {
    if samples == [] then Progress(0.0, [], None)
    else
      var st := Accumulate(job, samples[..|samples| - 1]);
      if st.failure.Some? then st else Visit(job, st, samples[|samples| - 1] + 1)
  }

  /** The inserted weights are positive and strictly increasing, and the running total is
      the last of them (0 before the first insert). */
  predicate Cumulative(added: seq<SampleRow>, crp: real)
  {
    && (forall i :: 0 <= i < |added| ==> added[i].crp > 0.0)
    && (forall i, k :: 0 <= i < k < |added| ==> added[i].crp < added[k].crp)
    && (if added == [] then crp == 0.0 else crp == added[|added| - 1].crp)
  }

  /** Every inserted row is a sample-space configuration with `t1` shifted and both losses
      at the sentinel. */
  predicate Pending(job: Job, added: seq<SampleRow>)
  {
    forall i :: 0 <= i < |added| ==>
      && added[i].li == Sentinel && added[i].l2 == Sentinel
      && exists q :: q in job.space && HasAll(q, job.cols) && TauLowpass1 in q &&
                     added[i].key == Shifted(q, job.cols, job.nh)
  }

  /** Appending a row whose weight is the old total plus a positive gain keeps the weights
      cumulative. */
  lemma AppendKeepsCumulative(added: seq<SampleRow>, crp: real, row: SampleRow)
    requires Cumulative(added, crp) && row.crp > crp && crp >= 0.0
    ensures Cumulative(added + [row], row.crp)
  {
    var w := added + [row];
    assert forall i :: 0 <= i < |added| ==> w[i] == added[i];
    assert forall i :: 0 <= i < |added| ==> added[i].crp <= crp;
  }

  /** Appending a pending row made from a sample-space configuration keeps every row pending. */
  lemma AppendKeepsPending(job: Job, added: seq<SampleRow>, q: Config, crp: real)
    requires Pending(job, added) && q in job.space && HasAll(q, job.cols) && TauLowpass1 in q
    ensures Pending(job, added + [Stored(job, q, crp)])
  {
    var w := added + [Stored(job, q, crp)];
    assert forall i :: 0 <= i < |added| ==> w[i] == added[i];
  }

  /** The total of a cumulative list is never negative. */
  lemma CumulativeTotal(added: seq<SampleRow>, crp: real)
    requires Cumulative(added, crp)
    ensures crp >= 0.0
  {
  }

  /** One sample keeps both invariants, inserts at most one row, and a dropped sample
      leaves the state as it was. */
  lemma VisitKeeps(job: Job, st: Progress, id: int)
    requires Cumulative(st.added, st.crp) && Pending(job, st.added)
    ensures var w := Visit(job, st, id);
            && Cumulative(w.added, w.crp) && Pending(job, w.added)
            && (w.added == st.added || w.added == st.added + [w.added[|w.added| - 1]])
            && (w.failure.None? && w.added == st.added ==> w == st)
  {
    var w := Visit(job, st, id);
    match FindSpace(job.space, id)
    case None =>
      assert w.added == st.added;
    case Some(q) =>
      if !HasAll(q, job.cols) || TauLowpass1 !in q {
        assert w.added == st.added;
      } else if Gain(job, q) > 0.0 {
        var crp := st.crp + Gain(job, q);
        assert w == Progress(crp, st.added + [Stored(job, q, crp)], None);
        CumulativeTotal(st.added, st.crp);
        AppendKeepsCumulative(st.added, st.crp, Stored(job, q, crp));
        AppendKeepsPending(job, st.added, q, crp);
      } else {
        assert w == st;
      }
  }

  /** Over the whole loop the stored `crp` strictly increases in insertion order, every
      weight is positive, the total is the last weight, and each kept sample adds one row. */
  lemma {:induction false} AccumulateKeeps(job: Job, samples: seq<int>)
    ensures var p := Accumulate(job, samples);
            Cumulative(p.added, p.crp) && Pending(job, p.added) && |p.added| <= |samples|
  {
    if samples != [] {
      var init := samples[..|samples| - 1];
      AccumulateKeeps(job, init);
      var st := Accumulate(job, init);
      if st.failure.None? {
        VisitKeeps(job, st, samples[|samples| - 1] + 1);
      }
    }
  }

  /** The loop after i samples takes one more step on sample i. */
  lemma AccumulateNext(job: Job, samples: seq<int>, i: int)
    requires 0 <= i < |samples|
    ensures var st := Accumulate(job, samples[..i]);
            Accumulate(job, samples[..i + 1]) == if st.failure.Some? then st else Visit(job, st, samples[i] + 1)
  {
    assert samples[..i + 1][..i] == samples[..i];
  }

  /** Once the loop has raised, later samples change nothing. */
  lemma {:induction false} AccumulateStops(job: Job, samples: seq<int>, n: nat)
    requires n <= |samples| && Accumulate(job, samples[..n]).failure.Some?
    ensures Accumulate(job, samples) == Accumulate(job, samples[..n])
    decreases |samples| - n
  {
    if n < |samples| {
      var next := samples[..n + 1];
      assert next[..n] == samples[..n];
      if n + 1 == |samples| {
        assert next == samples;
      } else {
        AccumulateStops(job, samples, n + 1);
      }
    } else {
      assert samples[..n] == samples;
    }
  }

  /** Line 126 as intended: every `crp` divided by the final total. With a total of 0 no
      sample was kept and the table is left as it is. */
  function Normalised(rows: seq<SampleRow>, total: real): (r: seq<SampleRow>)
    ensures |r| == |rows|
  {
    if total == 0.0 then rows
    else seq(|rows|, i requires 0 <= i < |rows| => rows[i].(crp := rows[i].crp / total))
  }

  lemma DivideUnit(a: real, b: real, t: real)
    requires 0.0 < a < b <= t
    ensures 0.0 < a / t < b / t <= 1.0
  {
    assert a / t * t == a;
    assert b / t * t == b;
  }

  /** Normalising a table rescales the rows already there and the new ones alike. */
  lemma NormalisedSuffix(before: seq<SampleRow>, added: seq<SampleRow>, total: real)
    ensures Normalised(before + added, total)[|before|..] == Normalised(added, total)
  {
    var all := before + added;
    var r := Normalised(all, total)[|before|..];
    forall i | 0 <= i < |added| ensures r[i] == Normalised(added, total)[i] {
      assert all[|before| + i] == added[i];
    }
  }

  /** After normalisation the weights this run inserted form a cumulative distribution:
      strictly increasing within (0, 1] and ending at exactly 1; configurations and losses
      are untouched. */
  lemma NormalisedIsDistribution(added: seq<SampleRow>, crp: real)
    requires Cumulative(added, crp) && added != []
    ensures var r := Normalised(added, crp);
            && (forall i :: 0 <= i < |r| ==> 0.0 < r[i].crp <= 1.0)
            && (forall i, k :: 0 <= i < k < |r| ==> r[i].crp < r[k].crp)
            && r[|r| - 1].crp == 1.0
            && (forall i :: 0 <= i < |r| ==> r[i].key == added[i].key && r[i].li == added[i].li && r[i].l2 == added[i].l2)
  {
    var r := Normalised(added, crp);
    var last := added[|added| - 1].crp;
    forall i | 0 <= i < |r| ensures 0.0 < r[i].crp <= 1.0 {
      NormalisedAt(added, crp, i);
      if i < |r| - 1 {
        DivideUnit(added[i].crp, last, crp);
      } else {
        DivideSelf(last);
      }
    }
    forall i, k | 0 <= i < k < |r| ensures r[i].crp < r[k].crp {
      NormalisedAt(added, crp, i);
      NormalisedAt(added, crp, k);
      DivideUnit(added[i].crp, added[k].crp, crp);
    }
    forall i | 0 <= i < |r|
      ensures r[i].key == added[i].key && r[i].li == added[i].li && r[i].l2 == added[i].l2
    {
      NormalisedAt(added, crp, i);
    }
    NormalisedAt(added, crp, |r| - 1);
    DivideSelf(last);
  }

  lemma NormalisedAt(rows: seq<SampleRow>, total: real, i: int)
    requires total != 0.0 && 0 <= i < |rows|
    ensures Normalised(rows, total)[i] == rows[i].(crp := rows[i].crp / total)
  {
  }

  lemma DivideSelf(t: real)
    requires t > 0.0
    ensures t / t == 1.0
  {
  }

  /** The Python values line 126 joins with `+`. */
  datatype PyValue = PyStr(s: string) | PyFloat(x: real)

  /** Python's `+`: two strings concatenate, two floats add, a string and a float raise
      TypeError. */
  function Plus(a: PyValue, b: PyValue): (r: Result<PyValue>)
    ensures r.Ok? <==> a.PyStr? == b.PyStr?
    ensures r.Ok? && a.PyStr? ==> r.value == PyStr(a.s + b.s)
  {
    match (a, b)
    case (PyStr(x), PyStr(y)) => Ok(PyStr(x + y))
    case (PyFloat(x), PyFloat(y)) => Ok(PyFloat(x + y))
    case _ => Err(TypeError)
  }

  /** Line 126 as written: `"UPDATE " + table_name + " SET crp = crp / " + crp + ";"`,
      where `crp` is the float total. */
  function NormaliseQueryAsWritten(tableName: string, crp: real): Result<PyValue>
  {
    match Plus(PyStr("UPDATE " + tableName + " SET crp = crp / "), PyFloat(crp))
    case Err(e) => Err(e)
    case Ok(v) => Plus(v, PyStr(";"))
  }

  /** As written, building the normalisation statement raises TypeError whatever the total,
      so the script stops before any `crp` is rescaled. */
  lemma NormaliseQueryAlwaysFails(tableName: string, crp: real)
    ensures NormaliseQueryAsWritten(tableName, crp) == Err(TypeError)
  {
  }

  /** As written (line 86) the sample id s is looked up as row id s; the merged space numbers
      its rows from 1, so the job whose slice holds id 0 stops with TypeError when it
      reaches it, and the last configuration (id totnr) is never sampled. */
  lemma SampleZeroMissing(space: seq<Config>, job: Job, st: Progress)
    requires job.space == space
    ensures FindSpace(space, 0) == None
    ensures Visit(job, st, 0).failure == Some(TypeError)
  {
  }

  /** Corrected, each sample id 0 .. totnr-1 finds its configuration at row id s + 1. */
  lemma CorrectedLookupFinds(space: seq<Config>, s: int)
    requires 0 <= s < |space|
    ensures FindSpace(space, s + 1) == Some(space[s])
  {
  }

  /** The parameters of `Table.insert(row, ensure=None, types=None)` in the dataset library. */
  const InsertParameters: seq<string> := ["row", "ensure", "types"]

  /** Python's binding of a call with `n` positional arguments and the given keywords to
      `insert`'s parameters: TypeError for too many positional arguments, for a keyword that
      names no parameter left after the positional ones, or when `row` stays unbound. */
  function BindInsert(n: nat, keywords: seq<string>): (r: Result<()>)
    ensures r.Ok? ==> n >= 1 || "row" in keywords
    ensures r.Ok? ==> n <= |InsertParameters| && forall k :: k in keywords ==> k in InsertParameters
  {
    if n > |InsertParameters| then Err(TypeError)
    else if exists k :: k in keywords && k !in InsertParameters[n..] then Err(TypeError)
    else if n == 0 && "row" !in keywords then Err(TypeError)
    else Ok(())
  }

  /** The keywords of the inserts at lines 117-121: the columns, `li`, `l2` and `crp`. */
  function KeywordInsertNames(veto: bool): seq<string>
  {
    ["ap", "ad", "th", "tl", "t1", "t2", "tx"] + (if veto then ["bt", "tt"] else []) + ["li", "l2", "crp"]
  }

  /** As written, lines 117-121 pass the row's fields as keywords and no positional `row`:
      the call raises TypeError at the first kept sample, with or without veto. */
  lemma KeywordInsertFails(veto: bool)
    ensures BindInsert(0, KeywordInsertNames(veto)) == Err(TypeError)
  {
    assert "ap" in KeywordInsertNames(veto) && "ap" !in InsertParameters;
  }

  /** The intended call passes the row as one dict, which binds to `row`. */
  lemma DictInsertBinds()
    ensures BindInsert(1, []) == Ok(())
  {
  }

  /** The per-job sample table: rows numbered from 1 in insertion order. */
  class SampleTable {
    var rows: seq<SampleRow>

    constructor(rows: seq<SampleRow>)
      ensures this.rows == rows
    {
      this.rows := rows;
    }

    /** `insert(row)`. */
    method Insert(row: SampleRow)
      modifies this
      ensures rows == old(rows) + [row]
    {
      rows := rows + [row];
    }

    /** `UPDATE ... SET crp = crp / total`, row by row. */
    method Normalise(total: real)
      modifies this
      ensures rows == Normalised(old(rows), total)
    {
      if total == 0.0 {
        return;
      }
      ghost var start := rows;
      for i := 0 to |rows|
        invariant |rows| == |start|
        invariant forall k :: 0 <= k < i ==> rows[k] == start[k].(crp := start[k].crp / total)
        invariant forall k :: i <= k < |rows| ==> rows[k] == start[k]
      {
        rows := rows[i := rows[i].(crp := rows[i].crp / total)];
      }
    }

    /** `update(dict(id=id, li=li, l2=l2), ['id'])`: that row's losses change, nothing else. */
    method Update(id: nat, li: real, l2: real)
      requires 1 <= id <= |rows|
      modifies this
      ensures rows == old(rows)[id - 1 := old(rows)[id - 1].(li := li, l2 := l2)]
    {
      rows := rows[id - 1 := rows[id - 1].(li := li, l2 := l2)];
    }
  }

  /** One visit of the loop body, on the table. */
  method VisitSample(job: Job, crp: real, id: int, table: SampleTable) returns (crp': real, err: Option<Error>)
    modifies table
    ensures var w := Visit(job, Progress(crp, [], None), id);
            && crp' == w.crp && err == w.failure
            && table.rows == old(table.rows) + w.added
  {
    var q := FindSpace(job.space, id);
    if q.None? {
      return crp, Some(TypeError);
    }
    if !HasAll(q.value, job.cols) || TauLowpass1 !in q.value {
      return crp, Some(KeyError);
    }
    var ns := Neighbours(job.coarse, q.value, job.cols, job.nh);
    var relprob := RelProb(job.threshold, ns);
    crp', err := crp, None;
    if relprob < job.threshold {
      crp' := crp + (job.threshold - relprob);
      table.Insert(Stored(job, q.value, crp'));
    }
  }

  /** Visiting from a state is visiting from its total, then appending to what it had. */
  lemma VisitFrom(job: Job, st: Progress, id: int)
    requires st.failure.None?
    ensures var w := Visit(job, Progress(st.crp, [], None), id);
            Visit(job, st, id) == Progress(w.crp, st.added + w.added, w.failure)
  {
  }

  /** The `__main__` block of src/model_distribution.py with the command-line arguments after
      the script name (already read as integers): exactly one, the job id `j`, is required.
      Given the shuffled id list `perm` (`random.seed(1); random.shuffle(allids)`), the merged
      sample space, and the coarse results. Indices are ticks of 0.5^granularity, so nh is one
      tick. Returns the exception that stopped the script, if any; rows inserted before it
      stay. Each sample is looked up at row id s + 1 and the weights are divided by the
      total, the intended forms of lines 86 and 126. */
  method ModelDistribution(args: seq<int>, granularity: int, prot: Protocol, plas: Plasticity, veto: bool,
                           spaceExists: bool, perm: seq<int>, space: seq<Config>, coarse: seq<CoarseRow>,
                           table: SampleTable) returns (err: Option<Error>)
    modifies table
    ensures |args| != 1 ==> err == Some(ValueError) && table.rows == old(table.rows)
    ensures |args| == 1 ==>
            match ResampleSettings(granularity, prot, plas, veto, spaceExists)
            case Err(e) => err == Some(e) && table.rows == old(table.rows)
            case Ok(s) =>
              match JobSamples(perm, args[0], s.totnr / s.nrsplits)
              case Err(e) => err == Some(e) && table.rows == old(table.rows)
              case Ok(samples) =>
                var p := Accumulate(Job(space, coarse, Columns(veto), s.threshold, 1), samples);
                && err == p.failure
                && table.rows == if p.failure.Some? then old(table.rows) + p.added
                                 else Normalised(old(table.rows) + p.added, p.crp)
  {
    if |args| != 1 {
      return Some(ValueError);
    }
    var j := args[0];
    var settings := ResampleSettings(granularity, prot, plas, veto, spaceExists);
    if settings.Err? {
      return Some(settings.error);
    }
    var s := settings.value;
    var sm := JobSamples(perm, j, s.totnr / s.nrsplits);
    if sm.Err? {
      return Some(sm.error);
    }
    var job := Job(space, coarse, Columns(veto), s.threshold, 1);
    var crp;
    crp, err := VisitAll(job, sm.value, table);
    if err.None? {
      table.Normalise(crp);
    }
  }

  /** Lines 77-122: the loop over the job's samples, each looked up at row id s + 1. */
  method VisitAll(job: Job, samples: seq<int>, table: SampleTable) returns (crp: real, err: Option<Error>)
    modifies table
    ensures var p := Accumulate(job, samples);
            crp == p.crp && err == p.failure && table.rows == old(table.rows) + p.added
  {
    crp := 0.0;
    ghost var added: seq<SampleRow> := [];
    assert samples[..0] == [];
    for i := 0 to |samples|
      invariant table.rows == old(table.rows) + added
      invariant Accumulate(job, samples[..i]) == Progress(crp, added, None)
    {
      AccumulateNext(job, samples, i);
      VisitFrom(job, Progress(crp, added, None), samples[i] + 1);
      ghost var w := Visit(job, Progress(crp, [], None), samples[i] + 1);
      ghost var next := Progress(w.crp, added + w.added, w.failure);
      assert Accumulate(job, samples[..i + 1]) == next;
      var e;
      crp, e := VisitSample(job, crp, samples[i] + 1, table);
      added := added + w.added;
      if e.Some? {
        AccumulateStops(job, samples, i + 1);
        return crp, e;
      }
    }
    assert samples[..|samples|] == samples;
    err := None;
  }
}
