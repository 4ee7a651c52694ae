/** src/build_space.py: the sample space of the sample-driven search. Every point of a coarse
    grid over five parameters becomes one row of a table; the 64 jobs differ in the two
    amplitude indexes they hold fixed. */
module BuildSpace {
  import opened Common
  import opened Grid

  /** Consecutive values of an axis are 0.5^(gran-1) apart, which is two ticks of 0.5^gran. */
  const SpaceStep: nat := 2

  /** The sample-space table: the columns of each row, in insertion (id) order. */
  class SpaceTable {
    var rows: seq<Config>

    constructor(rows0: seq<Config>)
      ensures rows == rows0
    {
      rows := rows0;
    }

    /** `table.insert(dict(th=..., tl=..., ...))`. */
    method Insert(row: Config)
      modifies this
      ensures rows == old(rows) + [row]
    {
      rows := rows + [row];
    }
  }

  /** The state threaded through `samplerecursion`: the table, `nr`, and the exception that
      stopped the run, if any. */
  datatype SpaceProgress = SpaceProgress(rows: seq<Config>, nr: int, failure: Option<Error>)

  /** The recursion's return value, or the exception it raises. */
  function SpaceOutcome(w: SpaceProgress): Result<int>
  {
    if w.failure.Some? then Err(w.failure.value) else Ok(w.nr)
  }

  /** One leaf (src/build_space.py:56-64): insert the table's columns `cols` (seven or, with
      the veto, nine); a missing index raises KeyError while the row dict is built. */
  function Visit(cols: seq<Param>, s: SpaceProgress, leaf: Config): SpaceProgress
  {
    if s.failure.Some? then s
    else if !HasAll(leaf, cols) then s.(failure := Some(KeyError))
    else SpaceProgress(s.rows + [Restrict(leaf, cols)], s.nr + 1, None)
  }

  /** The leaves visited in order. */
  function Fill(cols: seq<Param>, s: SpaceProgress, leaves: seq<Config>): SpaceProgress
    decreases |leaves|
  {
    if leaves == [] then s else Fill(cols, Visit(cols, s, leaves[0]), leaves[1..])
  }

  /** The rows inserted for `leaves`, one per leaf, in order. */
  function RowsOf(leaves: seq<Config>, cols: seq<Param>): (rows: seq<Config>)
    requires forall l :: l in leaves ==> HasAll(l, cols)
    ensures |rows| == |leaves|
    ensures forall k :: 0 <= k < |leaves| ==> rows[k] == Restrict(leaves[k], cols)
  {
    seq(|leaves|, k requires 0 <= k < |leaves| => Restrict(leaves[k], cols))
  }

  lemma RowsOfCons(leaves: seq<Config>, cols: seq<Param>)
    requires leaves != [] && forall l :: l in leaves ==> HasAll(l, cols)
    ensures HasAll(leaves[0], cols) && RowsOf(leaves, cols) == [Restrict(leaves[0], cols)] + RowsOf(leaves[1..], cols)
  {
    assert leaves[0] in leaves;
    assert forall l :: l in leaves[1..] ==> l in leaves;
  }

  lemma ConcatAssoc<T>(a: seq<T>, b: seq<T>, c: seq<T>)
    ensures a + (b + c) == (a + b) + c
  {
  }

  /*********************************************************************************
   * Properties of the fill
   *********************************************************************************/

  lemma {:induction false} FillAfterFailure(cols: seq<Param>, s: SpaceProgress, leaves: seq<Config>)
    requires s.failure.Some?
    ensures Fill(cols, s, leaves) == s
    decreases |leaves|
  {
    if leaves != [] {
      FillAfterFailure(cols, s, leaves[1..]);
    }
  }

  lemma {:induction false} FillConcat(cols: seq<Param>, s: SpaceProgress, a: seq<Config>, b: seq<Config>)
    ensures Fill(cols, s, a + b) == Fill(cols, Fill(cols, s, a), b)
    decreases |a|
  {
    if a == [] {
      assert a + b == b;
    } else {
      assert (a + b)[0] == a[0] && (a + b)[1..] == a[1..] + b;
      FillConcat(cols, Visit(cols, s, a[0]), a[1..], b);
    }
  }

  /** When every leaf has the table's columns, each inserts exactly one row, its own
      columns, in order, and `nr` grows by the number of leaves. */
  lemma {:induction false} FillInsertsEveryLeaf(cols: seq<Param>, s: SpaceProgress, leaves: seq<Config>)
    requires s.failure.None?
    requires forall l :: l in leaves ==> HasAll(l, cols)
    ensures Fill(cols, s, leaves) == SpaceProgress(s.rows + RowsOf(leaves, cols), s.nr + |leaves|, None)
    decreases |leaves|
  {
    if leaves == [] {
      assert s.rows + RowsOf(leaves, cols) == s.rows;
    } else {
      assert leaves[0] in leaves;
      var t := Visit(cols, s, leaves[0]);
      assert forall l :: l in leaves[1..] ==> l in leaves;
      FillInsertsEveryLeaf(cols, t, leaves[1..]);
      RowsOfCons(leaves, cols);
      assert t.rows == s.rows + [Restrict(leaves[0], cols)];
      ConcatAssoc(s.rows, [Restrict(leaves[0], cols)], RowsOf(leaves[1..], cols));
    }
  }

  /** The first leaf that lacks a column stops the run with KeyError, after the rows of the
      leaves before it. */
  lemma {:induction false} FillStopsAtMissingColumn(cols: seq<Param>, s: SpaceProgress, leaves: seq<Config>, k: nat)
    requires s.failure.None?
    requires k < |leaves| && !HasAll(leaves[k], cols)
    requires forall i :: 0 <= i < k ==> HasAll(leaves[i], cols)
    ensures Fill(cols, s, leaves)
            == SpaceProgress(s.rows + RowsOf(leaves[..k], cols), s.nr + k, Some(KeyError))
  {
    assert leaves == leaves[..k] + leaves[k..];
    FillConcat(cols, s, leaves[..k], leaves[k..]);
    FillInsertsEveryLeaf(cols, s, leaves[..k]);
    var mid := Fill(cols, s, leaves[..k]);
    var stop := Visit(cols, mid, leaves[k]);
    assert leaves[k..][0] == leaves[k];
    FillAfterFailure(cols, stop, leaves[k..][1..]);
  }

  /** One iteration of the loop at `names[0]`: its subtree, then the remaining iterations;
      an exception inside the subtree ends the loop, and after the last value nothing is left. */
  lemma SweepFills(cols: seq<Param>, names: seq<Param>, space: Space, idxs: Config, i: nat, s: SpaceProgress)
    requires names != [] && Covers(space, names)
    ensures var a := space[names[0]];
            var sweep := Fill(cols, s, Sweep(names, space, SpaceStep, idxs, i));
            && (i >= AxisCount(a, SpaceStep) ==> sweep == s)
            && (i < AxisCount(a, SpaceStep) ==>
                  var mid := Fill(cols, s, Enumerate(names[1..], space, SpaceStep, idxs[names[0] := AxisValue(a, SpaceStep, i)]));
                  sweep == if mid.failure.Some? then mid
                           else Fill(cols, mid, Sweep(names, space, SpaceStep, idxs, i + 1)))
  {
    var a := space[names[0]];
    if i < AxisCount(a, SpaceStep) {
      var here := Enumerate(names[1..], space, SpaceStep, idxs[names[0] := AxisValue(a, SpaceStep, i)]);
      FillConcat(cols, s, here, Sweep(names, space, SpaceStep, idxs, i + 1));
      var mid := Fill(cols, s, here);
      if mid.failure.Some? {
        FillAfterFailure(cols, mid, Sweep(names, space, SpaceStep, idxs, i + 1));
      }
    }
  }

  /*********************************************************************************
   * samplerecursion
   *********************************************************************************/

  /** `samplerecursion(pi, pnames, indexes, pgrid, gran, len(pnames), table, database, nr,
      vetoing)`: the loop over the values of `pnames[pi]`, recursing into the next parameter or
      inserting the leaf. The copy `idxs` is overwritten at `pnames[pi]` only; the caller's
      `indexes` is a value and cannot change. */
  method SampleRecursion(pi: nat, pnames: seq<Param>, indexes: Config, space: Space, veto: bool,
                         table: SpaceTable, nr: int) returns (r: Result<int>)
    requires pi < |pnames| && Covers(space, pnames[pi..])
    modifies table
    ensures var w := Fill(Columns(veto), SpaceProgress(old(table.rows), nr, None), Enumerate(pnames[pi..], space, SpaceStep, indexes));
            table.rows == w.rows && r == SpaceOutcome(w)
    decreases |pnames| - pi
  {
    var cols := Columns(veto);
    var names := pnames[pi..];
    assert names[0] == pnames[pi] && names[1..] == pnames[pi + 1..];
    var pname := pnames[pi];
    var a := space[pname];
    var idxs := indexes;
    var count := nr;
    ghost var total := Fill(cols, SpaceProgress(old(table.rows), nr, None), Enumerate(names, space, SpaceStep, indexes));
    for i := 0 to AxisCount(a, SpaceStep)
      invariant i > 0 ==> idxs == indexes[pname := AxisValue(a, SpaceStep, i - 1)]
      invariant i == 0 ==> idxs == indexes
      invariant Fill(cols, SpaceProgress(table.rows, count, None), Sweep(names, space, SpaceStep, indexes, i)) == total
    {
      SweepFills(cols, names, space, indexes, i, SpaceProgress(table.rows, count, None));
      idxs := idxs[pname := AxisValue(a, SpaceStep, i)];
      assert idxs == indexes[pname := AxisValue(a, SpaceStep, i)];
      if pi < |pnames| - 1 {
        var sub := SampleRecursion(pi + 1, pnames, idxs, space, veto, table, count);
        if sub.Err? {
          return sub;
        }
        count := sub.value;
      } else {
        assert names[1..] == [];
        var leaf := InsertLeaf(idxs, veto, table, count);
        if leaf.Err? {
          return leaf;
        }
        count := leaf.value;
      }
    }
    SweepFills(cols, names, space, indexes, AxisCount(a, SpaceStep), SpaceProgress(table.rows, count, None));
    return Ok(count);
  }

  /** The innermost level of `samplerecursion` (src/build_space.py:56-64): insert the row and
      count it. */
  method InsertLeaf(idxs: Config, veto: bool, table: SpaceTable, nr: int) returns (r: Result<int>)
    modifies table
    ensures var w := Visit(Columns(veto), SpaceProgress(old(table.rows), nr, None), idxs);
            table.rows == w.rows && r == SpaceOutcome(w)
  {
    var cols := Columns(veto);
    if !HasAll(idxs, cols) {
      return Err(KeyError);
    }
    table.Insert(Restrict(idxs, cols));
    return Ok(nr + 1);
  }

  /*********************************************************************************
   * The configured run and its 64 jobs
   *********************************************************************************/

  /** `param_names` of the configured run (granularity 1, Letzkus, Claire, no veto). */
  const SampleNames: seq<Param> := [ThetaHigh, ThetaLow, TauLowpass1, TauLowpass2, TauX]

  /** `grid_params` in ticks of 0.5: thresholds from -0.5 to 8.5, time constants from 0.5 to 6.5. */
  function SampleGrid(): (r: Space)
    ensures forall p :: p in r <==> p in SampleNames
    ensures forall p :: p in r ==> r[p].lo <= r[p].hi
  {
    map[ThetaHigh := Axis(-1, 17), ThetaLow := Axis(-1, 17),
        TauLowpass1 := Axis(1, 13), TauLowpass2 := Axis(1, 13), TauX := Axis(1, 13)]
  }

  /** `indcs` in ticks of 0.5: A_LTP = 0.5 + j mod 8 and A_LTD = 0.5 + floor(j / 8). Python's
      `%` and `floor` of a division by 8 agree with Dafny's Euclidean `%` and `/`. */
  function JobIndexes(j: int): (r: Config)
    ensures r.Keys == {ALTP, ALTD}
    ensures 0 <= j <= 63 ==> 1 <= r[ALTP] <= 15 && 1 <= r[ALTD] <= 15
    ensures 0 <= j ==> j == (r[ALTP] - 1) / 2 + 8 * ((r[ALTD] - 1) / 2)
  {
    map[ALTP := 1 + 2 * (j % 8), ALTD := 1 + 2 * (j / 8)]
  }

  /** The configurations job `j` inserts, in order. */
  function JobLeaves(j: int): seq<Config>
  {
    Enumerate(SampleNames, SampleGrid(), SpaceStep, JobIndexes(j))
  }

  /** Rows per job: 10 · 10 · 7 · 7 · 7. */
  const JobSize: nat := 34300

  /** The `__main__` block of src/build_space.py with the command-line arguments after the
      script name (already read as integers): one argument is required, job ids above 63 are
      rejected, then the recursion fills the table from `nr = 0`. Returns `totnr`. */
  method BuildSpaceMain(args: seq<int>, table: SpaceTable) returns (r: Result<int>)
    modifies table
    ensures |args| != 1 || args[0] > 63 ==> r == Err(ValueError) && table.rows == old(table.rows)
    ensures |args| == 1 && args[0] <= 63 ==>
              && (forall l :: l in JobLeaves(args[0]) ==> HasAll(l, NovetoColumns))
              && r == Ok(JobSize)
              && table.rows == old(table.rows) + RowsOf(JobLeaves(args[0]), NovetoColumns)
  {
    if |args| != 1 {
      return Err(ValueError);
    }
    var j := args[0];
    if j > 63 {
      return Err(ValueError);
    }
    var indcs := JobIndexes(j);
    SampleGridFacts();
    JobRows(j);
    FillInsertsEveryLeaf(NovetoColumns, SpaceProgress(table.rows, 0, None), JobLeaves(j));
    assert SampleNames[0..] == SampleNames;
    r := SampleRecursion(0, SampleNames, indcs, SampleGrid(), false, table, 0);
  }

  /** The configured grid: the five varied parameters are distinct, each has an axis, the
      amplitudes are not among them, and with the amplitudes they make the seven columns of
      the table; the thresholds take 10 values and the time constants 7. */
  lemma SampleGridFacts()
    ensures Distinct(SampleNames) && Covers(SampleGrid(), SampleNames)
    ensures ALTP !in SampleNames && ALTD !in SampleNames
    ensures forall c :: c in NovetoColumns <==> c == ALTP || c == ALTD || c in SampleNames
    ensures Product(SampleNames, SampleGrid(), SpaceStep) == JobSize
  {
    SampleNamesFacts();
    SampleGridSize();
  }

  lemma SampleNamesFacts()
    ensures Distinct(SampleNames) && Covers(SampleGrid(), SampleNames)
    ensures ALTP !in SampleNames && ALTD !in SampleNames
    ensures forall c :: c in NovetoColumns <==> c == ALTP || c == ALTD || c in SampleNames
  {
    var g := SampleGrid();
    forall i | 0 <= i < |SampleNames|
      ensures SampleNames[i] in g && SampleNames[i] != ALTP && SampleNames[i] != ALTD
      ensures SampleNames[i] in NovetoColumns
    {
      if i == 0 {
        assert NovetoColumns[0] == ThetaHigh;
      } else if i == 1 {
        assert NovetoColumns[1] == ThetaLow;
      } else if i == 2 {
        assert NovetoColumns[4] == TauLowpass1;
      } else if i == 3 {
        assert NovetoColumns[5] == TauLowpass2;
      } else {
        assert NovetoColumns[6] == TauX;
      }
    }
    forall i | 0 <= i < |NovetoColumns|
      ensures NovetoColumns[i] == ALTP || NovetoColumns[i] == ALTD || NovetoColumns[i] in SampleNames
    {
      if i == 0 {
        assert SampleNames[0] == ThetaHigh;
      } else if i == 1 {
        assert SampleNames[1] == ThetaLow;
      } else if i == 4 {
        assert SampleNames[2] == TauLowpass1;
      } else if i == 5 {
        assert SampleNames[3] == TauLowpass2;
      } else if i == 6 {
        assert SampleNames[4] == TauX;
      }
    }
    assert NovetoColumns[2] == ALTP && NovetoColumns[3] == ALTD;
  }

  /** The thresholds take 10 values and the time constants 7: 34300 grid points. */
  lemma SampleGridSize()
    ensures Product(SampleNames, SampleGrid(), SpaceStep) == JobSize
  {
    var g := SampleGrid();
    assert SampleNames[1..] == [ThetaLow, TauLowpass1, TauLowpass2, TauX];
    assert SampleNames[1..][1..] == [TauLowpass1, TauLowpass2, TauX];
    assert SampleNames[1..][1..][1..] == [TauLowpass2, TauX];
    assert SampleNames[1..][1..][1..][1..] == [TauX];
    assert Product([TauX], g, SpaceStep) == 7;
    assert Product([TauLowpass2, TauX], g, SpaceStep) == 49;
    assert Product([TauLowpass1, TauLowpass2, TauX], g, SpaceStep) == 343;
    assert Product([ThetaLow, TauLowpass1, TauLowpass2, TauX], g, SpaceStep) == 3430;
  }

  /** Each configuration of job `j` has exactly the seven table columns, the job's two
      amplitudes, and every varied index on its grid axis. */
  lemma JobLeaf(j: int, l: Config)
    requires l in JobLeaves(j)
    ensures ALTP in l && ALTD in l && l[ALTP] == JobIndexes(j)[ALTP] && l[ALTD] == JobIndexes(j)[ALTD]
    ensures l.Keys == set c | c in NovetoColumns
    ensures forall p :: p in SampleNames ==> p in SampleGrid() && p in l && OnAxis(SampleGrid()[p], SpaceStep, l[p])
  {
    JobLeafReached(j, l);
    JobLeafKeys(j, l);
    JobLeafAmplitudes(j, l);
  }

  lemma JobLeafReached(j: int, l: Config)
    requires l in JobLeaves(j)
    ensures Covers(SampleGrid(), SampleNames) && Reached(SampleNames, SampleGrid(), SpaceStep, JobIndexes(j), l)
  {
    SampleGridFacts();
    EnumerateCoordinates(SampleNames, SampleGrid(), SpaceStep, JobIndexes(j), l);
  }

  lemma JobLeafKeys(j: int, l: Config)
    requires l in JobLeaves(j)
    ensures l.Keys == set c | c in NovetoColumns
  {
    JobLeafReached(j, l);
    SampleGridFacts();
  }

  lemma JobLeafAmplitudes(j: int, l: Config)
    requires l in JobLeaves(j)
    ensures ALTP in l && ALTD in l && l[ALTP] == JobIndexes(j)[ALTP] && l[ALTD] == JobIndexes(j)[ALTD]
  {
    JobLeafReached(j, l);
    SampleGridFacts();
  }

  /** Job `j` inserts 34300 configurations, no two alike. */
  lemma JobCount(j: int)
    ensures |JobLeaves(j)| == JobSize && Distinct(JobLeaves(j))
  {
    SampleGridFacts();
    EnumerateLength(SampleNames, SampleGrid(), SpaceStep, JobIndexes(j));
    EnumerateNoRepeats(SampleNames, SampleGrid(), SpaceStep, JobIndexes(j));
  }

  /** What job `j` inserts: 34300 distinct configurations in nested-loop order, every one with
      the seven table columns. */
  lemma JobRows(j: int)
    ensures |JobLeaves(j)| == JobSize
    ensures Distinct(JobLeaves(j))
    ensures (forall l :: l in JobLeaves(j) ==> HasAll(l, SampleNames)) && LexSorted(JobLeaves(j), SampleNames)
    ensures forall l :: l in JobLeaves(j) ==> HasAll(l, NovetoColumns)
  {
    SampleGridFacts();
    JobCount(j);
    EnumerateSorted(SampleNames, SampleGrid(), SpaceStep, JobIndexes(j));
    forall l | l in JobLeaves(j) ensures HasAll(l, NovetoColumns) {
      JobLeaf(j, l);
    }
  }

  /** Distinct job ids fix distinct amplitude pairs, so no configuration belongs to two jobs;
      ids 0 to 63 give A_LTP and A_LTD between 0.5 and 7.5. */
  lemma JobsDisjoint(j: int, k: int)
    requires j != k
    ensures JobIndexes(j) != JobIndexes(k)
    ensures forall l, m :: l in JobLeaves(j) && m in JobLeaves(k) ==> l != m
    ensures 0 <= j <= 63 ==> 1 <= JobIndexes(j)[ALTP] <= 15 && 1 <= JobIndexes(j)[ALTD] <= 15
  {
    JobOfIndexes(j);
    JobOfIndexes(k);
    forall l, m | l in JobLeaves(j) && m in JobLeaves(k) ensures l != m {
      JobLeaf(j, l);
      JobLeaf(k, m);
    }
  }

  /** The job a configuration belongs to, read back from its two amplitude indexes. */
  function JobOf(l: Config): int
    requires ALTP in l && ALTD in l
  {
    8 * ((l[ALTD] - 1) / 2) + (l[ALTP] - 1) / 2
  }

  lemma SameAmplitudesSameJob(l: Config, m: Config)
    requires ALTP in l && ALTD in l && ALTP in m && ALTD in m
    requires l[ALTP] == m[ALTP] && l[ALTD] == m[ALTD]
    ensures JobOf(l) == JobOf(m)
  {
  }

  /** The job id is recovered from the job's amplitude indexes. */
  lemma JobOfIndexes(j: int)
    ensures JobOf(JobIndexes(j)) == j
  {
    assert (1 + 2 * (j % 8) - 1) / 2 == j % 8;
    assert (1 + 2 * (j / 8) - 1) / 2 == j / 8;
  }

  /** Every configuration of job `j` belongs to job `j`. */
  lemma JobOfLeaves(j: int)
    ensures forall l :: l in JobLeaves(j) ==> ALTP in l && ALTD in l && JobOf(l) == j
  {
    JobOfIndexes(j);
    forall l | l in JobLeaves(j) ensures ALTP in l && ALTD in l && JobOf(l) == j {
      JobLeafAmplitudes(j, l);
      SameAmplitudesSameJob(l, JobIndexes(j));
    }
  }

  /** The configurations of jobs 0 .. n-1, job after job. */
  function Joined(jobs: int -> seq<Config>, n: nat): seq<Config>
  {
    if n == 0 then [] else Joined(jobs, n - 1) + jobs(n - 1)
  }

  /** Jobs 0 to n-1 of `size` configurations each give n · size configurations. */
  lemma {:induction false} JoinedCount(jobs: int -> seq<Config>, n: nat, size: nat)
    requires forall j :: 0 <= j < n ==> |jobs(j)| == size
    ensures |Joined(jobs, n)| == n * size
  {
    if n > 0 {
      JoinedCount(jobs, n - 1, size);
      assert n * size == (n - 1) * size + size;
    }
  }

  /** When every configuration of job j belongs to job j, the configurations of jobs
      0 to n-1 belong to those jobs, and no two of them are alike when no job repeats one. */
  lemma {:induction false} JoinedDistinct(jobs: int -> seq<Config>, n: nat)
    requires forall j, l :: 0 <= j < n && l in jobs(j) ==> InJob(l, j)
    requires forall j :: 0 <= j < n ==> Distinct(jobs(j))
    ensures forall l :: l in Joined(jobs, n) ==> ALTP in l && ALTD in l && 0 <= JobOf(l) < n
    ensures Distinct(Joined(jobs, n))
  {
    if n > 0 {
      JoinedDistinct(jobs, n - 1);
      var prev, here := Joined(jobs, n - 1), jobs(n - 1);
      forall x, y | x in prev && y in here ensures x != y {
        assert JobOf(x) < n - 1 == JobOf(y);
      }
      DistinctConcat(prev, here);
    }
  }

  lemma DistinctConcat<T>(a: seq<T>, b: seq<T>)
    requires Distinct(a) && Distinct(b)
    requires forall x, y :: x in a && y in b ==> x != y
    ensures Distinct(a + b)
  {
    var all := a + b;
    forall x, y | 0 <= x < y < |all| ensures all[x] != all[y] {
      if y < |a| {
        assert all[x] == a[x] && all[y] == a[y];
      } else if x >= |a| {
        assert all[x] == b[x - |a|] && all[y] == b[y - |a|];
      } else {
        assert all[x] in a && all[y] in b;
      }
    }
  }

  /** Each of the first n jobs has 34300 leaves, no two alike, all in that job. */
  lemma JobsWellFormed(jobs: int -> seq<Config>, n: nat)
    requires forall j :: jobs(j) == JobLeaves(j)
    ensures forall j :: 0 <= j < n ==> |jobs(j)| == JobSize && Distinct(jobs(j))
    ensures forall j, l :: 0 <= j < n && l in jobs(j) ==> InJob(l, j)
  {
    forall j | 0 <= j < n ensures |jobs(j)| == JobSize && Distinct(jobs(j)) {
      JobCount(j);
    }
    forall j, l | 0 <= j < n && l in jobs(j) ensures InJob(l, j) {
      JobOfLeaves(j);
    }
  }

  /** Leaf l carries both amplitudes and they name job j. */
  predicate InJob(l: Config, j: int)
  {
    ALTP in l && ALTD in l && JobOf(l) == j
  }

  /** Jobs 0 to n-1 together insert n · 34300 configurations, no two alike, each in the job
      its amplitudes name. For the 64 jobs that is 2195200, the size of the merged sample
      space (`totnr` of the importance resampler). */
  lemma SampleSpaceSize(n: nat)
    ensures |Joined(JobLeaves, n)| == n * JobSize && Distinct(Joined(JobLeaves, n))
    ensures forall l :: l in Joined(JobLeaves, n) ==> ALTP in l && ALTD in l && 0 <= JobOf(l) < n
    ensures n == 64 ==> |Joined(JobLeaves, n)| == 2195200
  {
    JobsWellFormed(JobLeaves, n);
    JoinedCount(JobLeaves, n, JobSize);
    JoinedDistinct(JobLeaves, n);
  }
}
