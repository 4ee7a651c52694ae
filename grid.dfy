/** The Cartesian-product traversal shared by `gridrecursion` (src/gridsearch.py) and
    `samplerecursion` (src/build_space.py): one axis per parameter, values from the
    lower to the upper bound in fixed steps, leftmost parameter varying slowest. */
module Grid {
  import opened Common

  /** Lower and upper bound of one parameter's index range, in ticks. */
  datatype Axis = Axis(lo: int, hi: int)

  /** The `grid_params` / `pgrid` dict: the range of each parameter. */
  type Space = map<Param, Axis>

  /** Number of iterations of `for i in range(int((hi - lo) * 2 ** g + 1))` when the bounds
      are in ticks and consecutive values are `step` ticks apart. Python's `int` truncates
      toward zero, so a reversed range yields no iteration. */
  function AxisCount(a: Axis, step: nat): nat
    requires step > 0
  {
    if a.hi < a.lo then 0 else (a.hi - a.lo) / step + 1
  }

  /** The index the loop assigns in iteration i: `lo + i * 0.5 ** g`. */
  function AxisValue(a: Axis, step: nat, i: nat): int
  {
    a.lo + i * step
  }

  /** A value the loop over axis `a` can take. */
  predicate OnAxis(a: Axis, step: nat, v: int)
    requires step > 0
  {
    a.lo <= v <= a.hi && (v - a.lo) % step == 0
  }

  lemma DivBound(x: nat, step: nat, i: nat)
    requires step > 0
    ensures i * step <= x <==> i <= x / step
  {
    var q, r := x / step, x % step;
    assert x == q * step + r && 0 <= r < step;
    if i <= q {
      assert i * step <= q * step by {
        assert (q - i) * step >= 0;
      }
    } else {
      assert i * step >= (q + 1) * step by {
        assert (i - q - 1) * step >= 0;
      }
    }
  }

  /** Euclidean division is unique: a quotient and remainder in range are the ones Dafny's
      `/` and `%` compute. */
  lemma DivModUnique(x: int, d: nat, q: int, r: int)
    requires d > 0 && x == q * d + r && 0 <= r < d
    ensures x / d == q && x % d == r
  {
    var q', r' := x / d, x % d;
    assert x == q' * d + r' && 0 <= r' < d;
    if q' != q {
      var lo, hi := if q' < q then q' else q, if q' < q then q else q';
      var k := hi - lo;
      assert k * d >= d by {
        MulAtLeast(k, d);
      }
      assert false;
    }
  }

  lemma MulAtLeast(k: int, d: nat)
    requires k >= 1
    ensures k * d >= d
  {
    assert (k - 1) * d >= 0;
  }

  /** Iteration i exists exactly when its value stays within the upper bound: the loop
      visits lo, lo + step, ... up to hi and no further. */
  lemma {:induction false} AxisCountMeansInRange(a: Axis, step: nat, i: nat)
    requires step > 0
    ensures i < AxisCount(a, step) <==> AxisValue(a, step, i) <= a.hi
  {
    if a.hi >= a.lo {
      DivBound(a.hi - a.lo, step, i);
    } else {
      assert i * step >= 0;
    }
  }

  /** The values of one axis: the first is the lower bound, they strictly increase, each is
      on the axis, and the upper bound itself is the last value when it is a whole number of
      steps above the lower one. */
  lemma {:induction false} AxisValues(a: Axis, step: nat)
    requires step > 0
    ensures a.lo <= a.hi ==> AxisCount(a, step) > 0 && AxisValue(a, step, 0) == a.lo
    ensures forall i: nat, j: nat :: i < j ==> AxisValue(a, step, i) < AxisValue(a, step, j)
    ensures forall i: nat :: i < AxisCount(a, step) ==> OnAxis(a, step, AxisValue(a, step, i))
    ensures a.lo <= a.hi && (a.hi - a.lo) % step == 0 ==>
              AxisValue(a, step, AxisCount(a, step) - 1) == a.hi
  {
    forall i: nat, j: nat | i < j ensures AxisValue(a, step, i) < AxisValue(a, step, j) {
      assert (j - i) * step > 0;
      assert j * step == i * step + (j - i) * step;
    }
    forall i: nat | i < AxisCount(a, step) ensures OnAxis(a, step, AxisValue(a, step, i)) {
      AxisCountMeansInRange(a, step, i);
      DivModUnique(i * step, step, i, 0);
    }
    if a.lo <= a.hi && (a.hi - a.lo) % step == 0 {
      var q := (a.hi - a.lo) / step;
      assert a.hi - a.lo == step * q + (a.hi - a.lo) % step;
      assert AxisValue(a, step, AxisCount(a, step) - 1) == a.lo + q * step;
    }
  }

  /** Every parameter still to vary has a range (otherwise `grid_params[pname]` raises). */
  predicate Covers(space: Space, names: seq<Param>)
  {
    forall p :: p in names ==> p in space
  }

  /** The configurations the recursion reaches from `idxs` while the parameters `names`
      remain to vary, in the order it reaches them. */
  function Enumerate(names: seq<Param>, space: Space, step: nat, idxs: Config): seq<Config>
    requires step > 0 && Covers(space, names)
    decreases |names|, 1, 0
  {
    if names == [] then [idxs] else Sweep(names, space, step, idxs, 0)
  }

  /** Iterations i, i+1, ... of the loop over the first of `names`, each followed by the
      traversal of the remaining parameters. */
  function Sweep(names: seq<Param>, space: Space, step: nat, idxs: Config, i: nat): seq<Config>
    requires step > 0 && Covers(space, names) && names != []
    decreases |names|, 0, AxisCount(space[names[0]], step) - i
  {
    var a := space[names[0]];
    if i >= AxisCount(a, step) then []
    else Enumerate(names[1..], space, step, idxs[names[0] := AxisValue(a, step, i)])
         + Sweep(names, space, step, idxs, i + 1)
  }

  /** The product of the axis counts of `names`. */
  function Product(names: seq<Param>, space: Space, step: nat): nat
    requires step > 0 && Covers(space, names)
  {
    if names == [] then 1 else AxisCount(space[names[0]], step) * Product(names[1..], space, step)
  }

  /** The traversal reaches exactly as many configurations as the product of the axis counts. */
  lemma {:induction false} EnumerateLength(names: seq<Param>, space: Space, step: nat, idxs: Config)
    requires step > 0 && Covers(space, names)
    ensures |Enumerate(names, space, step, idxs)| == Product(names, space, step)
    decreases |names|, 1, 0
  {
    if names != [] {
      SweepLength(names, space, step, idxs, 0);
    }
  }

  lemma {:induction false} SweepLength(names: seq<Param>, space: Space, step: nat, idxs: Config, i: nat)
    requires step > 0 && Covers(space, names) && names != []
    ensures var n := AxisCount(space[names[0]], step);
            |Sweep(names, space, step, idxs, i)| ==
              (if i >= n then 0 else (n - i) * Product(names[1..], space, step))
    decreases |names|, 0, AxisCount(space[names[0]], step) - i
  {
    var a := space[names[0]];
    var n := AxisCount(a, step);
    if i < n {
      var inner := Product(names[1..], space, step);
      EnumerateLength(names[1..], space, step, idxs[names[0] := AxisValue(a, step, i)]);
      SweepLength(names, space, step, idxs, i + 1);
      assert (n - i) * inner == inner + (n - i - 1) * inner;
    }
  }

  /** What a reached configuration holds: the keys of `idxs` plus the varied parameters, the
      untouched entries of `idxs`, and a value on its axis for every varied parameter. */
  predicate Reached(names: seq<Param>, space: Space, step: nat, idxs: Config, leaf: Config)
    requires step > 0 && Covers(space, names)
  {
    && leaf.Keys == idxs.Keys + (set p | p in names)
    && (forall p :: p in idxs && p !in names ==> leaf[p] == idxs[p])
    && (forall p :: p in names ==> OnAxis(space[p], step, leaf[p]))
  }

  lemma {:induction false} EnumerateCoordinates(names: seq<Param>, space: Space, step: nat, idxs: Config, leaf: Config)
    requires step > 0 && Covers(space, names)
    requires leaf in Enumerate(names, space, step, idxs)
    ensures Reached(names, space, step, idxs, leaf)
    decreases |names|, 1, 0
  {
    if names != [] {
      SweepCoordinates(names, space, step, idxs, 0, leaf);
    }
  }

  lemma {:induction false} SweepCoordinates(names: seq<Param>, space: Space, step: nat, idxs: Config, i: nat, leaf: Config)
    requires step > 0 && Covers(space, names) && names != []
    requires leaf in Sweep(names, space, step, idxs, i)
    ensures Reached(names, space, step, idxs, leaf)
    ensures names[0] !in names[1..] ==> leaf[names[0]] >= AxisValue(space[names[0]], step, i)
    decreases |names|, 0, AxisCount(space[names[0]], step) - i
  {
    var a := space[names[0]];
    var v := AxisValue(a, step, i);
    var idxs' := idxs[names[0] := v];
    var block := Enumerate(names[1..], space, step, idxs');
    var rest := Sweep(names, space, step, idxs, i + 1);
    assert Sweep(names, space, step, idxs, i) == block + rest;
    if leaf in block {
      EnumerateCoordinates(names[1..], space, step, idxs', leaf);
      AxisValues(a, step);
      assert (set p | p in names) == {names[0]} + (set p | p in names[1..]) by {
        assert forall p :: p in names <==> p == names[0] || p in names[1..];
      }
      if names[0] !in names[1..] {
        assert leaf[names[0]] == v;
      }
      forall p | p in names ensures OnAxis(space[p], step, leaf[p]) {
        if p !in names[1..] {
          assert p == names[0];
        }
      }
    } else {
      SweepCoordinates(names, space, step, idxs, i + 1, leaf);
      AxisValues(a, step);
    }
  }

  /** Strict lexicographic order on the entries of `names`, leftmost most significant. */
  predicate LexLess(x: Config, y: Config, names: seq<Param>)
    requires HasAll(x, names) && HasAll(y, names)
  {
    names != [] &&
    (x[names[0]] < y[names[0]] || (x[names[0]] == y[names[0]] && LexLess(x, y, names[1..])))
  }

  predicate LexSorted(leaves: seq<Config>, names: seq<Param>)
    requires forall l :: l in leaves ==> HasAll(l, names)
  {
    forall i, j :: 0 <= i < j < |leaves| ==> LexLess(leaves[i], leaves[j], names)
  }

  lemma {:induction false} LexLessIrreflexive(x: Config, names: seq<Param>)
    requires HasAll(x, names)
    ensures !LexLess(x, x, names)
  {
    if names != [] {
      LexLessIrreflexive(x, names[1..]);
    }
  }

  lemma LexSortedConcat(a: seq<Config>, b: seq<Config>, names: seq<Param>)
    requires forall l :: l in a + b ==> HasAll(l, names)
    requires LexSorted(a, names) && LexSorted(b, names)
    requires forall x, y :: x in a && y in b ==> LexLess(x, y, names)
    ensures LexSorted(a + b, names)
  {
    var c := a + b;
    forall i, j | 0 <= i < j < |c| ensures LexLess(c[i], c[j], names) {
      if j < |a| {
        assert c[i] == a[i] && c[j] == a[j];
      } else if i >= |a| {
        assert c[i] == b[i - |a|] && c[j] == b[j - |a|];
      } else {
        assert c[i] in a && c[j] in b;
      }
    }
  }

  /** With distinct parameter names the traversal is in strictly increasing lexicographic
      order: the nested-loop order with the leftmost parameter varying slowest. */
  lemma {:induction false} EnumerateSorted(names: seq<Param>, space: Space, step: nat, idxs: Config)
    requires step > 0 && Covers(space, names) && Distinct(names)
    ensures forall l :: l in Enumerate(names, space, step, idxs) ==> HasAll(l, names)
    ensures LexSorted(Enumerate(names, space, step, idxs), names)
    decreases |names|, 1, 0
  {
    forall l | l in Enumerate(names, space, step, idxs) ensures HasAll(l, names) {
      EnumerateCoordinates(names, space, step, idxs, l);
    }
    if names != [] {
      SweepSorted(names, space, step, idxs, 0);
    }
  }

  lemma {:induction false} SweepSorted(names: seq<Param>, space: Space, step: nat, idxs: Config, i: nat)
    requires step > 0 && Covers(space, names) && Distinct(names) && names != []
    ensures forall l :: l in Sweep(names, space, step, idxs, i) ==> HasAll(l, names)
    ensures LexSorted(Sweep(names, space, step, idxs, i), names)
    decreases |names|, 0, AxisCount(space[names[0]], step) - i
  {
    forall l | l in Sweep(names, space, step, idxs, i) ensures HasAll(l, names) {
      SweepCoordinates(names, space, step, idxs, i, l);
    }
    var a := space[names[0]];
    if i < AxisCount(a, step) {
      var v := AxisValue(a, step, i);
      var idxs' := idxs[names[0] := v];
      var block := Enumerate(names[1..], space, step, idxs');
      var rest := Sweep(names, space, step, idxs, i + 1);
      assert names[0] !in names[1..] by {
        forall k | 0 <= k < |names[1..]| ensures names[1..][k] != names[0] {
          assert names[1..][k] == names[k + 1];
        }
      }
      assert Distinct(names[1..]) by {
        forall x, y | 0 <= x < y < |names[1..]| ensures names[1..][x] != names[1..][y] {
          assert names[1..][x] == names[x + 1] && names[1..][y] == names[y + 1];
        }
      }
      EnumerateSorted(names[1..], space, step, idxs');
      SweepSorted(names, space, step, idxs, i + 1);
      forall l | l in block ensures HasAll(l, names) && l[names[0]] == v {
        EnumerateCoordinates(names[1..], space, step, idxs', l);
      }
      forall x, y | x in block && y in block && LexLess(x, y, names[1..])
        ensures LexLess(x, y, names)
      {
      }
      assert LexSorted(block, names) by {
        forall p, q | 0 <= p < q < |block| ensures LexLess(block[p], block[q], names) {
          assert block[p] in block && block[q] in block;
        }
      }
      AxisValues(a, step);
      forall x, y | x in block && y in rest ensures LexLess(x, y, names) {
        SweepCoordinates(names, space, step, idxs, i + 1, y);
        assert y[names[0]] >= AxisValue(a, step, i + 1) > v;
      }
      LexSortedConcat(block, rest, names);
    }
  }

  /** No configuration is reached twice. */
  lemma EnumerateNoRepeats(names: seq<Param>, space: Space, step: nat, idxs: Config)
    requires step > 0 && Covers(space, names) && Distinct(names)
    ensures Distinct(Enumerate(names, space, step, idxs))
  {
    var leaves := Enumerate(names, space, step, idxs);
    EnumerateSorted(names, space, step, idxs);
    forall i, j | 0 <= i < j < |leaves| ensures leaves[i] != leaves[j] {
      assert leaves[i] in leaves;
      LexLessIrreflexive(leaves[i], names);
    }
  }
}
