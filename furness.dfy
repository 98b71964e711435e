/**
 * Iterative proportional fitting of one product's seed block: the block is
 * rescaled alternately so that its origin sums meet the production
 * targets and its destination sums meet the consumption targets, until
 * every ratio target / sum is within the tolerance of one or the step
 * budget is spent.
 */
module Furness {
  import opened Series
  import opened Domain

  /** Largest accepted |1 - target / sum| of a slice. */
  const Tolerance: real := 0.05

  /** The loop runs while its counter is at most this bound. */
  const MaxSteps: nat := 500

  /** The index level a constraint is indexed by. */
  datatype Axis = Origin | Destination

  /** The n-th draw from the endless cycle production, consumption, production, ... */
  function AxisAt(n: nat): Axis
  {
    if n % 2 == 0 then Origin else Destination
  }

  /** The label of a cell on the given level. */
  function KeyOn(a: Axis, p: Pair): Region
  {
    match a
    case Origin => p.origin
    case Destination => p.destination
  }

  /** Some cell of the block lies in slice r of the axis. */
  predicate Occurs(m: seq<Entry<Pair>>, a: Axis, r: Region)
  {
    exists i :: 0 <= i < |m| && KeyOn(a, m[i].key) == r
  }

  /** The sum of the cells in slice r: groupby(level).sum() at r. */
  function Margin(m: seq<Entry<Pair>>, a: Axis, r: Region): real
  {
    if m == [] then 0.0
    else Margin(m[..|m| - 1], a, r) + (if KeyOn(a, m[|m| - 1].key) == r then m[|m| - 1].value else 0.0)
  }

  /** One entry of constraint / margins, in floating-point terms. */
  datatype Ratio = Finite(f: real) | Infinite | Missing

  /**
   * The quotient at r: missing (NaN) when either side lacks r or both
   * are zero, infinite when only the sum is zero.
   */
  function RatioAt(m: seq<Entry<Pair>>, a: Axis, target: seq<Entry<Region>>, r: Region): Ratio
  {
    match Lookup(target, r)
    case None => Missing
    case Some(t) =>
      if !Occurs(m, a, r) then Missing
      else if Margin(m, a, r) != 0.0 then Finite(t / Margin(m, a, r))
      else if t != 0.0 then Infinite
      else Missing
  }

  function Abs(x: real): real
  {
    if x < 0.0 then -x else x
  }

  /** The slice of cell i passes the test: its ratio is not infinite and, when finite, within tolerance. */
  predicate CellPasses(m: seq<Entry<Pair>>, a: Axis, target: seq<Entry<Region>>, i: nat)
    requires i < |m|
  {
    var q := RatioAt(m, a, target, KeyOn(a, m[i].key));
    q != Infinite && (q.Finite? ==> Abs(1.0 - q.f) <= Tolerance)
  }

  /** Some cell among the first n has a finite ratio. */
  predicate AnyFinite(m: seq<Entry<Pair>>, a: Axis, target: seq<Entry<Region>>, n: nat)
    requires n <= |m|
  {
    n > 0 && (AnyFinite(m, a, target, n - 1) || RatioAt(m, a, target, KeyOn(a, m[n - 1].key)).Finite?)
  }

  /** Every cell among the first n passes. */
  predicate AllPass(m: seq<Entry<Pair>>, a: Axis, target: seq<Entry<Region>>, n: nat)
    requires n <= |m|
  {
    n == 0 || (AllPass(m, a, target, n - 1) && CellPasses(m, a, target, n - 1))
  }

  /**
   * The stopping test: the largest |1 - f| over the ratios is at most the
   * tolerance. Missing ratios are skipped, an infinite one fails the test,
   * and with no finite ratio at all the maximum is NaN and the test fails.
   */
  predicate Balanced(m: seq<Entry<Pair>>, a: Axis, target: seq<Entry<Region>>)
  {
    AnyFinite(m, a, target, |m|) && AllPass(m, a, target, |m|)
  }

  lemma {:induction false} AnyFiniteMeaning(m: seq<Entry<Pair>>, a: Axis, target: seq<Entry<Region>>, n: nat)
    requires n <= |m|
    ensures AnyFinite(m, a, target, n) <==> exists i :: 0 <= i < n && RatioAt(m, a, target, KeyOn(a, m[i].key)).Finite?
  {
    if n > 0 {
      AnyFiniteMeaning(m, a, target, n - 1);
    }
  }

  lemma {:induction false} AllPassMeaning(m: seq<Entry<Pair>>, a: Axis, target: seq<Entry<Region>>, n: nat)
    requires n <= |m|
    ensures AllPass(m, a, target, n) <==> forall i :: 0 <= i < n ==> CellPasses(m, a, target, i)
  {
    if n > 0 {
      AllPassMeaning(m, a, target, n - 1);
    }
  }

  /**
   * The test passes exactly when no cell's slice has an infinite ratio or
   * a finite ratio farther than the tolerance from one, and some slice
   * has a finite ratio.
   */
  lemma BalancedMeaning(m: seq<Entry<Pair>>, a: Axis, target: seq<Entry<Region>>)
    ensures Balanced(m, a, target) <==>
      (forall i :: 0 <= i < |m| ==> CellPasses(m, a, target, i)) &&
      (exists i :: 0 <= i < |m| && RatioAt(m, a, target, KeyOn(a, m[i].key)).Finite?)
  {
    AnyFiniteMeaning(m, a, target, |m|);
    AllPassMeaning(m, a, target, |m|);
  }

  /** A cell value multiplied by a ratio. */
  function Scaled(v: real, f: real): real
  {
    v * f
  }

  /**
   * Multiplies every cell by the ratio of its slice on axis a, the ratios
   * being those of the block `base`; a cell whose ratio is not finite
   * becomes NaN and is dropped when the block is stacked again.
   */
  function Rescale(cells: seq<Entry<Pair>>, base: seq<Entry<Pair>>, a: Axis, target: seq<Entry<Region>>): seq<Entry<Pair>>
  {
    if cells == [] then []
    else
      var last := cells[|cells| - 1];
      var rest := Rescale(cells[..|cells| - 1], base, a, target);
      match RatioAt(base, a, target, KeyOn(a, last.key))
      case Finite(f) => rest + [Entry(last.key, Scaled(last.value, f))]
      case _ => rest
  }

  /** One fitting step on axis a. */
  function Step(m: seq<Entry<Pair>>, a: Axis, target: seq<Entry<Region>>): seq<Entry<Pair>>
  {
    Rescale(m, m, a, target)
  }

  /** The constraint drawn for the given axis. */
  function TargetOn(a: Axis, rowTargets: seq<Entry<Region>>, colTargets: seq<Entry<Region>>): seq<Entry<Region>>
  {
    match a
    case Origin => rowTargets
    case Destination => colTargets
  }

  /** The block after k fitting steps. */
  function Iterate(seed: seq<Entry<Pair>>, rowTargets: seq<Entry<Region>>, colTargets: seq<Entry<Region>>, k: nat): seq<Entry<Pair>>
  {
    if k == 0 then seed
    else
      var a := AxisAt(k - 1);
      Step(Iterate(seed, rowTargets, colTargets, k - 1), a, TargetOn(a, rowTargets, colTargets))
  }

  /**
   * Evaluates the stopping test in one pass over the cells, tracking
   * whether some ratio is finite and whether all of them pass.
   */
  method TestTolerance(m: seq<Entry<Pair>>, a: Axis, target: seq<Entry<Region>>) returns (ok: bool)
    ensures ok == Balanced(m, a, target)
  {
    var anyFinite := false;
    var allPass := true;
    var i := 0;
    while i < |m|
      invariant 0 <= i <= |m|
      invariant anyFinite == AnyFinite(m, a, target, i)
      invariant allPass == AllPass(m, a, target, i)
    {
      var q := RatioAt(m, a, target, KeyOn(a, m[i].key));
      if q.Finite? {
        anyFinite := true;
      }
      if !CellPasses(m, a, target, i) {
        allPass := false;
      }
      i := i + 1;
    }
    ok := anyFinite && allPass;
  }

  /** The stopping test passes after j steps. */
  predicate StopsAfter(seed: seq<Entry<Pair>>, rowTargets: seq<Entry<Region>>, colTargets: seq<Entry<Region>>, j: nat)
  {
    Balanced(Iterate(seed, rowTargets, colTargets, j), AxisAt(j), TargetOn(AxisAt(j), rowTargets, colTargets))
  }

  /**
   * The fitting loop: draw the next constraint, stop when the block is
   * within tolerance on it, otherwise rescale and count the step. The
   * flag `converged` is false exactly when the loop ran out of steps.
   */
  method Balance(seed: seq<Entry<Pair>>, rowTargets: seq<Entry<Region>>, colTargets: seq<Entry<Region>>)
    returns (m: seq<Entry<Pair>>, converged: bool, steps: nat)
    ensures m == Iterate(seed, rowTargets, colTargets, steps)
    ensures steps <= MaxSteps + 1
    ensures converged <==> steps <= MaxSteps
    ensures converged ==> StopsAfter(seed, rowTargets, colTargets, steps)
    ensures forall j: nat :: j < steps ==> !StopsAfter(seed, rowTargets, colTargets, j)
  {
    var constraints := [rowTargets, colTargets];
    m := seed;
    steps := 0;
    converged := false;
    while steps <= MaxSteps
      invariant steps <= MaxSteps + 1
      invariant m == Iterate(seed, rowTargets, colTargets, steps)
      invariant forall j: nat :: j < steps ==> !StopsAfter(seed, rowTargets, colTargets, j)
      decreases MaxSteps + 1 - steps
    {
      var a := AxisAt(steps);
      var constraint := constraints[steps % 2];
      NextStep(seed, rowTargets, colTargets, steps, constraints);
      var ok := TestTolerance(m, a, constraint);
      if ok {
        converged := true;
        return;
      }
      m := Step(m, a, constraint);
      steps := steps + 1;
    }
  }

  /** One more step of the loop is one more unfolding of Iterate. */
  lemma NextStep(seed: seq<Entry<Pair>>, rowTargets: seq<Entry<Region>>, colTargets: seq<Entry<Region>>, k: nat,
                 constraints: seq<seq<Entry<Region>>>)
    requires constraints == [rowTargets, colTargets]
    ensures constraints[k % 2] == TargetOn(AxisAt(k), rowTargets, colTargets)
    ensures Iterate(seed, rowTargets, colTargets, k + 1) ==
      Step(Iterate(seed, rowTargets, colTargets, k), AxisAt(k), constraints[k % 2])
    ensures StopsAfter(seed, rowTargets, colTargets, k) ==
      Balanced(Iterate(seed, rowTargets, colTargets, k), AxisAt(k), constraints[k % 2])
  {
  }

  // ---------------------------------------------------------------------
  // Properties of one step

  lemma {:induction false} MarginNonNegative(m: seq<Entry<Pair>>, a: Axis, r: Region)
    requires NonNegative(m)
    ensures Margin(m, a, r) >= 0.0
  {
    if m != [] {
      MarginNonNegative(m[..|m| - 1], a, r);
    }
  }

  /** A slice of a positive block that holds a cell has a positive sum. */
  lemma {:induction false} MarginPositive(m: seq<Entry<Pair>>, a: Axis, r: Region)
    requires AllPositive(m) && Occurs(m, a, r)
    ensures Margin(m, a, r) > 0.0
  {
    var p := m[..|m| - 1];
    if KeyOn(a, m[|m| - 1].key) == r {
      MarginNonNegative(p, a, r);
    } else {
      var i :| 0 <= i < |m| && KeyOn(a, m[i].key) == r;
      assert p[i] == m[i];
      MarginPositive(p, a, r);
    }
  }

  lemma ScaledDistributes(x: real, v: real, f: real)
    ensures Scaled(x + v, f) == Scaled(x, f) + Scaled(v, f)
  {
  }

  /** The sum of a slice after appending one cell. */
  lemma MarginSnoc(s: seq<Entry<Pair>>, e: Entry<Pair>, a: Axis, r: Region)
    ensures Margin(s + [e], a, r) == Margin(s, a, r) + (if KeyOn(a, e.key) == r then e.value else 0.0)
  {
    assert (s + [e])[..|s + [e]| - 1] == s;
  }

  /** Rescaling multiplies the sum of a slice with a finite ratio by that ratio. */
  lemma {:induction false} RescaleMargin(cells: seq<Entry<Pair>>, base: seq<Entry<Pair>>, a: Axis, target: seq<Entry<Region>>, r: Region, f: real)
    requires RatioAt(base, a, target, r) == Finite(f)
    ensures Margin(Rescale(cells, base, a, target), a, r) == Scaled(Margin(cells, a, r), f)
  {
    if cells != [] {
      var last := cells[|cells| - 1];
      var p := cells[..|cells| - 1];
      var rest := Rescale(p, base, a, target);
      RescaleMargin(p, base, a, target, r, f);
      var x := Margin(p, a, r);
      var out := Rescale(cells, base, a, target);
      if KeyOn(a, last.key) == r {
        assert out == rest + [Entry(last.key, Scaled(last.value, f))];
        MarginSnoc(rest, Entry(last.key, Scaled(last.value, f)), a, r);
        ScaledDistributes(x, last.value, f);
        assert Margin(cells, a, r) == x + last.value;
      } else {
        assert Margin(cells, a, r) == x;
        match RatioAt(base, a, target, KeyOn(a, last.key))
        case Finite(g) =>
          MarginSnoc(rest, Entry(last.key, Scaled(last.value, g)), a, r);
        case Infinite =>
        case Missing =>
      }
    }
  }

  /** Rescaling empties every slice whose ratio is not finite. */
  lemma {:induction false} RescaleDrops(cells: seq<Entry<Pair>>, base: seq<Entry<Pair>>, a: Axis, target: seq<Entry<Region>>, r: Region)
    requires !RatioAt(base, a, target, r).Finite?
    ensures !Occurs(Rescale(cells, base, a, target), a, r)
  {
    if cells != [] {
      var last := cells[|cells| - 1];
      var p := cells[..|cells| - 1];
      var rest := Rescale(p, base, a, target);
      RescaleDrops(p, base, a, target, r);
      match RatioAt(base, a, target, KeyOn(a, last.key))
      case Finite(g) =>
        var out := rest + [Entry(last.key, Scaled(last.value, g))];
        forall i | 0 <= i < |out| ensures KeyOn(a, out[i].key) != r {
          if i < |rest| {
            assert out[i] == rest[i];
          }
        }
      case Infinite =>
      case Missing =>
    }
  }

  lemma DivCancel(t: real, s: real)
    requires s != 0.0
    ensures Scaled(s, t / s) == t
  {
  }

  /**
   * After a step on axis a every slice with a finite ratio sums exactly to
   * its target, and every other slice of that axis is gone.
   */
  lemma StepMeetsTargets(m: seq<Entry<Pair>>, a: Axis, target: seq<Entry<Region>>, r: Region)
    ensures RatioAt(m, a, target, r).Finite? ==> Margin(Step(m, a, target), a, r) == Lookup(target, r).value
    ensures !RatioAt(m, a, target, r).Finite? ==> !Occurs(Step(m, a, target), a, r)
  {
    if RatioAt(m, a, target, r).Finite? {
      RescaleMargin(m, m, a, target, r, RatioAt(m, a, target, r).f);
      DivCancel(Lookup(target, r).value, Margin(m, a, r));
    } else {
      RescaleDrops(m, m, a, target, r);
    }
  }

  lemma ScaledPositive(x: real, y: real)
    requires x > 0.0 && y > 0.0
    ensures Scaled(x, y) > 0.0
  {
  }

  /** Rescaling by positive ratios keeps a positive block positive. */
  lemma {:induction false} RescalePositive(cells: seq<Entry<Pair>>, base: seq<Entry<Pair>>, a: Axis, target: seq<Entry<Region>>)
    requires AllPositive(cells) && AllPositive(base) && AllPositive(target)
    ensures AllPositive(Rescale(cells, base, a, target))
  {
    if cells != [] {
      var last := cells[|cells| - 1];
      var p := cells[..|cells| - 1];
      assert AllPositive(p) by {
        forall i | 0 <= i < |p| ensures p[i].value > 0.0 {
          assert p[i] == cells[i];
        }
      }
      RescalePositive(p, base, a, target);
      match RatioAt(base, a, target, KeyOn(a, last.key))
      case Finite(g) =>
        RatioPositive(base, a, target, KeyOn(a, last.key));
        ScaledPositive(last.value, g);
      case Infinite =>
      case Missing =>
    }
  }

  lemma PositiveQuotient(t: real, s: real)
    requires t > 0.0 && s > 0.0
    ensures t / s > 0.0
  {
  }

  /** Positive targets over a positive block give positive finite ratios. */
  lemma RatioPositive(m: seq<Entry<Pair>>, a: Axis, target: seq<Entry<Region>>, r: Region)
    requires AllPositive(m) && AllPositive(target)
    ensures RatioAt(m, a, target, r).Finite? ==> RatioAt(m, a, target, r).f > 0.0
  {
    if RatioAt(m, a, target, r).Finite? {
      MarginPositive(m, a, r);
      LookupPositive(target, r);
      PositiveQuotient(Lookup(target, r).value, Margin(m, a, r));
    }
  }

  /** With positive targets a step keeps every cell of a positive block positive. */
  lemma StepPositive(m: seq<Entry<Pair>>, a: Axis, target: seq<Entry<Region>>)
    requires AllPositive(m) && AllPositive(target)
    ensures AllPositive(Step(m, a, target))
  {
    RescalePositive(m, m, a, target);
  }

  /** Every cell of the block is at least zero. */
  predicate NonNegative<K>(s: seq<Entry<K>>)
  {
    forall i :: 0 <= i < |s| ==> s[i].value >= 0.0
  }

  /** A slice of a non-negative block sums to zero only when every cell in it is zero. */
  lemma {:induction false} MarginZero(m: seq<Entry<Pair>>, a: Axis, r: Region)
    requires NonNegative(m) && Margin(m, a, r) == 0.0
    ensures forall i :: 0 <= i < |m| && KeyOn(a, m[i].key) == r ==> m[i].value == 0.0
  {
    if m != [] {
      var p := m[..|m| - 1];
      MarginNonNegative(p, a, r);
      MarginZero(p, a, r);
      forall i | 0 <= i < |p| ensures p[i] == m[i] { }
    }
  }

  /**
   * An infinite factor on a non-negative block falls on a slice of zero
   * cells only: each becomes 0 * inf, which is NaN, so dropping the
   * slice is what the stacked block does.
   */
  lemma InfiniteSliceIsZero(m: seq<Entry<Pair>>, a: Axis, target: seq<Entry<Region>>, r: Region)
    requires NonNegative(m) && RatioAt(m, a, target, r) == Infinite
    ensures forall i :: 0 <= i < |m| && KeyOn(a, m[i].key) == r ==> m[i].value == 0.0
  {
    MarginZero(m, a, r);
  }

  /** A positive block never has an infinite factor. */
  lemma PositiveNeverInfinite(m: seq<Entry<Pair>>, a: Axis, target: seq<Entry<Region>>, r: Region)
    requires AllPositive(m)
    ensures RatioAt(m, a, target, r) != Infinite
  {
    if Occurs(m, a, r) {
      MarginPositive(m, a, r);
    }
  }

  /** Non-negative targets over a non-negative block give non-negative finite ratios. */
  lemma RatioNonNegative(m: seq<Entry<Pair>>, a: Axis, target: seq<Entry<Region>>, r: Region)
    requires NonNegative(m) && NonNegative(target)
    ensures RatioAt(m, a, target, r).Finite? ==> RatioAt(m, a, target, r).f >= 0.0
  {
    if RatioAt(m, a, target, r).Finite? {
      MarginNonNegative(m, a, r);
      var i := IndexOf(target, r);
      assert Lookup(target, r).value == target[i].value;
    }
  }

  /** Rescaling with non-negative targets keeps a non-negative block non-negative. */
  lemma {:induction false} RescaleNonNegative(cells: seq<Entry<Pair>>, base: seq<Entry<Pair>>, a: Axis, target: seq<Entry<Region>>)
    requires NonNegative(cells) && NonNegative(base) && NonNegative(target)
    ensures NonNegative(Rescale(cells, base, a, target))
  {
    if cells != [] {
      var last := cells[|cells| - 1];
      var p := cells[..|cells| - 1];
      assert NonNegative(p) by {
        forall i | 0 <= i < |p| ensures p[i].value >= 0.0 {
          assert p[i] == cells[i];
        }
      }
      RescaleNonNegative(p, base, a, target);
      match RatioAt(base, a, target, KeyOn(a, last.key))
      case Finite(g) =>
        RatioNonNegative(base, a, target, KeyOn(a, last.key));
        ScaledNonNegative(last.value, g);
      case Infinite =>
      case Missing =>
    }
  }

  lemma ScaledNonNegative(x: real, y: real)
    requires x >= 0.0 && y >= 0.0
    ensures Scaled(x, y) >= 0.0
  {
  }

  /** With non-negative targets a step keeps a non-negative block non-negative. */
  lemma StepNonNegative(m: seq<Entry<Pair>>, a: Axis, target: seq<Entry<Region>>)
    requires NonNegative(m) && NonNegative(target)
    ensures NonNegative(Step(m, a, target))
  {
    RescaleNonNegative(m, m, a, target);
  }

  /** Rescaling only keeps or drops cells: no new key appears and distinct keys stay distinct. */
  lemma {:induction false} RescaleKeys(cells: seq<Entry<Pair>>, base: seq<Entry<Pair>>, a: Axis, target: seq<Entry<Region>>)
    ensures KeysOf(Rescale(cells, base, a, target)) <= KeysOf(cells)
    ensures DistinctKeys(cells) ==> DistinctKeys(Rescale(cells, base, a, target))
  {
    if cells != [] {
      var last := cells[|cells| - 1];
      var p := cells[..|cells| - 1];
      var rest := Rescale(p, base, a, target);
      RescaleKeys(p, base, a, target);
      KeysOfSnoc(cells);
      if DistinctKeys(cells) {
        assert DistinctKeys(p) by {
          forall i, j | 0 <= i < j < |p| ensures p[i].key != p[j].key {
            assert p[i] == cells[i] && p[j] == cells[j];
          }
        }
      }
      match RatioAt(base, a, target, KeyOn(a, last.key))
      case Finite(g) =>
        var out := rest + [Entry(last.key, Scaled(last.value, g))];
        KeysOfSnoc(out);
        assert out[..|out| - 1] == rest;
      case Infinite =>
      case Missing =>
    }
  }

  /** Every block along the iteration keeps the seed's keys distinct. */
  lemma {:induction false} IterateDistinct(seed: seq<Entry<Pair>>, rowTargets: seq<Entry<Region>>, colTargets: seq<Entry<Region>>, k: nat)
    requires DistinctKeys(seed)
    ensures DistinctKeys(Iterate(seed, rowTargets, colTargets, k))
  {
    if k > 0 {
      IterateDistinct(seed, rowTargets, colTargets, k - 1);
      var prev := Iterate(seed, rowTargets, colTargets, k - 1);
      var a := AxisAt(k - 1);
      RescaleKeys(prev, prev, a, TargetOn(a, rowTargets, colTargets));
    }
  }

  /** A positive seed stays positive through every step when all targets are positive. */
  lemma {:induction false} IteratePositive(seed: seq<Entry<Pair>>, rowTargets: seq<Entry<Region>>, colTargets: seq<Entry<Region>>, k: nat)
    requires AllPositive(seed) && AllPositive(rowTargets) && AllPositive(colTargets)
    ensures AllPositive(Iterate(seed, rowTargets, colTargets, k))
  {
    if k > 0 {
      IteratePositive(seed, rowTargets, colTargets, k - 1);
      var a := AxisAt(k - 1);
      StepPositive(Iterate(seed, rowTargets, colTargets, k - 1), a, TargetOn(a, rowTargets, colTargets));
    }
  }

  /**
   * After k > 0 steps the block meets the constraint of the last step
   * exactly on every slice that step could rescale.
   */
  lemma LastStepExact(seed: seq<Entry<Pair>>, rowTargets: seq<Entry<Region>>, colTargets: seq<Entry<Region>>, k: nat, r: Region)
    requires k > 0
    ensures
      var a := AxisAt(k - 1);
      var target := TargetOn(a, rowTargets, colTargets);
      RatioAt(Iterate(seed, rowTargets, colTargets, k - 1), a, target, r).Finite? ==>
        Margin(Iterate(seed, rowTargets, colTargets, k), a, r) == Lookup(target, r).value
  {
    var a := AxisAt(k - 1);
    StepMeetsTargets(Iterate(seed, rowTargets, colTargets, k - 1), a, TargetOn(a, rowTargets, colTargets), r);
  }

  /** A ratio within tolerance of one puts the target within the tolerance band around the sum. */
  lemma WithinBand(t: real, s: real)
    requires s > 0.0 && Abs(1.0 - t / s) <= Tolerance
    ensures (1.0 - Tolerance) * s <= t <= (1.0 + Tolerance) * s
  {
    var f := t / s;
    assert 0.95 <= f <= 1.05;
    assert t == Scaled(s, f);
    ScaledMonotone(s, 0.95, f);
    ScaledMonotone(s, f, 1.05);
  }

  lemma ScaledMonotone(s: real, x: real, y: real)
    requires x <= y && s > 0.0
    ensures Scaled(s, x) <= Scaled(s, y)
  {
  }

  /**
   * When the stopping test passes on a positive block, every slice that
   * has a target sums to within five per cent of it.
   */
  lemma BalancedWithinTolerance(m: seq<Entry<Pair>>, a: Axis, target: seq<Entry<Region>>, i: nat)
    requires Balanced(m, a, target) && AllPositive(m)
    requires i < |m| && Lookup(target, KeyOn(a, m[i].key)).Some?
    ensures
      var r := KeyOn(a, m[i].key);
      (1.0 - Tolerance) * Margin(m, a, r) <= Lookup(target, r).value <= (1.0 + Tolerance) * Margin(m, a, r)
  {
    var r := KeyOn(a, m[i].key);
    assert Occurs(m, a, r);
    MarginPositive(m, a, r);
    BalancedMeaning(m, a, target);
    assert CellPasses(m, a, target, i);
    WithinBand(Lookup(target, r).value, Margin(m, a, r));
  }
}
