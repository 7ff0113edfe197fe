/**
 * The partitioned (symplectic) stepper (`SymplecticIntegrator`).
 *
 * A tableau row `s` is `[c_s, a_s, b_s]`: `c_s` advances the time, `a_s`
 * weights stage `s` on the entries outside the staggered mask and `b_s` on
 * the entries inside it. The stepper is never adaptive. `Forward`
 * accumulates `dState` in place in a local array; the pure functions
 * `TimeAfter` and `DeltaAfter` say what the stage loop has computed after
 * its first `s` passes.
 */
module Symplectic {
  import opened Vectors
  import opened Template

  /**
   * The default staggered mask: a zero boolean array shaped like the state
   * whose rows `leading / 2 .. leading - 1` are then set. In the row-major
   * flattening those rows are one contiguous block at the end.
   */
  method DefaultMask(dim: Shape) returns (mask: seq<bool>)
    ensures |mask| == dim.Size()
    ensures forall i | 0 <= i < dim.Size() :: mask[i] <==> dim.leading / 2 <= LeadingIndex(dim, i)
  {
    var m := new bool[dim.Size()](_ => false);
    var start := StaggeredStart(dim);
    StaggeredStartInRange(dim);
    for i := start to dim.Size()
      invariant forall j | 0 <= j < dim.Size() :: m[j] <==> start <= j < i
    {
      m[i] := true;
    }
    mask := m[..];
    forall i | 0 <= i < dim.Size()
      ensures mask[i] <==> dim.leading / 2 <= LeadingIndex(dim, i)
    {
      StaggeredBlock(dim, i);
    }
  }

  /** `d[sel] += k[sel] * coef` where `sel` picks the entries whose mask bit equals `select`. */
  function MaskedAdd(d: seq<real>, k: seq<real>, mask: seq<bool>, select: bool, coef: real): seq<real>
    requires |d| == |k| == |mask|
  {
    seq(|d|, i requires 0 <= i < |d| => if mask[i] == select then d[i] + k[i] * coef else d[i])
  }

  /** The masked in-place update `d[sel] += k[sel] * coef`, entry by entry. */
  method MaskedAccumulate(d: array<real>, k: seq<real>, mask: seq<bool>, select: bool, coef: real)
    requires d.Length == |k| == |mask|
    modifies d
    ensures d[..] == MaskedAdd(old(d[..]), k, mask, select, coef)
  {
    ghost var d0 := d[..];
    for i := 0 to d.Length
      invariant forall j | 0 <= j < i :: d[j] == MaskedAdd(d0, k, mask, select, coef)[j]
      invariant forall j | i <= j < d.Length :: d[j] == d0[j]
    {
      if mask[i] == select {
        d[i] := d[i] + k[i] * coef;
      }
    }
  }

  /**
   * The two masked updates of one stage together give every entry exactly
   * one of the two coefficients: `c2` inside the mask, `c1` outside it.
   */
  lemma PartitionedUpdate(d: seq<real>, k: seq<real>, mask: seq<bool>, c1: real, c2: real)
    requires |d| == |k| == |mask|
    ensures var u := MaskedAdd(MaskedAdd(d, k, mask, false, c1), k, mask, true, c2);
            && |u| == |d|
            && forall i | 0 <= i < |d| :: u[i] == d[i] + k[i] * (if mask[i] then c2 else c1)
  {
  }

  class SymplecticIntegrator {
    const tableau: seq<seq<real>>
    const dim: Shape
    const size: nat
    const staggeredMask: seq<bool>
    const rtol: Option<real>
    const atol: Option<real>
    const adaptive: bool
    const numStages: nat

    /** The invariants of the constant configuration. */
    predicate Valid()
    {
      && size == dim.Size()
      && numStages == |tableau|
      && (forall s | 0 <= s < numStages :: |tableau[s]| >= 3)
      && |staggeredMask| == size
      && !adaptive
    }

    constructor (tableau: seq<seq<real>>, dim: Shape, staggeredMask: Option<seq<bool>>,
                 rtol: Option<real>, atol: Option<real>)
      requires forall s | 0 <= s < |tableau| :: |tableau[s]| >= 3
      requires staggeredMask.Some? ==> |staggeredMask.value| == dim.Size()
      ensures Valid()
      ensures this.tableau == tableau && this.dim == dim && this.rtol == rtol && this.atol == atol
      ensures numStages == |tableau| && !adaptive
      ensures staggeredMask.Some? ==> this.staggeredMask == staggeredMask.value
      ensures staggeredMask.None? ==>
                forall i | 0 <= i < dim.Size() ::
                  this.staggeredMask[i] <==> dim.leading / 2 <= LeadingIndex(dim, i)
    {
      var mask: seq<bool>;
      if staggeredMask.None? {
        mask := DefaultMask(dim);
      } else {
        mask := staggeredMask.value;
      }
      this.staggeredMask := mask;
      this.tableau := tableau;
      this.dim := dim;
      size := dim.Size();
      this.rtol := rtol;
      this.atol := atol;
      adaptive := false;
      numStages := |tableau|;
    }

    /** Column `col` of the first `s` tableau rows. */
    function TableauColumn(col: nat, s: nat): (c: seq<real>)
      requires Valid() && col < 3 && s <= numStages
      ensures |c| == s
    {
      seq(s, j requires 0 <= j < s => tableau[j][col])
    }

    /** `current_time` after the first `s` passes of the stage loop. */
    function TimeAfter(t0: real, h: real, s: nat): real
      requires Valid() && s <= numStages
    {
      if s == 0 then t0 else TimeAfter(t0, h, s - 1) + h * tableau[s - 1][0]
    }

    /** `aux` of stage `s`: `rhs` at the time and state the loop has reached, times `h`. */
    function StageDerivative(rhs: (real, seq<real>) -> seq<real>, t0: real, y0: seq<real>, h: real,
                             s: nat): (k: seq<real>)
      requires Valid() && |y0| == size && ShapePreserving(rhs, size) && s < numStages
      ensures |k| == size
      decreases s, 1
    {
      Scale(rhs(TimeAfter(t0, h, s), Add(y0, DeltaAfter(rhs, t0, y0, h, s))), h)
    }

    /** `dState` after the first `s` passes of the stage loop. */
    function DeltaAfter(rhs: (real, seq<real>) -> seq<real>, t0: real, y0: seq<real>, h: real,
                        s: nat): (d: seq<real>)
      requires Valid() && |y0| == size && ShapePreserving(rhs, size) && s <= numStages
      ensures |d| == size
      decreases s, 0
    {
      if s == 0 then Zeros(size)
      else
        var k := StageDerivative(rhs, t0, y0, h, s - 1);
        var d := DeltaAfter(rhs, t0, y0, h, s - 1);
        MaskedAdd(MaskedAdd(d, k, staggeredMask, false, tableau[s - 1][1]),
                  k, staggeredMask, true, tableau[s - 1][2])
    }

    /** The stage derivatives `k_0 .. k_{s-1}` as rows. */
    function Derivatives(rhs: (real, seq<real>) -> seq<real>, t0: real, y0: seq<real>, h: real,
                         s: nat): (ks: seq<seq<real>>)
      requires Valid() && |y0| == size && ShapePreserving(rhs, size) && s <= numStages
      ensures IsMatrix(ks, s, size)
      ensures forall j | 0 <= j < s :: ks[j] == StageDerivative(rhs, t0, y0, h, j)
    {
      seq(s, j requires 0 <= j < s => StageDerivative(rhs, t0, y0, h, j))
    }

    /**
     * `forward`: the stage loop evaluates `rhs` at the running time and at
     * `y0 + dState`, advances the time by `h * c_s` and adds the stage to
     * `dState` with weight `a_s` outside the mask and `b_s` inside it.
     * The step is returned unchanged; `y0` is a value and stays as it was.
     */
    method Forward(rhs: (real, seq<real>) -> seq<real>, t0: real, y0: seq<real>, h: real)
      returns (r: Step)
      requires Valid() && |y0| == size && ShapePreserving(rhs, size)
      ensures r.timestep == h
      ensures r.finalTime == TimeAfter(t0, h, numStages)
      ensures r.dState == DeltaAfter(rhs, t0, y0, h, numStages)
      ensures r.finalState == Add(y0, r.dState)
    {
      var currentTime := t0;
      var dState := new real[size](_ => 0.0);
      for stage := 0 to numStages
        invariant dState.Length == size
        invariant currentTime == TimeAfter(t0, h, stage)
        invariant dState[..] == DeltaAfter(rhs, t0, y0, h, stage)
      {
        var aux := Scale(rhs(currentTime, Add(y0, dState[..])), h);
        assert aux == StageDerivative(rhs, t0, y0, h, stage);
        currentTime := currentTime + h * tableau[stage][0];
        MaskedAccumulate(dState, aux, staggeredMask, false, tableau[stage][1]);
        MaskedAccumulate(dState, aux, staggeredMask, true, tableau[stage][2]);
      }
      r := Step(h, currentTime, Add(y0, dState[..]), dState[..]);
    }

    /**
     * The final time is `t0 + h * sum_s c_s`, and more generally stage `s`
     * evaluates `rhs` at `t0 + h * sum_{j<s} c_j`.
     */
    lemma {:induction false} TimeIsPrefixSum(t0: real, h: real, s: nat)
      requires Valid() && s <= numStages
      ensures TimeAfter(t0, h, s) == t0 + h * Sum(TableauColumn(0, s))
    {
      if s > 0 {
        TimeIsPrefixSum(t0, h, s - 1);
        var c := TableauColumn(0, s);
        assert c[..s - 1] == TableauColumn(0, s - 1);
        assert h * Sum(c) == h * Sum(c[..s - 1]) + h * c[s - 1];
      }
    }

    /**
     * Entry `i` of `dState` after `s` stages is the sum over those stages of
     * `k_j[i]` weighted by column 1 of the tableau when `mask[i]` is false
     * and by column 2 when it is true.
     */
    lemma {:induction false} DeltaIsPartitionedSum(rhs: (real, seq<real>) -> seq<real>, t0: real,
                                                   y0: seq<real>, h: real, s: nat, i: nat)
      requires Valid() && |y0| == size && ShapePreserving(rhs, size) && s <= numStages && i < size
      ensures var col := if staggeredMask[i] then 2 else 1;
              DeltaAfter(rhs, t0, y0, h, s)[i]
              == Dot(Column(Derivatives(rhs, t0, y0, h, s), i), TableauColumn(col, s))
    {
      if s > 0 {
        DeltaIsPartitionedSum(rhs, t0, y0, h, s - 1, i);
        DeltaStep(rhs, t0, y0, h, s, i);
      }
    }

    /** One pass of the stage loop adds one term to each entry's partitioned sum. */
    lemma DeltaStep(rhs: (real, seq<real>) -> seq<real>, t0: real, y0: seq<real>, h: real,
                    s: nat, i: nat)
      requires Valid() && |y0| == size && ShapePreserving(rhs, size) && 0 < s <= numStages && i < size
      ensures var col := if staggeredMask[i] then 2 else 1;
              var k := StageDerivative(rhs, t0, y0, h, s - 1);
              && DeltaAfter(rhs, t0, y0, h, s)[i] == DeltaAfter(rhs, t0, y0, h, s - 1)[i] + k[i] * tableau[s - 1][col]
              && Dot(Column(Derivatives(rhs, t0, y0, h, s), i), TableauColumn(col, s))
                 == Dot(Column(Derivatives(rhs, t0, y0, h, s - 1), i), TableauColumn(col, s - 1))
                    + k[i] * tableau[s - 1][col]
    {
      var col := if staggeredMask[i] then 2 else 1;
      var k := StageDerivative(rhs, t0, y0, h, s - 1);
      var d := DeltaAfter(rhs, t0, y0, h, s - 1);
      PartitionedUpdate(d, k, staggeredMask, tableau[s - 1][1], tableau[s - 1][2]);
      var w := TableauColumn(col, s);
      var v := Column(Derivatives(rhs, t0, y0, h, s), i);
      assert w[..s - 1] == TableauColumn(col, s - 1);
      assert v[..s - 1] == Column(Derivatives(rhs, t0, y0, h, s - 1), i);
      assert v[s - 1] == k[i];
    }

    /** With a constant right-hand side `v` every stage stores `h * v`. */
    lemma ConstantDerivatives(rhs: (real, seq<real>) -> seq<real>, t0: real, y0: seq<real>, h: real,
                              v: seq<real>, i: nat)
      requires Valid() && |y0| == size && ShapePreserving(rhs, size) && i < size
      requires |v| == size && forall t: real, y: seq<real> :: rhs(t, y) == v
      ensures var u := Column(Derivatives(rhs, t0, y0, h, numStages), i);
              forall j | 0 <= j < numStages :: u[j] == v[i] * h
    {
      var ks := Derivatives(rhs, t0, y0, h, numStages);
      forall j | 0 <= j < numStages
        ensures ks[j][i] == v[i] * h
      {
        var t, y := TimeAfter(t0, h, j), Add(y0, DeltaAfter(rhs, t0, y0, h, j));
        assert rhs(t, y) == v;
      }
    }

    /**
     * With a constant right-hand side `v`, a step moves entry `i` by
     * `h * v[i]` times the sum of the coefficient column its partition uses.
     */
    lemma ConstantRhsStep(rhs: (real, seq<real>) -> seq<real>, t0: real, y0: seq<real>, h: real,
                          v: seq<real>, i: nat)
      requires Valid() && |y0| == size && ShapePreserving(rhs, size) && i < size
      requires |v| == size && forall t: real, y: seq<real> :: rhs(t, y) == v
      ensures var col := if staggeredMask[i] then 2 else 1;
              DeltaAfter(rhs, t0, y0, h, numStages)[i] == v[i] * h * Sum(TableauColumn(col, numStages))
    {
      ConstantDerivatives(rhs, t0, y0, h, v, i);
      ConstantColumnStep(rhs, t0, y0, h, i, v[i] * h);
    }

    /** When every stage holds `c` at entry `i`, the step moves entry `i` by `c` times its column sum. */
    lemma ConstantColumnStep(rhs: (real, seq<real>) -> seq<real>, t0: real, y0: seq<real>, h: real,
                             i: nat, c: real)
      requires Valid() && |y0| == size && ShapePreserving(rhs, size) && i < size
      requires var u := Column(Derivatives(rhs, t0, y0, h, numStages), i);
               forall j | 0 <= j < numStages :: u[j] == c
      ensures var col := if staggeredMask[i] then 2 else 1;
              DeltaAfter(rhs, t0, y0, h, numStages)[i] == c * Sum(TableauColumn(col, numStages))
    {
      var col := if staggeredMask[i] then 2 else 1;
      DeltaIsPartitionedSum(rhs, t0, y0, h, numStages, i);
      DotConstantWeights(Column(Derivatives(rhs, t0, y0, h, numStages), i), TableauColumn(col, numStages), c);
    }
  }
}
