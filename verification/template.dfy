/**
 * What the two steppers share: the shape of the state, the value a step
 * returns, the error conditions, the contract on the right-hand side and
 * the zeroed stage buffer of `IntegratorTemplate.get_aux_array`.
 */
module Template {
  import opened Vectors

  datatype Option<T> = None | Some(value: T)

  /**
   * The system shape `sys_dim`, flattened row-major: `leading` is `sys_dim[0]`
   * and `trailing` the product of the remaining dimensions (1 for a vector state).
   */
  datatype Shape = Shape(leading: nat, trailing: nat)
  {
    function Size(): nat
    {
      leading * trailing
    }
  }

  /** What `forward` returns: `timestep, (final_time, final_state, dState)`. */
  datatype Step = Step(timestep: real, finalTime: real, finalState: seq<real>, dState: seq<real>)

  datatype StepError =
    | EmptyErrorNorm       // the max-reduction of the error estimate over an empty state
    | MissingTolerance     // an adaptive step with `atol` or `rtol` left unset
    | RetryLimitExceeded   // rejected on every attempt the retry budget allows

  datatype Result<T> = Ok(value: T) | Err(error: StepError)

  /** The right-hand side returns a derivative shaped like the state it is given. */
  ghost predicate ShapePreserving(rhs: (real, seq<real>) -> seq<real>, n: nat)
  {
    forall t: real, y: seq<real> :: |y| == n ==> |rhs(t, y)| == n
  }

  /**
   * `get_aux_array`: one zero array shaped like `currentState` per stage,
   * stacked. Stacking an empty list raises, so there is no buffer (`None`)
   * without stages.
   */
  function AuxArray(numStages: nat, currentState: seq<real>): (aux: Option<seq<seq<real>>>)
    ensures aux.None? <==> numStages == 0
    ensures aux.Some? ==> IsMatrix(aux.value, numStages, |currentState|)
    ensures aux.Some? ==>
              forall s, i | 0 <= s < numStages && 0 <= i < |currentState| :: aux.value[s][i] == 0.0
  {
    if numStages == 0 then None else Some(ZeroMatrix(numStages, |currentState|))
  }

  /** The first flat index of the row `leading / 2`. */
  function StaggeredStart(dim: Shape): nat
  {
    (dim.leading / 2) * dim.trailing
  }

  /** Leading-dimension index of flat index `i`. */
  function LeadingIndex(dim: Shape, i: nat): nat
    requires i < dim.Size()
  {
    assert dim.trailing != 0;
    i / dim.trailing
  }

  lemma StaggeredStartInRange(dim: Shape)
    ensures StaggeredStart(dim) <= dim.Size()
  {
    MulMonotone(dim.leading / 2, dim.leading, dim.trailing);
  }

  /**
   * Row-major flattening puts the rows `leading / 2 .. leading - 1` in one
   * contiguous block, beginning at `StaggeredStart(dim)`.
   */
  lemma StaggeredBlock(dim: Shape, i: nat)
    requires i < dim.Size()
    ensures StaggeredStart(dim) <= i <==> dim.leading / 2 <= LeadingIndex(dim, i)
  {
    var t := dim.trailing;
    var half := dim.leading / 2;
    var q := LeadingIndex(dim, i);
    var r := i % t;
    assert i == q * t + r && 0 <= r < t;
    if half <= q {
      MulMonotone(half, q, t);
    } else {
      MulMonotone(q + 1, half, t);
      assert (q + 1) * t == q * t + t;
    }
  }

  lemma MulMonotone(a: nat, b: nat, t: nat)
    requires a <= b
    ensures a * t <= b * t
  {
    assert b * t == a * t + (b - a) * t;
  }
}
