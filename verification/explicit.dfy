/**
 * The explicit Runge-Kutta stepper (`ExplicitIntegrator`).
 *
 * A tableau row `s` is `[c_s, a_{s,0}, ..., a_{s,n-1}]`; a final-weights row
 * is `[unused, b_0, ..., b_{n-1}]`. Two final-weights rows make the stepper
 * adaptive: the two combinations form an embedded pair whose disagreement
 * drives the step-size controller.
 *
 * The object owns a stage buffer `aux` (one row per stage) that `Forward`
 * fills in place and clears before it returns. The pure function `Run`
 * says what one call computes from the buffer contents it starts with;
 * since a rejected attempt retries on the same buffer, stale rows of the
 * rejected attempt are an input of the retry.
 */
module Explicit {
  import opened Vectors
  import opened Template

  /** The `tol=0.9` safety factor that `forward` leaves at its default. */
  const Safety: real := 0.9

  /** Outcome of the step-size controller: the step to use next and whether to redo this one. */
  datatype Control = Control(timestep: real, redo: bool)

  /** What one pass over the stages decides: return a step, fail, or redo with a new step. */
  datatype Verdict = Accept(step: Step) | Reject(error: StepError) | Retry(timestep: real)

  class ExplicitIntegrator {
    const tableau: seq<seq<real>>
    const finalWeights: seq<seq<real>>
    const dim: Shape
    const size: nat
    const rtol: Option<real>
    const atol: Option<real>
    const adaptive: bool
    const numStages: nat
    const aux: array<seq<real>>

    /** The invariants of the constant configuration. */
    predicate WellFormed()
    {
      && size == dim.Size()
      && numStages == |tableau|
      && IsMatrix(tableau, numStages, numStages + 1)
      && |finalWeights| >= 1
      && IsMatrix(finalWeights, |finalWeights|, numStages + 1)
      && adaptive == (|finalWeights| == 2)
    }

    ghost predicate Valid()
      reads aux
    {
      && WellFormed()
      && aux.Length == numStages
      && forall s | 0 <= s < numStages :: |aux[s]| == size
    }

    /** The buffer is all zeros, as it is between calls. */
    ghost predicate Idle()
      reads aux
      requires Valid()
    {
      aux[..] == ZeroMatrix(numStages, size)
    }

    /** Stage `s` weights only earlier stages: `a_{s,j} == 0` whenever `j >= s`. */
    predicate StrictlyLowerTriangular()
      requires WellFormed()
    {
      forall s, j | 0 <= s < numStages && s < j <= numStages :: tableau[s][j] == 0.0
    }

    constructor (tableau: seq<seq<real>>, finalWeights: seq<seq<real>>, dim: Shape,
                 rtol: Option<real>, atol: Option<real>)
      requires IsMatrix(tableau, |tableau|, |tableau| + 1)
      requires |finalWeights| >= 1 && IsMatrix(finalWeights, |finalWeights|, |tableau| + 1)
      ensures Valid() && Idle() && fresh(aux)
      ensures this.tableau == tableau && this.finalWeights == finalWeights
      ensures this.dim == dim && size == dim.Size() && this.rtol == rtol && this.atol == atol
      ensures numStages == |tableau| && adaptive == (|finalWeights| == 2)
      ensures numStages > 0 ==> AuxArray(numStages, Zeros(size)) == Some(aux[..])
      ensures numStages == 0 ==> aux[..] == []
    {
      this.tableau := tableau;
      this.finalWeights := finalWeights;
      this.dim := dim;
      size := dim.Size();
      this.rtol := rtol;
      this.atol := atol;
      adaptive := |finalWeights| == 2;
      numStages := |tableau|;
      var n := dim.Size();
      aux := new seq<real>[|tableau|](_ => Zeros(n));
      new;
      assert aux[..] == ZeroMatrix(numStages, size);
    }

    /** `rhs(t0 + c_s * h, state) * h`: the scaled derivative stage `s` stores. */
    function StageDerivative(rhs: (real, seq<real>) -> seq<real>, t0: real, h: real, s: nat,
                             state: seq<real>): seq<real>
      requires WellFormed() && s < numStages
    {
      Scale(rhs(t0 + tableau[s][0] * h, state), h)
    }

    /** `aux[s]`: the scaled derivative of stage `s`, evaluated on the buffer `a`. */
    function StageValue(rhs: (real, seq<real>) -> seq<real>, t0: real, y0: seq<real>, h: real,
                        s: nat, a: seq<seq<real>>): (k: seq<real>)
      requires WellFormed() && |y0| == size && ShapePreserving(rhs, size)
      requires s < numStages && IsMatrix(a, numStages, size)
      ensures |k| == size
    {
      StageDerivative(rhs, t0, h, s, Add(y0, Contract(tableau[s][1..], a, size)))
    }

    /** The buffer after the first `k` passes of the stage loop, starting from `auxIn`. */
    function Stages(rhs: (real, seq<real>) -> seq<real>, t0: real, y0: seq<real>, h: real,
                    auxIn: seq<seq<real>>, k: nat): (a: seq<seq<real>>)
      requires WellFormed() && |y0| == size && ShapePreserving(rhs, size)
      requires IsMatrix(auxIn, numStages, size) && k <= numStages
      ensures IsMatrix(a, numStages, size)
      decreases k
    {
      if k == 0 then auxIn
      else
        var a := Stages(rhs, t0, y0, h, auxIn, k - 1);
        a[k - 1 := StageValue(rhs, t0, y0, h, k - 1, a)]
    }

    /**
     * The textbook explicit Runge-Kutta stages: `k_s = h * f(t0 + c_s h, y0 + sum_{j<s} a_{s,j} k_j)`,
     * with no buffer involved.
     */
    function ExplicitStages(rhs: (real, seq<real>) -> seq<real>, t0: real, y0: seq<real>, h: real,
                            k: nat): (ks: seq<seq<real>>)
      requires WellFormed() && |y0| == size && ShapePreserving(rhs, size) && k <= numStages
      ensures IsMatrix(ks, k, size)
      decreases k
    {
      if k == 0 then []
      else
        var prev := ExplicitStages(rhs, t0, y0, h, k - 1);
        prev + [StageDerivative(rhs, t0, h, k - 1, Add(y0, Contract(tableau[k - 1][1..k], prev, size)))]
    }

    /** `y0` plus the stages combined with final-weights row `row`. */
    function Candidate(y0: seq<real>, row: nat, a: seq<seq<real>>): (y: seq<real>)
      requires WellFormed() && |y0| == size && row < |finalWeights| && IsMatrix(a, numStages, size)
      ensures |y| == size
    {
      Add(y0, Contract(finalWeights[row][1..], a, size))
    }

    /**
     * `update_timestep`: the error estimate is the max-norm of `y1 - y2`,
     * which the controller turns into the next step and the decision to redo.
     * When the pair agrees the step is kept, and it is accepted whenever
     * `atol` is non-negative.
     */
    function UpdateTimestep(y1: seq<real>, y2: seq<real>, h: real, pow: (real, real) -> real,
                            safety: real): (c: Control)
      requires atol.Some? && rtol.Some?
      requires |y1| == |y2| > 0 && (numStages > 0 || y1 == y2)
      ensures var err := MaxAbsDiff(y1, y2);
              c.redo <==> err > atol.value + rtol.value * err
      ensures y1 == y2 ==> c.timestep == h && (atol.value >= 0.0 ==> !c.redo)
    {
      var err := MaxAbsDiff(y1, y2);
      assert y1 == y2 ==> err == 0.0 by {
        if y1 == y2 {
          MaxAbsDiffSelf(y1);
        }
      }
      StepControl(err, h, pow, safety)
    }

    /**
     * The controller on an error estimate `err`: the tolerance is
     * `relerr = atol + rtol * err`; the step is redone exactly when `err`
     * exceeds it; a non-zero `err` corrects the step, which never becomes
     * zero unless it was; a zero `err` keeps the step.
     */
    function StepControl(err: real, h: real, pow: (real, real) -> real, safety: real): (c: Control)
      requires atol.Some? && rtol.Some? && (numStages > 0 || err == 0.0)
      ensures c.redo <==> err > atol.value + rtol.value * err
      ensures err == 0.0 ==> c.timestep == h && (atol.value >= 0.0 ==> !c.redo)
      ensures c.timestep == 0.0 ==> h == 0.0
      ensures err != 0.0 && h * safety * pow((atol.value + rtol.value * err) / err, 1.0 / (numStages as real)) == 0.0
              ==> c.timestep == h
    {
      var relerr := atol.value + rtol.value * err;
      var timestep := if err != 0.0 then Corrected(h, relerr, err, pow, safety) else h;
      Control(timestep, err > relerr)
    }

    /** The corrected step `h * safety * (relerr / err) ** (1 / num_stages)`, unless that is zero. */
    function Corrected(h: real, relerr: real, err: real, pow: (real, real) -> real,
                       safety: real): (h': real)
      requires err != 0.0 && numStages > 0
      ensures h' == 0.0 ==> h == 0.0
      ensures h * safety * pow(relerr / err, 1.0 / (numStages as real)) == 0.0 ==> h' == h
    {
      var corr := h * safety * pow(relerr / err, 1.0 / (numStages as real));
      if corr != 0.0 then corr else h
    }

    /** The controller applied to the embedded pair of the stages `a`. */
    function ErrorControl(y0: seq<real>, h: real, pow: (real, real) -> real,
                          a: seq<seq<real>>): (c: Control)
      requires WellFormed() && adaptive && size > 0 && atol.Some? && rtol.Some?
      requires |y0| == size && IsMatrix(a, numStages, size)
    {
      assert numStages == 0 ==> finalWeights[0][1..] == [] == finalWeights[1][1..] && a == [];
      UpdateTimestep(Candidate(y0, 0, a), Candidate(y0, 1, a), h, pow, Safety)
    }

    /**
     * The embedded pair of the stages `a` agrees to within the tolerance:
     * `err <= atol + rtol * err` for the max-norm `err` of their difference.
     */
    predicate WithinTolerance(y0: seq<real>, a: seq<seq<real>>)
      requires WellFormed() && adaptive && size > 0 && atol.Some? && rtol.Some?
      requires |y0| == size && IsMatrix(a, numStages, size)
    {
      var err := MaxAbsDiff(Candidate(y0, 0, a), Candidate(y0, 1, a));
      err <= atol.value + rtol.value * err
    }

    /**
     * The part of `forward` after the stage loop, on the filled buffer `a`:
     * combine the stages and, when adaptive, consult the controller.
     */
    function Attempt(pow: (real, real) -> real, t0: real, y0: seq<real>, h: real,
                     a: seq<seq<real>>): (v: Verdict)
      requires WellFormed() && |y0| == size && IsMatrix(a, numStages, size)
      ensures v.Accept? ==> v.step.finalTime == t0 + h
    {
      var dState := Contract(finalWeights[0][1..], a, size);
      var finalState := Add(y0, dState);
      if !adaptive then Accept(Step(h, t0 + h, finalState, dState))
      else if size == 0 then Reject(EmptyErrorNorm)
      else if atol.None? || rtol.None? then Reject(MissingTolerance)
      else
        var c := ErrorControl(y0, h, pow, a);
        if c.redo then Retry(c.timestep)
        else Accept(Step(c.timestep, t0 + h, finalState, dState))
    }

    /** The verdict of an attempt at step `h` on an idle buffer, in terms of the textbook stages. */
    function FreshAttempt(rhs: (real, seq<real>) -> seq<real>, pow: (real, real) -> real, t0: real,
                          y0: seq<real>, h: real): Verdict
      requires WellFormed() && |y0| == size && ShapePreserving(rhs, size)
    {
      Attempt(pow, t0, y0, h, ExplicitStages(rhs, t0, y0, h, numStages))
    }

    /**
     * One call of `forward` on a buffer holding `auxIn`, allowing at most
     * `fuel` retries of a rejected step. A retry reuses the buffer as the
     * rejected attempt left it.
     */
    function Run(rhs: (real, seq<real>) -> seq<real>, pow: (real, real) -> real, t0: real,
                 y0: seq<real>, h: real, auxIn: seq<seq<real>>, fuel: nat): (r: Result<Step>)
      requires WellFormed() && |y0| == size && ShapePreserving(rhs, size)
      requires IsMatrix(auxIn, numStages, size)
      decreases fuel, 1
    {
      RunOn(rhs, pow, t0, y0, h, Stages(rhs, t0, y0, h, auxIn, numStages), fuel)
    }

    function RunOn(rhs: (real, seq<real>) -> seq<real>, pow: (real, real) -> real, t0: real,
                 y0: seq<real>, h: real, a: seq<seq<real>>, fuel: nat): (r: Result<Step>)
      requires WellFormed() && |y0| == size && ShapePreserving(rhs, size)
      requires IsMatrix(a, numStages, size)
      decreases fuel, 0
    {
      match Attempt(pow, t0, y0, h, a)
      case Accept(step) => Ok(step)
      case Reject(error) => Err(error)
      case Retry(h') => if fuel == 0 then Err(RetryLimitExceeded) else Run(rhs, pow, t0, y0, h', a, fuel - 1)
    }

    /**
     * The buffer as the last attempt of a call leaves it: the stages of the
     * attempt that returned or failed. The errors are exceptions in the
     * source, which skip the clearing of the buffer.
     */
    function LastStages(rhs: (real, seq<real>) -> seq<real>, pow: (real, real) -> real, t0: real,
                        y0: seq<real>, h: real, auxIn: seq<seq<real>>, fuel: nat): (a: seq<seq<real>>)
      requires WellFormed() && |y0| == size && ShapePreserving(rhs, size)
      requires IsMatrix(auxIn, numStages, size)
      ensures IsMatrix(a, numStages, size)
      decreases fuel
    {
      var a := Stages(rhs, t0, y0, h, auxIn, numStages);
      match Attempt(pow, t0, y0, h, a)
      case Retry(h') => if fuel == 0 then a else LastStages(rhs, pow, t0, y0, h', a, fuel - 1)
      case _ => a
    }

    /**
     * `forward`: fills the buffer stage by stage, combines the stages, and
     * when adaptive either accepts or retries with the corrected step. The
     * buffer is cleared when a step is returned; an error leaves the stages
     * of the last attempt in it.
     */
    method Forward(rhs: (real, seq<real>) -> seq<real>, pow: (real, real) -> real, t0: real,
                   y0: seq<real>, h: real, fuel: nat) returns (r: Result<Step>)
      requires Valid() && |y0| == size && ShapePreserving(rhs, size)
      modifies aux
      ensures Valid()
      ensures r == Run(rhs, pow, t0, y0, h, old(aux[..]), fuel)
      ensures r.Ok? ==> Idle()
      ensures r.Err? ==> aux[..] == LastStages(rhs, pow, t0, y0, h, old(aux[..]), fuel)
      decreases fuel
    {
      FillStages(rhs, t0, y0, h);
      var finalTime := t0 + h;
      var dState := Contract(finalWeights[0][1..], aux[..], size);
      var finalState := Add(y0, dState);
      r := Ok(Step(h, finalTime, finalState, dState));
      if adaptive {
        if size == 0 {
          return Err(EmptyErrorNorm);
        } else if atol.None? || rtol.None? {
          return Err(MissingTolerance);
        }
        var finalState2 := Add(y0, Contract(finalWeights[1][1..], aux[..], size));
        assert numStages == 0 ==> finalState == finalState2;
        var control := UpdateTimestep(finalState, finalState2, h, pow, Safety);
        if control.redo {
          if fuel == 0 {
            return Err(RetryLimitExceeded);
          }
          r := Forward(rhs, pow, t0, y0, control.timestep, fuel - 1);
          if r.Err? {
            return;
          }
        } else {
          r := Ok(Step(control.timestep, finalTime, finalState, dState));
        }
      }
      ClearBuffer();
    }

    /** The stage loop of `forward`: stage `s` reads the whole buffer and overwrites row `s`. */
    method FillStages(rhs: (real, seq<real>) -> seq<real>, t0: real, y0: seq<real>, h: real)
      requires Valid() && |y0| == size && ShapePreserving(rhs, size)
      modifies aux
      ensures Valid()
      ensures aux[..] == Stages(rhs, t0, y0, h, old(aux[..]), numStages)
    {
      ghost var auxIn := aux[..];
      for stage := 0 to numStages
        invariant Valid()
        invariant aux[..] == Stages(rhs, t0, y0, h, auxIn, stage)
      {
        var currentState := Add(y0, Contract(tableau[stage][1..], aux[..], size));
        aux[stage] := StageDerivative(rhs, t0, h, stage, currentState);
      }
    }

    /** `aux[:] = 0.0`. */
    method ClearBuffer()
      requires Valid()
      modifies aux
      ensures Valid() && Idle()
    {
      for s := 0 to numStages
        invariant Valid()
        invariant forall j | 0 <= j < s :: aux[j] == Zeros(size)
      {
        aux[s] := Zeros(size);
      }
      assert aux[..] == ZeroMatrix(numStages, size);
    }

    /**
     * Stage `s` of the loop sees only the stages before it whenever the rows
     * from `s` on hold zeros (the first attempt, on an idle buffer) or the
     * tableau is strictly lower-triangular (any buffer, stale rows included):
     * the loop then computes the textbook explicit stages, and leaves the
     * rows it has not reached untouched.
     */
    lemma {:induction false} StagesMatchExplicit(rhs: (real, seq<real>) -> seq<real>, t0: real,
                                                 y0: seq<real>, h: real, auxIn: seq<seq<real>>, k: nat)
      requires WellFormed() && |y0| == size && ShapePreserving(rhs, size)
      requires IsMatrix(auxIn, numStages, size) && k <= numStages
      requires StrictlyLowerTriangular() || auxIn == ZeroMatrix(numStages, size)
      ensures Stages(rhs, t0, y0, h, auxIn, k)[..k] == ExplicitStages(rhs, t0, y0, h, k)
      ensures forall j | k <= j < numStages :: Stages(rhs, t0, y0, h, auxIn, k)[j] == auxIn[j]
      decreases k
    {
      if k > 0 {
        StagesMatchExplicit(rhs, t0, y0, h, auxIn, k - 1);
        var a := Stages(rhs, t0, y0, h, auxIn, k - 1);
        var prev := ExplicitStages(rhs, t0, y0, h, k - 1);
        var w := tableau[k - 1][1..];
        var b := prev + ZeroMatrix(numStages - (k - 1), size);
        assert IsMatrix(b, numStages, size);
        forall j | 0 <= j < numStages
          ensures w[j] == 0.0 || a[j] == b[j]
        {
          if j < k - 1 {
            assert a[j] == a[..k - 1][j];
          } else if !StrictlyLowerTriangular() {
            assert a[j] == auxIn[j] == Zeros(size);
          } else {
            assert w[j] == tableau[k - 1][j + 1];
          }
        }
        ContractAgree(w, a, b, size);
        ContractZeroTail(w, b, k - 1, size);
        assert b[..k - 1] == prev;
        assert w[..k - 1] == tableau[k - 1][1..k];
        assert Contract(w, a, size) == Contract(tableau[k - 1][1..k], prev, size);
        var v := StageValue(rhs, t0, y0, h, k - 1, a);
        assert ExplicitStages(rhs, t0, y0, h, k) == prev + [v];
        assert Stages(rhs, t0, y0, h, auxIn, k) == a[k - 1 := v];
        assert a[k - 1 := v][..k] == a[..k - 1] + [v];
      }
    }

    /** Under the same conditions, the buffer after the whole loop is the textbook stages. */
    lemma FilledBuffer(rhs: (real, seq<real>) -> seq<real>, t0: real, y0: seq<real>, h: real,
                       auxIn: seq<seq<real>>)
      requires WellFormed() && |y0| == size && ShapePreserving(rhs, size)
      requires IsMatrix(auxIn, numStages, size)
      requires StrictlyLowerTriangular() || auxIn == ZeroMatrix(numStages, size)
      ensures Stages(rhs, t0, y0, h, auxIn, numStages) == ExplicitStages(rhs, t0, y0, h, numStages)
    {
      StagesMatchExplicit(rhs, t0, y0, h, auxIn, numStages);
      var a := Stages(rhs, t0, y0, h, auxIn, numStages);
      assert a == a[..numStages];
    }

    /** A strictly lower-triangular tableau makes a call independent of what the buffer holds. */
    lemma RunIgnoresStaleBuffer(rhs: (real, seq<real>) -> seq<real>, pow: (real, real) -> real,
                                t0: real, y0: seq<real>, h: real, auxIn: seq<seq<real>>, fuel: nat)
      requires WellFormed() && |y0| == size && ShapePreserving(rhs, size)
      requires IsMatrix(auxIn, numStages, size) && StrictlyLowerTriangular()
      ensures Run(rhs, pow, t0, y0, h, auxIn, fuel)
           == Run(rhs, pow, t0, y0, h, ZeroMatrix(numStages, size), fuel)
    {
      FilledBuffer(rhs, t0, y0, h, auxIn);
      FilledBuffer(rhs, t0, y0, h, ZeroMatrix(numStages, size));
    }

    /**
     * A rejected step is redone from the same `t0` and `y0` with only the
     * corrected step changed; with a strictly lower-triangular tableau the
     * retry is exactly a fresh call on an idle buffer.
     */
    lemma RetryIsFreshCall(rhs: (real, seq<real>) -> seq<real>, pow: (real, real) -> real,
                           t0: real, y0: seq<real>, h: real, auxIn: seq<seq<real>>, fuel: nat)
      requires WellFormed() && |y0| == size && ShapePreserving(rhs, size)
      requires IsMatrix(auxIn, numStages, size) && StrictlyLowerTriangular() && fuel > 0
      ensures var v := FreshAttempt(rhs, pow, t0, y0, h);
              v.Retry? ==>
                Run(rhs, pow, t0, y0, h, auxIn, fuel)
                == Run(rhs, pow, t0, y0, v.timestep, ZeroMatrix(numStages, size), fuel - 1)
    {
      FilledBuffer(rhs, t0, y0, h, auxIn);
      var a := Stages(rhs, t0, y0, h, auxIn, numStages);
      var v := Attempt(pow, t0, y0, h, a);
      if v.Retry? {
        RunIgnoresStaleBuffer(rhs, pow, t0, y0, v.timestep, a, fuel - 1);
      }
    }

    /**
     * An adaptive stepper over an empty state or with a tolerance unset fails
     * on its first attempt, and leaves that attempt's stages in the buffer.
     */
    lemma MisconfiguredStepFails(rhs: (real, seq<real>) -> seq<real>, pow: (real, real) -> real,
                                 t0: real, y0: seq<real>, h: real, auxIn: seq<seq<real>>, fuel: nat)
      requires WellFormed() && |y0| == size && ShapePreserving(rhs, size)
      requires IsMatrix(auxIn, numStages, size)
      requires StrictlyLowerTriangular() || auxIn == ZeroMatrix(numStages, size)
      requires adaptive && (size == 0 || atol.None? || rtol.None?)
      ensures Run(rhs, pow, t0, y0, h, auxIn, fuel)
           == Err(if size == 0 then EmptyErrorNorm else MissingTolerance)
      ensures LastStages(rhs, pow, t0, y0, h, auxIn, fuel) == ExplicitStages(rhs, t0, y0, h, numStages)
    {
      FilledBuffer(rhs, t0, y0, h, auxIn);
    }

    /**
     * Conversely, a stepper that is not adaptive, or has a non-empty state and
     * both tolerances, never fails with those errors, however many retries
     * it makes: the only error left is running out of retries.
     */
    lemma {:induction false} ConfiguredStepNeverRejects(rhs: (real, seq<real>) -> seq<real>,
                                                        pow: (real, real) -> real, t0: real,
                                                        y0: seq<real>, h: real,
                                                        auxIn: seq<seq<real>>, fuel: nat)
      requires WellFormed() && |y0| == size && ShapePreserving(rhs, size)
      requires IsMatrix(auxIn, numStages, size)
      requires adaptive ==> size > 0 && atol.Some? && rtol.Some?
      ensures var r := Run(rhs, pow, t0, y0, h, auxIn, fuel);
              r.Err? ==> r.error == RetryLimitExceeded
      decreases fuel
    {
      var a := Stages(rhs, t0, y0, h, auxIn, numStages);
      RunOnCases(rhs, pow, t0, y0, h, a, fuel);
      var v := Attempt(pow, t0, y0, h, a);
      if v.Retry? && fuel > 0 {
        ConfiguredStepNeverRejects(rhs, pow, t0, y0, v.timestep, a, fuel - 1);
      }
    }

    /**
     * Every result a call returns is the accepted verdict of a fresh attempt
     * at the step it reports (`finalTime - t0`): a retry is never mixed with
     * what the rejected attempt computed.
     */
    lemma {:induction false} AcceptedStep(rhs: (real, seq<real>) -> seq<real>, pow: (real, real) -> real,
                                          t0: real, y0: seq<real>, h: real, auxIn: seq<seq<real>>, fuel: nat)
      requires WellFormed() && |y0| == size && ShapePreserving(rhs, size)
      requires IsMatrix(auxIn, numStages, size) && StrictlyLowerTriangular()
      ensures var r := Run(rhs, pow, t0, y0, h, auxIn, fuel);
              r.Ok? ==> FreshAttempt(rhs, pow, t0, y0, r.value.finalTime - t0) == Accept(r.value)
      decreases fuel, 1
    {
      FilledBuffer(rhs, t0, y0, h, auxIn);
      var a := Stages(rhs, t0, y0, h, auxIn, numStages);
      AcceptedStepFrom(rhs, pow, t0, y0, h, a, fuel);
    }

    /**
     * What a successful call returns, after any number of retries: with
     * `h'` the step it reports (`finalTime - t0`) and `k_s` the textbook
     * stages at `h'`, `dState = sum_s b_s k_s` and `finalState = y0 + dState`.
     * Without error control `h'` is the step given and comes back unchanged;
     * with it the embedded pair at `h'` meets `err <= atol + rtol * err`.
     */
    lemma AcceptedResult(rhs: (real, seq<real>) -> seq<real>, pow: (real, real) -> real,
                         t0: real, y0: seq<real>, h: real, auxIn: seq<seq<real>>, fuel: nat)
      requires WellFormed() && |y0| == size && ShapePreserving(rhs, size)
      requires IsMatrix(auxIn, numStages, size) && StrictlyLowerTriangular()
      ensures var r := Run(rhs, pow, t0, y0, h, auxIn, fuel);
              r.Ok? ==>
                var ks := ExplicitStages(rhs, t0, y0, r.value.finalTime - t0, numStages);
                && r.value.dState == Contract(finalWeights[0][1..], ks, size)
                && r.value.finalState == Add(y0, r.value.dState)
                && (!adaptive ==> r.value.finalTime == t0 + h && r.value.timestep == h)
                && (adaptive ==>
                      size > 0 && atol.Some? && rtol.Some? && WithinTolerance(y0, ks))
    {
      var r := Run(rhs, pow, t0, y0, h, auxIn, fuel);
      AcceptedStep(rhs, pow, t0, y0, h, auxIn, fuel);
      if r.Ok? {
        AcceptedFresh(rhs, pow, t0, y0, r.value.finalTime - t0, r.value);
      }
      if !adaptive {
        FixedStepKept(rhs, pow, t0, y0, h, auxIn, fuel);
      }
    }

    /** The fields of a fresh accepted attempt, and the tolerance its embedded pair met. */
    lemma AcceptedFresh(rhs: (real, seq<real>) -> seq<real>, pow: (real, real) -> real,
                        t0: real, y0: seq<real>, h: real, st: Step)
      requires WellFormed() && |y0| == size && ShapePreserving(rhs, size)
      requires FreshAttempt(rhs, pow, t0, y0, h) == Accept(st)
      ensures var ks := ExplicitStages(rhs, t0, y0, h, numStages);
              && st.dState == Contract(finalWeights[0][1..], ks, size)
              && st.finalState == Add(y0, st.dState)
              && (adaptive ==> size > 0 && atol.Some? && rtol.Some? && WithinTolerance(y0, ks))
    {
      var ks := ExplicitStages(rhs, t0, y0, h, numStages);
      AcceptedAttempt(pow, t0, y0, h, ks, st);
      if adaptive {
        var c := ErrorControl(y0, h, pow, ks);
        assert !c.redo;
      }
    }

    /** Without error control, a call returns the step it was given at `t0 + h`. */
    lemma FixedStepKept(rhs: (real, seq<real>) -> seq<real>, pow: (real, real) -> real,
                        t0: real, y0: seq<real>, h: real, auxIn: seq<seq<real>>, fuel: nat)
      requires WellFormed() && |y0| == size && ShapePreserving(rhs, size)
      requires IsMatrix(auxIn, numStages, size) && !adaptive
      ensures var r := Run(rhs, pow, t0, y0, h, auxIn, fuel);
              r.Ok? && r.value.finalTime == t0 + h && r.value.timestep == h
    {
      var a := Stages(rhs, t0, y0, h, auxIn, numStages);
      RunOnCases(rhs, pow, t0, y0, h, a, fuel);
    }

    lemma {:induction false} AcceptedStepFrom(rhs: (real, seq<real>) -> seq<real>, pow: (real, real) -> real,
                                          t0: real, y0: seq<real>, h: real, a: seq<seq<real>>, fuel: nat)
      requires WellFormed() && |y0| == size && ShapePreserving(rhs, size)
      requires IsMatrix(a, numStages, size) && StrictlyLowerTriangular()
      requires a == ExplicitStages(rhs, t0, y0, h, numStages)
      ensures var r := RunOn(rhs, pow, t0, y0, h, a, fuel);
              r.Ok? ==> FreshAttempt(rhs, pow, t0, y0, r.value.finalTime - t0) == Accept(r.value)
      decreases fuel, 0
    {
      var v := Attempt(pow, t0, y0, h, a);
      RunOnCases(rhs, pow, t0, y0, h, a, fuel);
      if v.Accept? {
        AcceptIsFresh(rhs, pow, t0, y0, h, v.step);
      } else if v.Retry? && fuel > 0 {
        AcceptedStep(rhs, pow, t0, y0, v.timestep, a, fuel - 1);
      }
    }

    /** `RunOn` by the verdict of the attempt. */
    lemma RunOnCases(rhs: (real, seq<real>) -> seq<real>, pow: (real, real) -> real,
                     t0: real, y0: seq<real>, h: real, a: seq<seq<real>>, fuel: nat)
      requires WellFormed() && |y0| == size && ShapePreserving(rhs, size)
      requires IsMatrix(a, numStages, size)
      ensures var v := Attempt(pow, t0, y0, h, a);
              var r := RunOn(rhs, pow, t0, y0, h, a, fuel);
              && (v.Accept? ==> r == Ok(v.step))
              && (v.Reject? ==> r.Err?)
              && (v.Retry? ==> if fuel == 0 then r.Err? else r == Run(rhs, pow, t0, y0, v.timestep, a, fuel - 1))
    {
    }

    /** An attempt accepted at step `h` reports `finalTime - t0 == h`. */
    lemma AcceptIsFresh(rhs: (real, seq<real>) -> seq<real>, pow: (real, real) -> real,
                        t0: real, y0: seq<real>, h: real, step: Step)
      requires WellFormed() && |y0| == size && ShapePreserving(rhs, size)
      requires Attempt(pow, t0, y0, h, ExplicitStages(rhs, t0, y0, h, numStages)) == Accept(step)
      ensures FreshAttempt(rhs, pow, t0, y0, step.finalTime - t0) == Accept(step)
    {
      assert step.finalTime - t0 == h;
    }

    /**
     * What an accepted attempt at step `h` returns: `t0 + h`, and
     * `y0 + dState` with `dState` the stages combined with the first
     * final-weights row. Without error control the step is returned
     * unchanged; with it the accepted state meets `err <= atol + rtol * err`
     * against the second combination, and the controller's corrected step is
     * returned for the next call.
     */
    lemma AcceptedAttempt(pow: (real, real) -> real, t0: real, y0: seq<real>, h: real,
                          a: seq<seq<real>>, st: Step)
      requires WellFormed() && |y0| == size && IsMatrix(a, numStages, size)
      requires Attempt(pow, t0, y0, h, a) == Accept(st)
      ensures st.finalTime == t0 + h
      ensures st.dState == Contract(finalWeights[0][1..], a, size)
      ensures st.finalState == Add(y0, st.dState)
      ensures !adaptive ==> st.timestep == h
      ensures adaptive ==>
                && size > 0 && atol.Some? && rtol.Some?
                && var c := ErrorControl(y0, h, pow, a);
                   && !c.redo && st.timestep == c.timestep
    {
      var dState := Contract(finalWeights[0][1..], a, size);
      if adaptive {
        var c := ErrorControl(y0, h, pow, a);
        assert st == Step(c.timestep, t0 + h, Add(y0, dState), dState);
      } else {
        assert st == Step(h, t0 + h, Add(y0, dState), dState);
      }
    }

    /**
     * Without error control a call on an idle buffer returns the step it was
     * given, `t0 + h`, and `y0 + dState` where `dState` combines the textbook
     * stages with the first final-weights row.
     */
    lemma FixedStepResult(rhs: (real, seq<real>) -> seq<real>, pow: (real, real) -> real,
                          t0: real, y0: seq<real>, h: real, fuel: nat)
      requires WellFormed() && |y0| == size && ShapePreserving(rhs, size) && !adaptive
      ensures var d := Contract(finalWeights[0][1..], ExplicitStages(rhs, t0, y0, h, numStages), size);
              Run(rhs, pow, t0, y0, h, ZeroMatrix(numStages, size), fuel)
              == Ok(Step(h, t0 + h, Add(y0, d), d))
    {
      FilledBuffer(rhs, t0, y0, h, ZeroMatrix(numStages, size));
    }

    /**
     * Consistency: with final weights that sum to one and a constant
     * right-hand side `v`, a step moves the state by exactly `h * v`, and an
     * adaptive step (with `atol >= 0`) is accepted at once with `h` unchanged.
     * This holds for any tableau and any buffer contents.
     */
    lemma ConstantRhsStep(rhs: (real, seq<real>) -> seq<real>, pow: (real, real) -> real,
                          t0: real, y0: seq<real>, h: real, auxIn: seq<seq<real>>, fuel: nat,
                          v: seq<real>)
      requires WellFormed() && |y0| == size && ShapePreserving(rhs, size)
      requires IsMatrix(auxIn, numStages, size)
      requires |v| == size && forall t: real, y: seq<real> :: rhs(t, y) == v
      requires Sum(finalWeights[0][1..]) == 1.0
      requires adaptive ==> Sum(finalWeights[1][1..]) == 1.0 && atol.Some? && rtol.Some?
                            && atol.value >= 0.0 && size > 0
      ensures Run(rhs, pow, t0, y0, h, auxIn, fuel)
           == Ok(Step(h, t0 + h, Add(y0, Scale(v, h)), Scale(v, h)))
    {
      var k := Scale(v, h);
      StagesConstant(rhs, t0, y0, h, auxIn, numStages, v);
      var a := Stages(rhs, t0, y0, h, auxIn, numStages);
      ContractConstant(finalWeights[0][1..], a, k);
      assert Scale(k, 1.0) == k;
      if adaptive {
        ContractConstant(finalWeights[1][1..], a, k);
        assert Candidate(y0, 0, a) == Candidate(y0, 1, a);
        MaxAbsDiffZero(Candidate(y0, 0, a), Candidate(y0, 1, a));
      }
    }

    /** With a constant right-hand side every stage the loop has passed holds `h * v`. */
    lemma {:induction false} StagesConstant(rhs: (real, seq<real>) -> seq<real>, t0: real,
                                            y0: seq<real>, h: real, auxIn: seq<seq<real>>, k: nat,
                                            v: seq<real>)
      requires WellFormed() && |y0| == size && ShapePreserving(rhs, size)
      requires IsMatrix(auxIn, numStages, size) && k <= numStages
      requires forall t: real, y: seq<real> :: rhs(t, y) == v
      ensures forall j | 0 <= j < k :: Stages(rhs, t0, y0, h, auxIn, k)[j] == Scale(v, h)
      decreases k
    {
      if k > 0 {
        StagesConstant(rhs, t0, y0, h, auxIn, k - 1, v);
      }
    }

    /**
     * With `atol = rtol = 0` the tolerance is zero, the correction is zero and
     * the step is kept, so a step whose embedded pair disagrees is rejected on
     * every attempt: however many retries are allowed, none is accepted (the
     * self-call of `forward` recurses until the interpreter's recursion limit
     * raises on such input).
     */
    lemma {:induction false} ZeroToleranceNeverAccepts(rhs: (real, seq<real>) -> seq<real>,
                                                       pow: (real, real) -> real, t0: real,
                                                       y0: seq<real>, h: real,
                                                       auxIn: seq<seq<real>>, fuel: nat)
      requires WellFormed() && |y0| == size && ShapePreserving(rhs, size)
      requires IsMatrix(auxIn, numStages, size) && StrictlyLowerTriangular()
      requires adaptive && size > 0 && atol == Some(0.0) && rtol == Some(0.0)
      requires numStages > 0 && pow(0.0, 1.0 / (numStages as real)) == 0.0
      requires var ks := ExplicitStages(rhs, t0, y0, h, numStages);
               Candidate(y0, 0, ks) != Candidate(y0, 1, ks)
      ensures Run(rhs, pow, t0, y0, h, auxIn, fuel) == Err(RetryLimitExceeded)
      decreases fuel
    {
      FilledBuffer(rhs, t0, y0, h, auxIn);
      var a := Stages(rhs, t0, y0, h, auxIn, numStages);
      var c := ErrorControl(y0, h, pow, a);
      ZeroToleranceKeepsStep(Candidate(y0, 0, a), Candidate(y0, 1, a), h, pow);
      assert Attempt(pow, t0, y0, h, a) == Retry(h);
      if fuel > 0 {
        ZeroToleranceNeverAccepts(rhs, pow, t0, y0, h, a, fuel - 1);
      }
    }

    /** The controller with zero tolerances rejects any disagreement and keeps the step. */
    lemma ZeroToleranceKeepsStep(y1: seq<real>, y2: seq<real>, h: real, pow: (real, real) -> real)
      requires atol == Some(0.0) && rtol == Some(0.0)
      requires |y1| == |y2| > 0 && numStages > 0 && y1 != y2
      requires pow(0.0, 1.0 / (numStages as real)) == 0.0
      ensures UpdateTimestep(y1, y2, h, pow, Safety) == Control(h, true)
    {
      MaxAbsDiffZero(y1, y2);
      MaxAbsDiffIsMax(y1, y2);
      ZeroToleranceControl(MaxAbsDiff(y1, y2), h, pow);
    }

    /** With zero tolerances, any positive error is rejected and the step kept. */
    lemma ZeroToleranceControl(err: real, h: real, pow: (real, real) -> real)
      requires atol == Some(0.0) && rtol == Some(0.0) && numStages > 0 && err > 0.0
      requires pow(0.0, 1.0 / (numStages as real)) == 0.0
      ensures StepControl(err, h, pow, Safety) == Control(h, true)
    {
      assert 0.0 + 0.0 * err == 0.0;
      assert 0.0 / err == 0.0;
    }

    /**
     * The correction of a rejected step shrinks the step strictly (and keeps
     * it non-zero) when the tolerance is positive and `pow` behaves like a
     * real power on `(0, 1)`.
     */
    lemma CorrectionShrinks(h: real, relerr: real, err: real, pow: (real, real) -> real,
                            safety: real)
      requires numStages > 0 && 0.0 < relerr < err
      requires 0.0 < safety < 1.0 && h != 0.0
      requires forall x: real, e: real :: 0.0 < x < 1.0 && 0.0 < e ==> 0.0 < pow(x, e) <= 1.0
      ensures 0.0 < Abs(Corrected(h, relerr, err, pow, safety)) < Abs(h)
    {
      RatioBelowOne(relerr, err);
      var p := pow(relerr / err, 1.0 / (numStages as real));
      ShrinkFactor(h, safety, p);
    }

    /**
     * A rejected step comes back with a strictly smaller, non-zero step when
     * `atol` and `rtol` are non-negative and not both zero.
     */
    lemma RejectedStepShrinks(err: real, h: real, pow: (real, real) -> real, safety: real)
      requires atol.Some? && rtol.Some? && atol.value >= 0.0 && rtol.value >= 0.0
      requires atol.value > 0.0 || rtol.value > 0.0
      requires err >= 0.0 && (numStages > 0 || err == 0.0)
      requires 0.0 < safety < 1.0 && h != 0.0
      requires forall x: real, e: real :: 0.0 < x < 1.0 && 0.0 < e ==> 0.0 < pow(x, e) <= 1.0
      ensures var c := StepControl(err, h, pow, safety);
              c.redo ==> 0.0 < Abs(c.timestep) < Abs(h)
    {
      var relerr := atol.value + rtol.value * err;
      if err > relerr {
        MulNonNegative(rtol.value, err);
        if atol.value == 0.0 {
          MulPositive(rtol.value, err);
        }
        CorrectionShrinks(h, relerr, err, pow, safety);
      }
    }
  }
}
