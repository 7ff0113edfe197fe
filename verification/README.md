# Runge-Kutta integrator templates of desolver, modelled in Dafny

desolver integrates ordinary differential equations `dy/dt = rhs(t, y)`.
A concrete method is a subclass of one of two templates, and the subclass
supplies a Butcher tableau. This project models both templates and the
buffer helper they share:

- **`ExplicitIntegrator`** is the explicit Runge-Kutta template.
  - It owns a stage buffer `aux` with one row per stage.
  - `forward` fills the buffer in place, stage by stage. Each stage reads the whole buffer through row `s` of the tableau.
  - It combines the stages with the first final-weights row to get `dState`, and returns `t0 + h` and `y0 + dState`.
  - With two final-weights rows the method is adaptive. `update_timestep` then compares the two combinations (an embedded pair). It either accepts the step or redoes it with a corrected step, by calling `forward` again on the same buffer.
  - The buffer is zeroed before `forward` returns a step. An error is an exception in the source, which skips the zeroing and leaves the stages of the last attempt in the buffer.
- **`SymplecticIntegrator`** is the partitioned (staggered) template.
  - A boolean mask splits the state in two: by default, the upper half of the leading dimension is inside the mask.
  - Each stage evaluates `rhs` at the running time and at `y0 + dState`, then advances the time by `h * c_s`.
  - It adds the stage to `dState` with weight `a_s` outside the mask and `b_s` inside it.
  - It never adapts the step.
- **`get_aux_array`** builds the zero stage buffer. It has no result without stages, because stacking an empty list raises.

Modelling choices:

- The state of any shape is flattened row-major to a `seq<real>`. `Shape(leading, trailing)` keeps the leading dimension, which the default mask refers to, and the product of the other dimensions.
- All arithmetic is over `real`.
- `rhs` is a function parameter. The caller guarantees that it returns a vector as long as the state (`ShapePreserving`).
- The backend's `**` is a parameter `pow`.
- `ExplicitIntegrator` is a class.
  - Its configuration is held in `const` fields.
  - `aux` is an `array<seq<real>>`, which `Forward` updates in place, and clears when it returns a step.
  - `Forward` is proved equal to the pure function `Run` applied to the buffer contents it starts with. `Run` shows that a retry reuses the rows the rejected attempt left behind.
- `SymplecticIntegrator.Forward` accumulates `dState` in a local array. It does so with two masked in-place updates per stage, and is proved equal to the pure `TimeAfter` and `DeltaAfter`.

The error paths of the source are values of `Result<Step>`:

| error value | Python behaviour it models |
|---|---|
| `EmptyErrorNorm` | `max` over an empty error estimate raises a `ValueError` |
| `MissingTolerance` | adaptive step with `atol` or `rtol` left at `None` (a `TypeError`) |
| `RetryLimitExceeded` | the self-call of `forward` exceeded the interpreter's recursion limit (a `RecursionError`); the `fuel` budget stands for that limit |

The source bounds its retries only by the interpreter's recursion limit. The model makes that bound a `fuel` budget of retries, and `RetryLimitExceeded` is the result when the budget runs out. None of these errors clears the stage buffer.

## Model

| member | source | states |
|---|---|---|
| Template.AuxArray | desolver/integrationschemes/integrator_template.py:39-40 | with at least one stage: one row per stage, each as long as the state, every entry zero; with no stages there is no buffer (the empty stack raises) |
| Explicit.ExplicitIntegrator.constructor | desolver/integrationschemes/integrator_template.py:47-60 | `num_stages` is the tableau's row count; adaptive exactly when there are two final-weights rows; `aux` is fresh and all zero, equal to `get_aux_array` of a state-sized vector when there are stages and empty otherwise (`zeros((0, ...))`) |
| Explicit.ExplicitIntegrator.Forward | desolver/integrationschemes/integrator_template.py:62-82 | the result is `Run` on the buffer contents at entry; after a returned step the buffer is all zero again, after an error it holds `LastStages`, the stages of the last attempt, since the exception skips `aux[:] = 0.0` |
| Explicit.ExplicitIntegrator.FillStages | desolver/integrationschemes/integrator_template.py:68-70 | after the loop, the buffer holds `Stages`: stage `s` overwrote row `s` with `h * rhs(t0 + c_s h, y0 + sum_j a_{s,j} aux[j])` read from the buffer as it stood |
| Explicit.ExplicitIntegrator.ClearBuffer | desolver/integrationschemes/integrator_template.py:81 | `aux[:] = 0.0` leaves every row zero |
| Explicit.ExplicitIntegrator.StagesMatchExplicit | desolver/integrationschemes/integrator_template.py:68-70 | on an idle buffer, or with a strictly lower-triangular tableau on any buffer, the loop computes the textbook explicit stages and leaves the rows it has not reached untouched |
| Explicit.ExplicitIntegrator.FilledBuffer | desolver/integrationschemes/integrator_template.py:68-70 | the whole loop yields exactly the textbook stages under the same conditions |
| Explicit.ExplicitIntegrator.RunIgnoresStaleBuffer | desolver/integrationschemes/integrator_template.py:66-81 | with a strictly lower-triangular tableau, whatever a previous attempt left in `aux` does not change the result |
| Explicit.ExplicitIntegrator.RetryIsFreshCall | desolver/integrationschemes/integrator_template.py:76-80 | with a strictly lower-triangular tableau, a rejected attempt is redone with the same `t0` and `y0` and only the corrected step, and equals a fresh call on an idle buffer |
| Explicit.ExplicitIntegrator.Attempt | desolver/integrationschemes/integrator_template.py:72-79 | an accepted attempt reports `final_time = t0 + h` |
| Explicit.ExplicitIntegrator.AcceptedResult | desolver/integrationschemes/integrator_template.py:62-82 | with a strictly lower-triangular tableau, a returned step at `h'` (its `final_time - t0`) has `dState = sum_s b_s k_s` over the textbook stages at `h'` and `final_state = y0 + dState`; without adaptivity `h' = h` and the step comes back unchanged; with it the embedded pair at `h'` meets `err <= atol + rtol * err` |
| Explicit.ExplicitIntegrator.MisconfiguredStepFails | desolver/integrationschemes/integrator_template.py:76-88 | an adaptive stepper with an empty state fails with `EmptyErrorNorm`, one with a tolerance unset with `MissingTolerance`, on the first attempt, leaving its stages in the buffer |
| Explicit.ExplicitIntegrator.ConfiguredStepNeverRejects | desolver/integrationschemes/integrator_template.py:76-88 | otherwise those errors never occur, after any number of retries: the only error left is running out of retries |
| Explicit.ExplicitIntegrator.AcceptedStep | desolver/integrationschemes/integrator_template.py:62-82 | with a strictly lower-triangular tableau, every successful result, after any number of retries, is the accepted verdict of a fresh attempt at the step it reports (`final_time - t0`) |
| Explicit.ExplicitIntegrator.FixedStepResult | desolver/integrationschemes/integrator_template.py:72-74 | a non-adaptive call returns `h`, `t0 + h`, `y0 + dState` and `dState = sum_s b_s k_s` over the textbook stages |
| Explicit.ExplicitIntegrator.ConstantRhsStep | desolver/integrationschemes/integrator_template.py:68-82 | with weights summing to one and a constant `rhs = v`, `dState = h * v` for any tableau and buffer; an adaptive call (second weights also summing to one, `atol >= 0`, non-empty state) accepts at once and keeps `h` |
| Explicit.ExplicitIntegrator.UpdateTimestep | desolver/integrationschemes/integrator_template.py:86-96 | redo exactly when the max-norm error exceeds `atol + rtol * err`; when the pair agrees the step is kept, and accepted if `atol >= 0` |
| Explicit.ExplicitIntegrator.StepControl | desolver/integrationschemes/integrator_template.py:88-96 | redo iff `err > atol + rtol * err`; `err == 0` keeps `h` (accepted if `atol >= 0`); a non-zero `err` whose correction is zero keeps `h`; the step never becomes zero unless it was |
| Explicit.ExplicitIntegrator.Corrected | desolver/integrationschemes/integrator_template.py:90-92 | a zero correction `h * safety * (relerr / err) ** (1 / num_stages)` falls back to the previous step `h`, so the result is zero only if `h` was |
| Explicit.ExplicitIntegrator.RejectedStepShrinks | desolver/integrationschemes/integrator_template.py:88-96 | with non-negative tolerances, not both zero, a rejected step comes back non-zero and strictly smaller in magnitude, when `pow` maps `(0, 1)` into `(0, 1]` |
| Explicit.ExplicitIntegrator.CorrectionShrinks | desolver/integrationschemes/integrator_template.py:90-92 | `0 < relerr < err` and `0 < safety < 1` give a correction strictly between 0 and `abs(h)` |
| Explicit.ExplicitIntegrator.ZeroToleranceKeepsStep | desolver/integrationschemes/integrator_template.py:86-96 | with `atol = rtol = 0` a disagreeing pair is rejected and the step kept unchanged |
| Explicit.ExplicitIntegrator.ZeroToleranceNeverAccepts | desolver/integrationschemes/integrator_template.py:76-96 | with `atol = rtol = 0` and a disagreeing pair, every retry budget runs out: the source's self-call recurses until the recursion limit raises |
| Vectors.MaxAbsDiffIsMax | desolver/integrationschemes/integrator_template.py:87 | the error estimate bounds every `abs(y1[i] - y2[i])` and equals one of them |
| Vectors.MaxAbsDiffZero | desolver/integrationschemes/integrator_template.py:87 | the error estimate is zero exactly when the two states are equal |
| Symplectic.DefaultMask | desolver/integrationschemes/integrator_template.py:103-106 | true exactly at the flat indices whose leading index lies in `[leading / 2, leading)` |
| Symplectic.SymplecticIntegrator.constructor | desolver/integrationschemes/integrator_template.py:102-119 | never adaptive; `num_stages` is the row count; the mask is the given one or the default one |
| Symplectic.MaskedAccumulate | desolver/integrationschemes/integrator_template.py:135-136 | the in-place `d[sel] += k[sel] * coef` changes exactly the selected entries |
| Symplectic.PartitionedUpdate | desolver/integrationschemes/integrator_template.py:135-136 | the two masked updates of a stage give each entry exactly one coefficient: `b_s` inside the mask, `a_s` outside |
| Symplectic.SymplecticIntegrator.Forward | desolver/integrationschemes/integrator_template.py:121-141 | returns `h` unchanged, the time `TimeAfter(n)`, `dState = DeltaAfter(n)` and `final_state = y0 + dState`; stage `s` saw `TimeAfter(s)` and `y0 + DeltaAfter(s)` |
| Symplectic.SymplecticIntegrator.TimeIsPrefixSum | desolver/integrationschemes/integrator_template.py:128-138 | stage `s` runs at `t0 + h * sum_{j<s} c_j`, and the final time is `t0 + h * sum_s c_s` |
| Symplectic.SymplecticIntegrator.DeltaIsPartitionedSum | desolver/integrationschemes/integrator_template.py:132-136 | entry `i` of `dState` is `sum_s k_s[i] * a_s` outside the mask and `sum_s k_s[i] * b_s` inside it |
| Symplectic.SymplecticIntegrator.ConstantRhsStep | desolver/integrationschemes/integrator_template.py:132-139 | a constant `rhs = v` moves entry `i` by `h * v[i]` times the column sum of its partition |

## Left out

- Floating point: all arithmetic is over `real`. Rounding, NaN and infinities are not modelled, and neither is the dtype casting of the tableaus (`D.array`, `D.to_type`, lines 48-53 and 110-113).
- The fractional power `(relerr / err) ** (1.0 / num_stages)` is the parameter `pow`. Only `RejectedStepShrinks`, `CorrectionShrinks`, `ZeroToleranceNeverAccepts`, `ZeroToleranceKeepsStep` and `ZeroToleranceControl` assume anything about it, and they state it in their `requires`.
- The self-call of `forward` (line 80) is bounded by `fuel` rather than by the interpreter's recursion limit. When the budget runs out the model returns `RetryLimitExceeded` where the source raises a `RecursionError`. `ZeroToleranceNeverAccepts` shows an input on which every budget runs out.
- `tol`: `forward` always uses the default `0.9` (`Safety`). `update_timestep` takes it as the parameter `safety`.
- The `initial_time` argument of `update_timestep` is unused by the source and is dropped.
- The `constants` keyword arguments of `rhs` are folded into the `rhs` parameter.
- `rhs` returning a result of the wrong shape is excluded by the `ShapePreserving` requirement rather than modelled as a broadcasting error. `rhs` is total: an exception raised by `rhs`, which would also leave the buffer filled, is not modelled.
- `UpdateTimestep`: requires `numStages > 0` or agreeing states. With no stages and disagreeing states the source divides by zero, but `forward` never reaches that, because with no stages both combinations equal `y0`.
- The abstract `IntegratorTemplate.__init__` and `forward` (lines 31-35) and the `tableau is None` checks (lines 63 and 122) become constructor requirements:
  - an explicit tableau of `num_stages` rows of `num_stages + 1` entries;
  - one or more final-weights rows of the same width;
  - symplectic rows of at least three entries.
- An explicit staggered mask must have one entry per state element. The conversion `D.to_type(mask, bool)` of non-boolean masks is not modelled.
- `SymplecticIntegrator.update_timestep` (lines 145-155) is not modelled: `forward` never calls it, and the symplectic stepper is never adaptive.
- `rtol` and `atol` of the symplectic stepper are stored and never used.
- Arbitrary state shapes, `einsum` and boolean fancy indexing are replaced by the row-major flattening, `Contract`, and the entry-by-entry `MaskedAccumulate`. `D.copy` of the initial time and state is not modelled: both are values and are never changed.
- desolver/backend/tests/test_backend.py tests the numerical backend (dtypes, machine epsilon, special functions). The backend is not part of this model.
