/**
 * Real-valued vectors and the stage contraction used by both steppers.
 *
 * The state of the ODE system is flattened to a `seq<real>`; a stack of
 * per-stage vectors is a `seq<seq<real>>` whose rows all have the state's
 * length. `Contract(w, rows, n)` is the weighted sum over the leading
 * (stage) axis, the `einsum("n,n...->...")` of the backend.
 */
module Vectors {

  function Zeros(n: nat): seq<real>
  {
    seq(n, _ => 0.0)
  }

  function ZeroMatrix(m: nat, n: nat): seq<seq<real>>
  {
    seq(m, _ => Zeros(n))
  }

  function Add(a: seq<real>, b: seq<real>): seq<real>
    requires |a| == |b|
  {
    seq(|a|, i requires 0 <= i < |a| => a[i] + b[i])
  }

  /** Element-wise product of a vector with a scalar (`array * scalar`). */
  function Scale(a: seq<real>, c: real): seq<real>
  {
    seq(|a|, i requires 0 <= i < |a| => a[i] * c)
  }

  function Sum(w: seq<real>): real
  {
    if |w| == 0 then 0.0 else Sum(w[..|w| - 1]) + w[|w| - 1]
  }

  function Dot(w: seq<real>, v: seq<real>): real
    requires |w| == |v|
  {
    if |w| == 0 then 0.0 else Dot(w[..|w| - 1], v[..|v| - 1]) + w[|w| - 1] * v[|v| - 1]
  }

  /** `rows` has `m` rows, each of length `n`. */
  predicate IsMatrix(rows: seq<seq<real>>, m: nat, n: nat)
  {
    |rows| == m && forall s | 0 <= s < m :: |rows[s]| == n
  }

  /** Entry `i` of every row. */
  function Column(rows: seq<seq<real>>, i: nat): seq<real>
    requires forall s | 0 <= s < |rows| :: i < |rows[s]|
  {
    seq(|rows|, s requires 0 <= s < |rows| => rows[s][i])
  }

  /** Weighted sum over the stage axis: entry `i` is the sum of `w[s] * rows[s][i]`. */
  function Contract(w: seq<real>, rows: seq<seq<real>>, n: nat): seq<real>
    requires |w| == |rows| && IsMatrix(rows, |rows|, n)
  {
    seq(n, i requires 0 <= i < n => Dot(w, Column(rows, i)))
  }

  function Abs(x: real): real
  {
    if x < 0.0 then -x else x
  }

  function Max(a: real, b: real): real
  {
    if a < b then b else a
  }

  /** The max-norm of `a - b`: `max(abs(a - b))`, which needs a non-empty array. */
  function MaxAbsDiff(a: seq<real>, b: seq<real>): real
    requires |a| == |b| > 0
    decreases |a|
  {
    if |a| == 1 then Abs(a[0] - b[0])
    else Max(Abs(a[0] - b[0]), MaxAbsDiff(a[1..], b[1..]))
  }

  /** `MaxAbsDiff` bounds every entry of `|a - b|` and is attained by one of them. */
  lemma {:induction false} MaxAbsDiffIsMax(a: seq<real>, b: seq<real>)
    requires |a| == |b| > 0
    ensures forall i | 0 <= i < |a| :: Abs(a[i] - b[i]) <= MaxAbsDiff(a, b)
    ensures exists i | 0 <= i < |a| :: MaxAbsDiff(a, b) == Abs(a[i] - b[i])
    decreases |a|
  {
    if |a| > 1 {
      MaxAbsDiffIsMax(a[1..], b[1..]);
      assert forall i | 1 <= i < |a| :: a[1..][i - 1] == a[i] && b[1..][i - 1] == b[i];
      if MaxAbsDiff(a, b) != Abs(a[0] - b[0]) {
        var k :| 0 <= k < |a| - 1 && MaxAbsDiff(a[1..], b[1..]) == Abs(a[1..][k] - b[1..][k]);
        assert MaxAbsDiff(a, b) == Abs(a[k + 1] - b[k + 1]);
      } else {
        assert MaxAbsDiff(a, b) == Abs(a[0] - b[0]);
      }
    } else {
      assert MaxAbsDiff(a, b) == Abs(a[0] - b[0]);
    }
  }

  /** The norm is zero exactly when the two vectors agree. */
  lemma MaxAbsDiffZero(a: seq<real>, b: seq<real>)
    requires |a| == |b| > 0
    ensures MaxAbsDiff(a, b) == 0.0 <==> a == b
  {
    MaxAbsDiffIsMax(a, b);
    if MaxAbsDiff(a, b) == 0.0 {
      forall i | 0 <= i < |a| ensures a[i] == b[i] {
        assert Abs(a[i] - b[i]) <= 0.0;
      }
    }
  }

  /** A vector is at distance zero from itself. */
  lemma {:induction false} MaxAbsDiffSelf(a: seq<real>)
    requires |a| > 0
    ensures MaxAbsDiff(a, a) == 0.0
    decreases |a|
  {
    if |a| > 1 {
      MaxAbsDiffSelf(a[1..]);
    }
  }

  /** Weights that are zero make the corresponding entries irrelevant. */
  lemma {:induction false} DotAgree(w: seq<real>, u: seq<real>, v: seq<real>)
    requires |w| == |u| == |v|
    requires forall j | 0 <= j < |w| :: w[j] == 0.0 || u[j] == v[j]
    ensures Dot(w, u) == Dot(w, v)
  {
    if |w| > 0 {
      DotAgree(w[..|w| - 1], u[..|u| - 1], v[..|v| - 1]);
    }
  }

  /** Entries that are zero from index `m` on may be dropped. */
  lemma {:induction false} DotZeroTail(w: seq<real>, v: seq<real>, m: nat)
    requires |w| == |v| && m <= |w|
    requires forall j | m <= j < |v| :: v[j] == 0.0
    ensures Dot(w, v) == Dot(w[..m], v[..m])
  {
    if |w| > m {
      DotZeroTail(w[..|w| - 1], v[..|v| - 1], m);
      assert w[..|w| - 1][..m] == w[..m];
      assert v[..|v| - 1][..m] == v[..m];
    } else {
      assert w[..m] == w && v[..m] == v;
    }
  }

  /** Weighting a constant vector yields the constant times the sum of the weights. */
  lemma {:induction false} DotConstant(w: seq<real>, v: seq<real>, c: real)
    requires |w| == |v|
    requires forall j | 0 <= j < |v| :: v[j] == c
    ensures Dot(w, v) == Sum(w) * c
  {
    if |w| > 0 {
      DotConstant(w[..|w| - 1], v[..|v| - 1], c);
    }
  }

  /** Weighting by constant weights yields the weight times the sum of the entries. */
  lemma {:induction false} DotConstantWeights(u: seq<real>, v: seq<real>, c: real)
    requires |u| == |v|
    requires forall j | 0 <= j < |u| :: u[j] == c
    ensures Dot(u, v) == c * Sum(v)
  {
    if |u| > 0 {
      DotConstantWeights(u[..|u| - 1], v[..|v| - 1], c);
      assert c * Sum(v) == c * Sum(v[..|v| - 1]) + c * v[|v| - 1];
    }
  }

  lemma ContractAgree(w: seq<real>, a: seq<seq<real>>, b: seq<seq<real>>, n: nat)
    requires |w| == |a| == |b| && IsMatrix(a, |a|, n) && IsMatrix(b, |b|, n)
    requires forall j | 0 <= j < |w| :: w[j] == 0.0 || a[j] == b[j]
    ensures Contract(w, a, n) == Contract(w, b, n)
  {
    forall i | 0 <= i < n
      ensures Dot(w, Column(a, i)) == Dot(w, Column(b, i))
    {
      DotAgree(w, Column(a, i), Column(b, i));
    }
  }

  lemma ContractZeroTail(w: seq<real>, rows: seq<seq<real>>, m: nat, n: nat)
    requires |w| == |rows| && IsMatrix(rows, |rows|, n) && m <= |rows|
    requires forall j | m <= j < |rows| :: rows[j] == Zeros(n)
    ensures Contract(w, rows, n) == Contract(w[..m], rows[..m], n)
  {
    forall i | 0 <= i < n
      ensures Dot(w, Column(rows, i)) == Dot(w[..m], Column(rows[..m], i))
    {
      DotZeroTail(w, Column(rows, i), m);
      assert Column(rows, i)[..m] == Column(rows[..m], i);
    }
  }

  lemma ContractConstant(w: seq<real>, rows: seq<seq<real>>, u: seq<real>)
    requires |w| == |rows|
    requires forall j | 0 <= j < |rows| :: rows[j] == u
    ensures IsMatrix(rows, |rows|, |u|)
    ensures Contract(w, rows, |u|) == Scale(u, Sum(w))
  {
    assert IsMatrix(rows, |rows|, |u|);
    var c, d := Contract(w, rows, |u|), Scale(u, Sum(w));
    forall i | 0 <= i < |u|
      ensures c[i] == d[i]
    {
      DotConstant(w, Column(rows, i), u[i]);
    }
  }

  lemma MulPositive(a: real, b: real)
    requires a > 0.0 && b > 0.0
    ensures a * b > 0.0
  {
  }

  lemma MulNonNegative(a: real, b: real)
    requires a >= 0.0 && b >= 0.0
    ensures a * b >= 0.0
  {
  }

  lemma MulStrictlyMonotone(a: real, b: real, c: real)
    requires a < b && c > 0.0
    ensures a * c < b * c
  {
    MulPositive(b - a, c);
    assert b * c - a * c == (b - a) * c;
  }

  lemma RatioBelowOne(a: real, b: real)
    requires 0.0 < a < b
    ensures 0.0 < a / b
    ensures a / b < 1.0
  {
    var r := 1.0 / b;
    assert r > 0.0;
    assert a * r == a / b && b * r == 1.0;
    MulStrictlyMonotone(a, b, r);
    MulPositive(a, r);
  }

  /** Scaling by `safety * p` with both factors in `(0, 1]` and `safety < 1` shrinks strictly. */
  lemma ShrinkFactor(h: real, safety: real, p: real)
    requires h != 0.0 && 0.0 < safety < 1.0 && 0.0 < p <= 1.0
    ensures h * safety * p != 0.0
    ensures Abs(h * safety * p) < Abs(h)
  {
    var f := safety * p;
    MulPositive(safety, p);
    if p < 1.0 {
      MulStrictlyMonotone(p, 1.0, safety);
    }
    assert f < 1.0;
    assert h * safety * p == h * f;
    if h > 0.0 {
      MulPositive(h, f);
      MulStrictlyMonotone(f, 1.0, h);
    } else {
      MulPositive(-h, f);
      MulStrictlyMonotone(f, 1.0, -h);
      assert h * f == -(f * (-h));
    }
  }
}
