/** Affine expressions over the network's d original inputs.
    A row holds d input coefficients followed by one constant term; a matrix
    holds one row per node, and in every layer matrix the last row is the
    constant generator (0, ..., 0, 1). */
module Affine {

  type Vector = seq<real>
  type Matrix = seq<Vector>

  function Zeros(n: nat): Vector
  {
    seq(n, _ => 0.0)
  }

  function VecAdd(a: Vector, b: Vector): Vector
    requires |a| == |b|
  {
    seq(|a|, k requires 0 <= k < |a| => a[k] + b[k])
  }

  /** The scalar multiple c * v. */
  function Scale(c: real, v: Vector): Vector
  {
    seq(|v|, k requires 0 <= k < |v| => c * v[k])
  }

  function Negate(v: Vector): Vector
  {
    seq(|v|, k requires 0 <= k < |v| => -v[k])
  }

  /** The constant-generator row for d inputs: the affine expression "1". */
  function ConstantRow(d: nat): Vector
  {
    seq(d + 1, k => if k == d then 1.0 else 0.0)
  }

  function Identity(n: nat): Matrix
  {
    seq(n, i => seq(n, j => if i == j then 1.0 else 0.0))
  }

  /** Every row of A has exactly `cols` entries. */
  predicate Rectangular(A: Matrix, cols: nat)
  {
    forall j :: 0 <= j < |A| ==> |A[j]| == cols
  }

  /** Sum of row[k] * x[k] over the first m inputs. */
  function Dot(row: Vector, x: seq<real>, m: nat): real
    requires m <= |x| <= |row|
  {
    if m == 0 then 0.0 else Dot(row, x, m - 1) + row[m - 1] * x[m - 1]
  }

  /** Value of the affine expression `row` at the input point x. */
  function Eval(row: Vector, x: seq<real>): real
    requires |row| == |x| + 1
  {
    Dot(row, x, |x|) + row[|x|]
  }

  lemma {:induction false} DotAdd(a: Vector, b: Vector, x: seq<real>, m: nat)
    requires |a| == |b| && m <= |x| <= |a|
    ensures Dot(VecAdd(a, b), x, m) == Dot(a, x, m) + Dot(b, x, m)
  {
    if m > 0 {
      DotAdd(a, b, x, m - 1);
      assert VecAdd(a, b)[m - 1] * x[m - 1] == a[m - 1] * x[m - 1] + b[m - 1] * x[m - 1];
    }
  }

  lemma {:induction false} DotScale(c: real, v: Vector, x: seq<real>, m: nat)
    requires m <= |x| <= |v|
    ensures Dot(Scale(c, v), x, m) == c * Dot(v, x, m)
  {
    if m > 0 {
      DotScale(c, v, x, m - 1);
      assert Scale(c, v)[m - 1] * x[m - 1] == c * (v[m - 1] * x[m - 1]);
    }
  }

  lemma {:induction false} DotConstantRow(d: nat, x: seq<real>, m: nat)
    requires m <= |x| == d
    ensures Dot(ConstantRow(d), x, m) == 0.0
  {
    if m > 0 {
      DotConstantRow(d, x, m - 1);
    }
  }

  /** Evaluation is additive. */
  lemma EvalAdd(a: Vector, b: Vector, x: seq<real>)
    requires |a| == |b| == |x| + 1
    ensures Eval(VecAdd(a, b), x) == Eval(a, x) + Eval(b, x)
  {
    DotAdd(a, b, x, |x|);
  }

  /** Evaluation is homogeneous. */
  lemma EvalScale(c: real, v: Vector, x: seq<real>)
    requires |v| == |x| + 1
    ensures Eval(Scale(c, v), x) == c * Eval(v, x)
  {
    DotScale(c, v, x, |x|);
  }

  lemma EvalNegate(v: Vector, x: seq<real>)
    requires |v| == |x| + 1
    ensures Eval(Negate(v), x) == -Eval(v, x)
  {
    assert Negate(v) == Scale(-1.0, v);
    EvalScale(-1.0, v, x);
  }

  lemma EvalZeros(x: seq<real>)
    ensures Eval(Zeros(|x| + 1), x) == 0.0
  {
    assert Zeros(|x| + 1) == Scale(0.0, Zeros(|x| + 1));
    EvalScale(0.0, Zeros(|x| + 1), x);
  }

  /** The constant-generator row evaluates to 1 at every point. */
  lemma EvalConstantRow(x: seq<real>)
    ensures Eval(ConstantRow(|x|), x) == 1.0
  {
    DotConstantRow(|x|, x, |x|);
  }

  /** The last row of the identity matrix is the constant generator. */
  lemma IdentityLastRow(d: nat)
    ensures |Identity(d + 1)| == d + 1 && Identity(d + 1)[d] == ConstantRow(d)
  {
  }

  lemma VecAddAssoc(a: Vector, b: Vector, c: Vector)
    requires |a| == |b| == |c|
    ensures VecAdd(VecAdd(a, b), c) == VecAdd(a, VecAdd(b, c))
  {
  }

  lemma VecAddComm(a: Vector, b: Vector)
    requires |a| == |b|
    ensures VecAdd(a, b) == VecAdd(b, a)
  {
  }

  lemma VecAddZeros(a: Vector)
    ensures VecAdd(a, Zeros(|a|)) == a && VecAdd(Zeros(|a|), a) == a
  {
  }
}
