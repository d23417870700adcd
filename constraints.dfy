/** The constraint builder: the inequality rows that one activation pattern of a
    hidden layer imposes on the original inputs, and how they line up with the
    contributions that Propagation keeps or drops for the same pattern. */
module Constraints {
  import opened Affine
  import opened Patterns
  import opened Propagation

  /** One row per current node (the constant generator excluded), in node order:
      the negated expression when the node's bit is 1, the expression itself when 0. */
  function Condition(A: Matrix, tag: nat): (rows: seq<Vector>)
    requires |A| >= 1
    ensures |rows| == |A| - 1
    ensures forall j :: 0 <= j < |rows| ==> |rows[j]| == |A[j]|
  {
    seq(|A| - 1, j requires 0 <= j < |A| - 1 => if Bits(tag, |A| - 1)[j] then Negate(A[j]) else A[j])
  }

  /** Emits the constraint rows of pattern `reluTag` by reading its bits one by one. */
  method AttainCondition(inputLayer: Matrix, reluTag: nat) returns (result: seq<Vector>)
    requires |inputLayer| >= 1
    ensures result == Condition(inputLayer, reluTag)
  {
    ghost var bits := Bits(reluTag, |inputLayer| - 1);
    result := [];
    var tag := reluTag;
    for i := 0 to |inputLayer| - 1
      invariant |result| == i
      invariant forall j :: 0 <= j < i ==> result[j] == if bits[j] then Negate(inputLayer[j]) else inputLayer[j]
      invariant Bits(tag, |inputLayer| - 1 - i) == bits[i..]
    {
      ShiftBits(tag, |inputLayer| - 1 - i);
      var isOne := tag % 2 == 1;
      tag := tag / 2;
      if isOne {
        var negated := new real[|inputLayer[i]|](_ => 0.0);
        for j := 0 to negated.Length
          invariant forall c :: 0 <= c < j ==> negated[c] == -inputLayer[i][c]
        {
          negated[j] := -inputLayer[i][j];
        }
        assert negated[..] == Negate(inputLayer[i]);
        result := result + [negated[..]];
      } else {
        result := result + [inputLayer[i]];
      }
      assert bits[i + 1..] == bits[i..][1..];
    }
  }

  /** Which side of zero a stored inequality row selects. The source's region
      type, which fixes this, is not part of this model, so it stays a parameter. */
  datatype Reading = AtLeastZero | AtMostZero

  /** The point x satisfies `row` read in direction `reading`. */
  predicate Holds(row: Vector, x: seq<real>, reading: Reading)
    requires |row| == |x| + 1
  {
    match reading
    case AtLeastZero => Eval(row, x) >= 0.0
    case AtMostZero => Eval(row, x) <= 0.0
  }

  function Relu(v: real): real
  {
    if v > 0.0 then v else 0.0
  }

  /** Per-node correspondence: the same bit of the tag that keeps node j's real
      contribution in every next node emits node j's constraint row un-negated,
      and the bit that drops it emits the row negated. */
  lemma ConditionMatchesTerm(w: Vector, A: Matrix, tag: nat, j: nat)
    requires Shaped(w, A) && j < |A| - 1
    ensures |Condition(A, tag)| == |A| - 1
    ensures Bits(tag, |A| - 1)[j] ==> Condition(A, tag)[j] == Negate(A[j]) && Term(w, A, Bits(tag, |A| - 1), j) == Zeros(|A[j]|)
    ensures !Bits(tag, |A| - 1)[j] ==> Condition(A, tag)[j] == A[j] && Term(w, A, Bits(tag, |A| - 1), j) == Scale(w[j], A[j])
  {
  }

  /** Read as "row >= 0", a satisfied constraint row makes node j's selected term
      evaluate to exactly w[j] * ReLU(value of node j): kept when the node is
      non-negative, dropped when it is non-positive. */
  lemma TermIsReluWhenAtLeastZero(w: Vector, A: Matrix, tag: nat, j: nat, x: seq<real>)
    requires Shaped(w, A) && |A[0]| == |x| + 1 && j < |A| - 1
    requires Holds(Condition(A, tag)[j], x, AtLeastZero)
    ensures Eval(Term(w, A, Bits(tag, |A| - 1), j), x) == w[j] * Relu(Eval(A[j], x))
  {
    if Bits(tag, |A| - 1)[j] {
      EvalNegate(A[j], x);
      EvalZeros(x);
    } else {
      EvalScale(w[j], A[j], x);
    }
  }

  /** Read as "row <= 0" (the direction the source's comments describe), the same
      encoding is wrong: for the one-input network whose hidden node is the input
      itself, tag 0 emits the row "input" and keeps the term w * input, and at
      input -1 the row holds while the term is -1 rather than ReLU(-1) * 1 == 0. */
  lemma TermIsNotReluWhenAtMostZero()
    ensures var A: Matrix := [[1.0, 0.0], [0.0, 1.0]];
            var w: Vector := [1.0, 0.0];
            var x := [-1.0];
            Holds(Condition(A, 0)[0], x, AtMostZero)
            && Eval(Term(w, A, Bits(0, 1), 0), x) != w[0] * Relu(Eval(A[0], x))
  {
    var A: Matrix := [[1.0, 0.0], [0.0, 1.0]];
    var w: Vector := [1.0, 0.0];
    var x := [-1.0];
    assert Bits(0, 1) == [false];
    assert Condition(A, 0)[0] == A[0];
    assert Eval(A[0], x) == -1.0;
    assert Term(w, A, Bits(0, 1), 0) == [1.0, 0.0];
  }

  /** Sum of w[j] * ReLU(vals[j]) over the nodes j < m. */
  function ReluSum(w: Vector, vals: seq<real>, m: nat): real
    requires m <= |w| && m <= |vals|
  {
    if m == 0 then 0.0 else ReluSum(w, vals, m - 1) + w[m - 1] * Relu(vals[m - 1])
  }

  lemma {:induction false} MaskedSumIsReluSum(w: Vector, A: Matrix, tag: nat, x: seq<real>, m: nat)
    requires Shaped(w, A) && |A[0]| == |x| + 1 && m <= |A| - 1
    requires forall j :: 0 <= j < |A| - 1 ==> Holds(Condition(A, tag)[j], x, AtLeastZero)
    ensures MaskedSum(w, NodeValues(A, x), Bits(tag, |A| - 1), m) == ReluSum(w, NodeValues(A, x), m)
  {
    if m > 0 {
      MaskedSumIsReluSum(w, A, tag, x, m - 1);
      var bits := Bits(tag, |A| - 1);
      var j := m - 1;
      assert Holds(Condition(A, tag)[j], x, AtLeastZero);
      if bits[j] {
        EvalNegate(A[j], x);
      }
    }
  }

  /** A next node regionwise: at every point satisfying all of a pattern's rows
      read as ">= 0", the node's expression evaluates to its bias plus the weighted
      ReLU of the current node values. */
  lemma NodeAppliesRelu(w: Vector, A: Matrix, tag: nat, x: seq<real>)
    requires Shaped(w, A) && |A[0]| == |x| + 1
    requires A[|A| - 1] == ConstantRow(|x|)
    requires forall j :: 0 <= j < |A| - 1 ==> Holds(Condition(A, tag)[j], x, AtLeastZero)
    ensures Eval(MaskedNode(w, A, Bits(tag, |A| - 1)), x) == w[|A| - 1] + ReluSum(w, NodeValues(A, x), |A| - 1)
  {
    var n := |A| - 1;
    var bits := Bits(tag, n);
    EvalMaskedNode(w, A, bits, x);
    EvalConstantRow(x);
    MaskedSumIsReluSum(w, A, tag, x, n);
    assert w[n] * Eval(A[n], x) == w[n];
  }

  /** One layer of the network, regionwise: every row of the next layer matrix
      except the constant generator evaluates, at every point satisfying all of the
      pattern's rows read as ">= 0", to what the network computes from the current
      node values: bias plus weighted ReLU. */
  lemma LayerStepAppliesRelu(A: Matrix, W: Matrix, tag: nat, x: seq<real>, i: nat)
    requires |A| >= 1 && Rectangular(A, |x| + 1) && Rectangular(W, |A|) && i < |W|
    requires A[|A| - 1] == ConstantRow(|x|)
    requires forall j :: 0 <= j < |A| - 1 ==> Holds(Condition(A, tag)[j], x, AtLeastZero)
    ensures Eval(Layer(A, W, tag)[i], x) == W[i][|A| - 1] + ReluSum(W[i], NodeValues(A, x), |A| - 1)
  {
    assert Layer(A, W, tag)[i] == MaskedNode(W[i], A, Bits(tag, |A| - 1));
    NodeAppliesRelu(W[i], A, tag, x);
  }
}
