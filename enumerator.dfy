/** The region enumerator: walks the layers, branches over every activation
    pattern of each hidden layer and records one candidate region per branch. */
module Enumerator {
  import opened Affine
  import opened Patterns
  import opened Propagation
  import opened Constraints

  /** A candidate region: the last layer's affine expressions (one row per output
      node, then the constant generator) and the inequality rows that select it. */
  datatype Solution = Solution(objectives: Matrix, constraints: seq<Vector>)

  /** Layers k, k+1, ... of `weights` can run one after the other on a layer
      matrix with `rows` rows: every matrix has a row and one column per row of
      its input, and every width that is later branched over keeps 2^width within
      a 32-bit signed int. */
  predicate Chain(weights: seq<Matrix>, k: nat, rows: nat)
    decreases |weights| - k
  {
    k >= |weights| ||
    (|weights[k]| >= 1 && Rectangular(weights[k], rows) &&
     (k < |weights| - 1 ==> |weights[k]| < 31) &&
     Chain(weights, k + 1, |weights[k]| + 1))
  }

  /** The weight list is well formed: the first matrix has d + 1 >= 1 columns,
      and the layers chain from the (d + 1)-row identity. */
  predicate WellFormed(weights: seq<Matrix>)
  {
    |weights| > 0 ==> |weights[0]| >= 1 && |weights[0][0]| >= 1 && Chain(weights, 0, |weights[0][0]|)
  }

  /** A is a layer matrix that layer k of `weights` can consume: rectangular with
      d + 1 >= 1 columns, one row per node of the previous layer plus the constant
      generator, and the remaining layers chain from it. */
  predicate Fits(A: Matrix, weights: seq<Matrix>, k: nat)
  {
    k <= |weights| && |A| >= 1 && |A[0]| >= 1 && Rectangular(A, |A[0]|) &&
    (k >= 1 ==> |A| == |weights[k - 1]| + 1 && (k < |weights| ==> |A| - 1 < 31)) &&
    Chain(weights, k, |A|)
  }

  lemma LayerFits(A: Matrix, weights: seq<Matrix>, k: nat, tag: nat)
    requires Fits(A, weights, k) && k < |weights|
    ensures Fits(Layer(A, weights[k], tag), weights, k + 1)
  {
  }

  /** The regions recorded from layer k on, in recording order. */
  function Enumerate(A: Matrix, weights: seq<Matrix>, k: nat, cond: seq<Vector>): seq<Solution>
    requires Fits(A, weights, k)
    decreases |weights| - k, 2, 0
  {
    if k == |weights| then [Solution(A, cond)]
    else if k == 0 then
      LayerFits(A, weights, 0, 0);
      Enumerate(Layer(A, weights[0], 0), weights, 1, cond)
    else Branches(A, weights, k, cond, Pow2(|A| - 1))
  }

  /** The regions of the hidden-layer patterns m-1, m-2, ..., 0, in that order. */
  function Branches(A: Matrix, weights: seq<Matrix>, k: nat, cond: seq<Vector>, m: nat): seq<Solution>
    requires Fits(A, weights, k) && 1 <= k < |weights|
    decreases |weights| - k, 1, m
  {
    if m == 0 then [] else Child(A, weights, k, cond, m - 1) + Branches(A, weights, k, cond, m - 1)
  }

  /** The regions of one branch of hidden layer k: pattern `tag` propagates A
      through layer k and appends its constraint rows to the parent's list. */
  function Child(A: Matrix, weights: seq<Matrix>, k: nat, cond: seq<Vector>, tag: nat): seq<Solution>
    requires Fits(A, weights, k) && 1 <= k < |weights|
    decreases |weights| - k, 0, 0
  {
    LayerFits(A, weights, k, tag);
    Enumerate(Layer(A, weights[k], tag), weights, k + 1, cond + Condition(A, tag))
  }

  /** Unfolds one pattern of a hidden layer: with m == i + 1, pattern i's regions
      come first, then those of the patterns below it. */
  lemma BranchesStep(A: Matrix, weights: seq<Matrix>, k: nat, cond: seq<Vector>, i: nat, m: nat)
    requires Fits(A, weights, k) && 1 <= k < |weights| && m == i + 1
    ensures Branches(A, weights, k, cond, m) == Child(A, weights, k, cond, i) + Branches(A, weights, k, cond, i)
  {
  }

  /** Sequence concatenation regrouped; only a hint for the pattern loop's invariant. */
  lemma Regroup(whole: seq<Solution>, done: seq<Solution>, branch: seq<Solution>, rest: seq<Solution>)
    requires whole == done + (branch + rest)
    ensures whole == (done + branch) + rest
  {
  }

  /** The number of inputs: one less than the first matrix's column count, 0 for
      an empty weight list. */
  function CalculateInputNumber(weights: seq<Matrix>): int
    requires |weights| > 0 ==> |weights[0]| >= 1
  {
    if |weights| > 0 then |weights[0][0]| - 1 else 0
  }

  /** The input count makes the starting identity consumable by the first layer:
      it is never negative for well-formed weights, and the (d+1) x (d+1)
      identity has one row per column of the first matrix. */
  lemma InputNumberStartsChain(weights: seq<Matrix>)
    requires WellFormed(weights)
    ensures CalculateInputNumber(weights) >= 0
    ensures |weights| == 0 ==> CalculateInputNumber(weights) == 0
    ensures |weights| > 0 ==> |Identity(CalculateInputNumber(weights) + 1)| == |weights[0][0]|
    ensures Fits(Identity(CalculateInputNumber(weights) + 1), weights, 0)
  {
    IdentityLastRow(CalculateInputNumber(weights));
  }

  /** Every region the enumerator records for `weights`, starting from the identity. */
  function Regions(weights: seq<Matrix>): seq<Solution>
    requires WellFormed(weights)
  {
    var d := CalculateInputNumber(weights);
    IdentityLastRow(d);
    Enumerate(Identity(d + 1), weights, 0, [])
  }

  /** Product, over the branching layers k' >= max(k, 1), of 2^(rows of weights[k'-1]). */
  function RegionCount(weights: seq<Matrix>, k: nat): nat
    requires k <= |weights|
    decreases |weights| - k
  {
    if k == |weights| then 1
    else (if k == 0 then 1 else Pow2(|weights[k - 1]|)) * RegionCount(weights, k + 1)
  }

  /** Sum, over the branching layers k' >= max(k, 1), of the rows of weights[k'-1]. */
  function HiddenRows(weights: seq<Matrix>, k: nat): nat
    requires k <= |weights|
    decreases |weights| - k
  {
    if k == |weights| then 0
    else (if k == 0 then 0 else |weights[k - 1]|) + HiddenRows(weights, k + 1)
  }

  /** The length of q consecutive blocks of R regions each (q * R written as
      repeated addition, a proof aid for the block-order lemmas). */
  function Blocks(q: nat, R: nat): nat
  {
    if q == 0 then 0 else Blocks(q - 1, R) + R
  }

  lemma {:induction false} BlocksIsProduct(q: nat, R: nat)
    ensures Blocks(q, R) == q * R
  {
    if q > 0 {
      BlocksIsProduct(q - 1, R);
    }
  }

  lemma {:induction false} BlocksBound(q: nat, m: nat, R: nat, r: nat)
    requires q < m && r < R
    ensures Blocks(q, R) + r < Blocks(m, R)
  {
    if q < m - 1 {
      BlocksBound(q, m - 1, R, r);
    }
  }

  lemma {:induction false} EnumerateCount(A: Matrix, weights: seq<Matrix>, k: nat, cond: seq<Vector>)
    requires Fits(A, weights, k)
    ensures |Enumerate(A, weights, k, cond)| == RegionCount(weights, k)
    decreases |weights| - k, 2, 0
  {
    if k == |weights| {
    } else if k == 0 {
      LayerFits(A, weights, 0, 0);
      EnumerateCount(Layer(A, weights[0], 0), weights, 1, cond);
    } else {
      BranchesCount(A, weights, k, cond, Pow2(|A| - 1));
      BlocksIsProduct(Pow2(|A| - 1), RegionCount(weights, k + 1));
    }
  }

  lemma {:induction false} BranchesCount(A: Matrix, weights: seq<Matrix>, k: nat, cond: seq<Vector>, m: nat)
    requires Fits(A, weights, k) && 1 <= k < |weights|
    ensures |Branches(A, weights, k, cond, m)| == Blocks(m, RegionCount(weights, k + 1))
    decreases |weights| - k, 1, m
  {
    if m > 0 {
      ChildCount(A, weights, k, cond, m - 1);
      BranchesCount(A, weights, k, cond, m - 1);
    }
  }

  /** Region count: one region per combination of hidden-layer patterns, so the
      product of 2^width over the hidden layers; exactly one without hidden layers. */
  lemma RegionsCount(weights: seq<Matrix>)
    requires WellFormed(weights)
    ensures |Regions(weights)| == RegionCount(weights, 0)
    ensures |weights| <= 1 ==> |Regions(weights)| == 1
  {
    var d := CalculateInputNumber(weights);
    IdentityLastRow(d);
    EnumerateCount(Identity(d + 1), weights, 0, []);
  }

  /** What every recorded region looks like: its constraint list extends the list
      it was started with by `hidden` rows, all rows have `cols` entries, and its
      objective matrix has `outRows` rows ending in the constant generator. */
  predicate Shape(s: Solution, cond: seq<Vector>, hidden: nat, outRows: nat, cols: nat)
  {
    cond <= s.constraints && |s.constraints| == |cond| + hidden && Rectangular(s.constraints, cols) &&
    |s.objectives| == outRows && outRows >= 1 && cols >= 1 && Rectangular(s.objectives, cols) &&
    s.objectives[outRows - 1] == ConstantRow(cols - 1)
  }

  /** Rows of the recorded objective matrices: those of the current matrix at the
      terminal index, else one per node of the last layer plus the constant generator. */
  function OutputRows(A: Matrix, weights: seq<Matrix>, k: nat): nat
    requires k <= |weights|
  {
    if k == |weights| then |A| else |weights[|weights| - 1]| + 1
  }

  lemma {:induction false} EnumerateShape(A: Matrix, weights: seq<Matrix>, k: nat, cond: seq<Vector>)
    requires Fits(A, weights, k) && Rectangular(cond, |A[0]|) && A[|A| - 1] == ConstantRow(|A[0]| - 1)
    ensures forall s :: s in Enumerate(A, weights, k, cond) ==>
      Shape(s, cond, HiddenRows(weights, k), OutputRows(A, weights, k), |A[0]|)
    decreases |weights| - k, 1, 0
  {
    if k == |weights| {
    } else if k == 0 {
      LayerFits(A, weights, 0, 0);
      LayerLastRow(A, weights[0], 0);
      EnumerateShape(Layer(A, weights[0], 0), weights, 1, cond);
    } else {
      BranchesShape(A, weights, k, cond, Pow2(|A| - 1));
    }
  }

  lemma {:induction false} BranchesShape(A: Matrix, weights: seq<Matrix>, k: nat, cond: seq<Vector>, m: nat)
    requires Fits(A, weights, k) && 1 <= k < |weights| && Rectangular(cond, |A[0]|)
    requires A[|A| - 1] == ConstantRow(|A[0]| - 1)
    ensures forall s :: s in Branches(A, weights, k, cond, m) ==>
      Shape(s, cond, HiddenRows(weights, k), OutputRows(A, weights, k), |A[0]|)
    decreases |weights| - k, 0, m
  {
    if m > 0 {
      var child := Layer(A, weights[k], m - 1);
      var childCond := cond + Condition(A, m - 1);
      LayerFits(A, weights, k, m - 1);
      LayerLastRow(A, weights[k], m - 1);
      assert Rectangular(childCond, |A[0]|);
      EnumerateShape(child, weights, k + 1, childCond);
      BranchesShape(A, weights, k, cond, m - 1);
      forall s | s in Enumerate(child, weights, k + 1, childCond)
        ensures Shape(s, cond, HiddenRows(weights, k), OutputRows(A, weights, k), |A[0]|)
      {
        assert childCond <= s.constraints;
        assert cond <= childCond;
      }
    }
  }

  /** Shape of every region of a network: objective rows and constraint rows have
      one entry per input plus the constant; objectives have a row per output node
      plus the constant generator (a single 1x1 row for an empty weight list); and
      the constraint list holds one row per hidden node. */
  lemma RegionsShape(weights: seq<Matrix>)
    requires WellFormed(weights)
    ensures forall s :: s in Regions(weights) ==>
      var cols := if |weights| == 0 then 1 else |weights[0][0]|;
      var outRows := if |weights| == 0 then 1 else |weights[|weights| - 1]| + 1;
      Shape(s, [], HiddenRows(weights, 0), outRows, cols)
  {
    var d := CalculateInputNumber(weights);
    IdentityLastRow(d);
    EnumerateShape(Identity(d + 1), weights, 0, []);
  }

  /** Every branch of hidden layer k holds the same number of regions. */
  lemma ChildCount(A: Matrix, weights: seq<Matrix>, k: nat, cond: seq<Vector>, tag: nat)
    requires Fits(A, weights, k) && 1 <= k < |weights|
    ensures |Child(A, weights, k, cond, tag)| == RegionCount(weights, k + 1)
    decreases |weights| - k, 0, 0
  {
    LayerFits(A, weights, k, tag);
    EnumerateCount(Layer(A, weights[k], tag), weights, k + 1, cond + Condition(A, tag));
  }

  /** The blocks f(m-1), f(m-2), ..., f(0), concatenated in that order: the shape
      of `Branches` with the branch as a parameter, a proof aid for block indexing. */
  function Stack(f: nat -> seq<Solution>, m: nat): seq<Solution>
  {
    if m == 0 then [] else f(m - 1) + Stack(f, m - 1)
  }

  lemma {:induction false} StackCount(f: nat -> seq<Solution>, m: nat, R: nat)
    requires forall t :: 0 <= t < m ==> |f(t)| == R
    ensures |Stack(f, m)| == Blocks(m, R)
  {
    if m > 0 {
      StackCount(f, m - 1, R);
    }
  }

  /** Block m-1-p of a stack of equal-sized blocks is f(p). */
  lemma {:induction false} StackAt(f: nat -> seq<Solution>, m: nat, R: nat, p: nat, r: nat)
    requires forall t :: 0 <= t < m ==> |f(t)| == R
    requires p < m && r < R
    ensures Blocks(m - 1 - p, R) + r < |Stack(f, m)|
    ensures Stack(f, m)[Blocks(m - 1 - p, R) + r] == f(p)[r]
  {
    StackCount(f, m, R);
    BlocksBound(m - 1 - p, m, R, r);
    var first := f(m - 1);
    var rest := Stack(f, m - 1);
    assert Stack(f, m) == first + rest;
    if p < m - 1 {
      StackAt(f, m - 1, R, p, r);
      var i := Blocks(m - 2 - p, R) + r;
      assert Blocks(m - 1 - p, R) + r == |first| + i;
    } else {
      assert Blocks(m - 1 - p, R) == 0;
    }
  }

  /** The branches of a hidden layer are the stack of its children. */
  lemma {:induction false} BranchesIsStack(A: Matrix, weights: seq<Matrix>, k: nat, cond: seq<Vector>, m: nat,
                                           f: nat -> seq<Solution>)
    requires Fits(A, weights, k) && 1 <= k < |weights|
    requires forall t :: 0 <= t < m ==> f(t) == Child(A, weights, k, cond, t)
    ensures Branches(A, weights, k, cond, m) == Stack(f, m)
  {
    if m > 0 {
      BranchesIsStack(A, weights, k, cond, m - 1, f);
      BranchesStep(A, weights, k, cond, m - 1, m);
    }
  }

  lemma BranchesAt(A: Matrix, weights: seq<Matrix>, k: nat, cond: seq<Vector>, m: nat, p: nat, r: nat)
    requires Fits(A, weights, k) && 1 <= k < |weights|
    requires p < m && r < RegionCount(weights, k + 1)
    ensures Blocks(m - 1 - p, RegionCount(weights, k + 1)) + r < |Branches(A, weights, k, cond, m)|
    ensures |Child(A, weights, k, cond, p)| == RegionCount(weights, k + 1)
    ensures Branches(A, weights, k, cond, m)[Blocks(m - 1 - p, RegionCount(weights, k + 1)) + r]
         == Child(A, weights, k, cond, p)[r]
  {
    var f := (tag: nat) => Child(A, weights, k, cond, tag);
    forall t | 0 <= t < m
      ensures |f(t)| == RegionCount(weights, k + 1)
    {
      ChildCount(A, weights, k, cond, t);
    }
    BranchesIsStack(A, weights, k, cond, m, f);
    StackAt(f, m, RegionCount(weights, k + 1), p, r);
  }

  /** Order: at a hidden layer the patterns are visited from 2^w - 1 down to 0, and
      the regions of pattern p form one contiguous block, block number 2^w - 1 - p,
      each block being exactly the regions of the branch that appends pattern p's
      rows to the parent's constraint list. */
  lemma HiddenLayerOrder(A: Matrix, weights: seq<Matrix>, k: nat, cond: seq<Vector>, p: nat, r: nat)
    requires Fits(A, weights, k) && 1 <= k < |weights|
    requires p < Pow2(|A| - 1) && r < RegionCount(weights, k + 1)
    ensures Blocks(Pow2(|A| - 1) - 1 - p, RegionCount(weights, k + 1))
         == (Pow2(|A| - 1) - 1 - p) * RegionCount(weights, k + 1)
    ensures Blocks(Pow2(|A| - 1) - 1 - p, RegionCount(weights, k + 1)) + r < |Enumerate(A, weights, k, cond)|
    ensures |Child(A, weights, k, cond, p)| == RegionCount(weights, k + 1)
    ensures Enumerate(A, weights, k, cond)[Blocks(Pow2(|A| - 1) - 1 - p, RegionCount(weights, k + 1)) + r]
         == Child(A, weights, k, cond, p)[r]
  {
    BranchesAt(A, weights, k, cond, Pow2(|A| - 1), p, r);
    BlocksIsProduct(Pow2(|A| - 1) - 1 - p, RegionCount(weights, k + 1));
  }

  /** An empty weight list yields exactly one region: the 1x1 matrix [1] with no
      constraints. */
  lemma EmptyNetworkRegion()
    ensures Regions([]) == [Solution([[1.0]], [])]
  {
    assert Identity(1)[0] == [1.0];
    assert Identity(1) == [[1.0]];
  }

  /** The pass-through weight row: weight 1 on the single input, bias 0. */
  const PassThrough: Matrix := [[1.0, 0.0]]

  /** The 2 x 2 layer matrix of one input: the input itself, then the constant generator. */
  const OneInput: Matrix := [[1.0, 0.0], [0.0, 1.0]]

  /** The layer matrices pass-through layers produce from OneInput: pattern 0
      keeps the input, pattern 1 drops it. */
  lemma PassThroughLayers()
    ensures Identity(2) == OneInput
    ensures Layer(OneInput, PassThrough, 0) == OneInput
    ensures Layer(OneInput, PassThrough, 1) == [[0.0, 0.0], [0.0, 1.0]]
  {
    var w := PassThrough[0];
    var zero: Vector := [0.0, 0.0];
    assert Identity(2)[0] == OneInput[0] && Identity(2)[1] == OneInput[1];
    assert ConstantRow(1) == OneInput[1];
    assert Bits(0, 1) == [false] && Bits(1, 1) == [true];
    assert Scale(0.0, OneInput[1]) == zero;
    assert Scale(1.0, OneInput[0]) == OneInput[0];
    assert Zeros(2) == zero;
    assert VecAdd(zero, OneInput[0]) == OneInput[0];
    assert VecAdd(zero, zero) == zero;
    assert MaskedNode(w, OneInput, [false]) == OneInput[0];
    assert MaskedNode(w, OneInput, [true]) == zero;
  }

  /** The constraint rows of the single node of OneInput: as-is for pattern 0,
      negated for pattern 1. */
  lemma PassThroughConditions()
    ensures Condition(OneInput, 0) == [[1.0, 0.0]]
    ensures Condition(OneInput, 1) == [[-1.0, 0.0]]
  {
    assert Bits(0, 1) == [false] && Bits(1, 1) == [true];
    assert Negate(OneInput[0]) == [-1.0, 0.0];
  }

  /** The one-input network whose single hidden node and single output both pass
      their input through with weight 1 and bias 0 yields two regions, pattern 1
      first: the negated row "-input" with the all-zero output map, then the row
      "input" with the identity output map. */
  lemma IdentityThroughRelu()
    ensures Regions([PassThrough, PassThrough])
         == [Solution([[0.0, 0.0], [0.0, 1.0]], [[-1.0, 0.0]]),
             Solution([[1.0, 0.0], [0.0, 1.0]], [[1.0, 0.0]])]
  {
    var weights := [PassThrough, PassThrough];
    PassThroughLayers();
    PassThroughConditions();
    assert CalculateInputNumber(weights) == 1;
    assert Regions(weights) == Enumerate(OneInput, weights, 0, []);
    assert Enumerate(OneInput, weights, 0, []) == Enumerate(OneInput, weights, 1, []);
    assert Pow2(1) == 2;
    assert Enumerate(OneInput, weights, 1, []) == Branches(OneInput, weights, 1, [], 2);
    BranchesStep(OneInput, weights, 1, [], 1, 2);
    BranchesStep(OneInput, weights, 1, [], 0, 1);
    assert weights[1] == PassThrough;
    var dropped: Matrix := [[0.0, 0.0], [0.0, 1.0]];
    assert Child(OneInput, weights, 1, [], 1)
        == Enumerate(Layer(OneInput, weights[1], 1), weights, 2, [] + Condition(OneInput, 1));
    assert Layer(OneInput, weights[1], 1) == dropped;
    assert [] + Condition(OneInput, 1) == [[-1.0, 0.0]];
    assert Child(OneInput, weights, 1, [], 1) == Enumerate(dropped, weights, 2, [[-1.0, 0.0]]);
    assert Child(OneInput, weights, 1, [], 0)
        == Enumerate(Layer(OneInput, weights[1], 0), weights, 2, [] + Condition(OneInput, 0));
    assert Layer(OneInput, weights[1], 0) == OneInput;
    assert [] + Condition(OneInput, 0) == [[1.0, 0.0]];
    assert Child(OneInput, weights, 1, [], 0) == Enumerate(OneInput, weights, 2, [[1.0, 0.0]]);
    assert Child(OneInput, weights, 1, [], 1) == [Solution([[0.0, 0.0], [0.0, 1.0]], [[-1.0, 0.0]])];
    assert Child(OneInput, weights, 1, [], 0) == [Solution(OneInput, [[1.0, 0.0]])];
  }

  /** Builds the (n+1) x (n+1) identity: zero rows, then a 1 on the diagonal. */
  method InitialLayer(n: nat) returns (m: Matrix)
    ensures |m| == n + 1 && Rectangular(m, n + 1)
    ensures forall i, j :: 0 <= i <= n && 0 <= j <= n ==> m[i][j] == if i == j then 1.0 else 0.0
  {
    var layer := new Vector[n + 1](_ => Zeros(n + 1));
    for i := 0 to n + 1
      invariant forall p :: 0 <= p < i ==> layer[p] == Zeros(n + 1)[p := 1.0]
      invariant forall p :: i <= p <= n ==> layer[p] == Zeros(n + 1)
    {
      layer[i] := layer[i][i := 1.0];
    }
    m := layer[..];
  }

  /** The enumerator object: `solutions` collects the regions of the last parse. */
  class NetParser {
    var solutions: seq<Solution>

    constructor ()
      ensures solutions == []
    {
      solutions := [];
    }

    /** Clears earlier results, then records every region of `weights`. */
    method Parse(weights: seq<Matrix>) returns (result: seq<Solution>)
      requires WellFormed(weights)
      modifies this
      ensures solutions == Regions(weights) && result == solutions
    {
      solutions := [];
      var inputNumber := CalculateInputNumber(weights);
      var inputLayer := InitialLayer(inputNumber);
      forall i | 0 <= i <= inputNumber
        ensures inputLayer[i] == Identity(inputNumber + 1)[i]
      {
      }
      assert inputLayer == Identity(inputNumber + 1);
      IdentityLastRow(inputNumber);
      CalculateNet(inputLayer, weights, 0, |weights|, []);
      result := solutions;
    }

    /** Appends the regions of every branch below layer `layerIndex`: at the
        terminal index one region; at layer 0 a single branch with pattern 0; at
        every later layer one branch per pattern, highest first, each with its own
        extended copy of `condition`. */
    method CalculateNet(inputLayer: Matrix, weights: seq<Matrix>, layerIndex: nat, layerNumber: nat, condition: seq<Vector>)
      requires layerNumber == |weights| && Fits(inputLayer, weights, layerIndex)
      modifies this
      decreases layerNumber - layerIndex, 1
      ensures solutions == old(solutions) + Enumerate(inputLayer, weights, layerIndex, condition)
    {
      if layerIndex == layerNumber {
        solutions := solutions + [Solution(inputLayer, condition)];
        return;
      }
      var weight := weights[layerIndex];
      var cache := AttainNodeCache(inputLayer, weight);
      if layerIndex == 0 {
        var next := CalculateLayer(cache, 0, inputLayer, weight);
        LayerFits(inputLayer, weights, 0, 0);
        CalculateNet(next, weights, 1, layerNumber, condition);
      } else {
        var reluTag := Pow2(|inputLayer| - 1) - 1;
        ghost var patterns: nat := Pow2(|inputLayer| - 1);
        var i: int := reluTag;
        while i >= 0
          invariant -1 <= i <= reluTag && patterns == i + 1
          invariant old(solutions) + Enumerate(inputLayer, weights, layerIndex, condition)
                 == solutions + Branches(inputLayer, weights, layerIndex, condition, patterns)
          decreases i + 1
        {
          ghost var before := solutions;
          CalculateBranch(inputLayer, weights, layerIndex, layerNumber, condition, cache, i);
          BranchesStep(inputLayer, weights, layerIndex, condition, i, patterns);
          Regroup(old(solutions) + Enumerate(inputLayer, weights, layerIndex, condition), before,
                  Child(inputLayer, weights, layerIndex, condition, i), Branches(inputLayer, weights, layerIndex, condition, i));
          patterns := i;
          i := i - 1;
        }
      }
    }

    /** One pass of the pattern loop: the constraint rows of pattern `reluTag`
        extend a copy of `condition`, the next layer matrix is built from the
        cache, and the enumeration recurses into the next layer. */
    method CalculateBranch(inputLayer: Matrix, weights: seq<Matrix>, layerIndex: nat, layerNumber: nat, condition: seq<Vector>,
                           cache: NodeCache, reluTag: nat)
      requires layerNumber == |weights| && Fits(inputLayer, weights, layerIndex) && 1 <= layerIndex < layerNumber
      requires IsNodeCache(cache, inputLayer, weights[layerIndex])
      modifies this
      decreases layerNumber - layerIndex, 0
      ensures solutions == old(solutions) + Child(inputLayer, weights, layerIndex, condition, reluTag)
    {
      var rows := AttainCondition(inputLayer, reluTag);
      var tmpCondition := condition + rows;
      var next := CalculateLayer(cache, reluTag, inputLayer, weights[layerIndex]);
      LayerFits(inputLayer, weights, layerIndex, reluTag);
      CalculateNet(next, weights, layerIndex + 1, layerNumber, tmpCondition);
    }
  }

  /** Repeatability: parsing the same weights twice with one parser returns the
      same region sequence, because each parse clears the earlier results. */
  method ParseTwice(weights: seq<Matrix>) returns (first: seq<Solution>, second: seq<Solution>)
    requires WellFormed(weights)
    ensures first == second == Regions(weights)
  {
    var parser := new NetParser();
    first := parser.Parse(weights);
    second := parser.Parse(weights);
  }
}
