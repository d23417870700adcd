/** Affine propagation: from the current layer's affine expressions A (one row per
    current node, then the constant generator) and the next layer's weight matrix
    W (one row per next node; one column per current node, then the bias column),
    compute every next node's pre-activation expression for one activation pattern. */
module Propagation {
  import opened Affine
  import opened Patterns
  import opened ExactArith

  /** For every next node and every row of the current layer matrix, a pair of
      vectors: index 0 the zero branch, index 1 the scaled branch. */
  type NodeCache = seq<seq<seq<Vector>>>

  /** A weight row w fits the layer matrix A: one weight per row of A. */
  predicate Shaped(w: Vector, A: Matrix)
  {
    |A| >= 1 && |w| == |A| && Rectangular(A, |A[0]|)
  }

  /** The contribution of current node j to a next node with weight row w:
      nothing when bit j is set, w[j] * A[j] when it is clear. */
  function Term(w: Vector, A: Matrix, bits: seq<bool>, j: nat): Vector
    requires j < |bits| && j < |A| && j < |w|
  {
    if bits[j] then Zeros(|A[j]|) else Scale(w[j], A[j])
  }

  /** The bias contribution, then the contributions of current nodes 0 .. m-1, in
      the order in which they are accumulated. */
  function PartialNode(w: Vector, A: Matrix, bits: seq<bool>, m: nat): (r: Vector)
    requires Shaped(w, A) && |bits| == |A| - 1 && m <= |bits|
    ensures |r| == |A[0]|
  {
    if m == 0 then Scale(w[|A| - 1], A[|A| - 1])
    else VecAdd(PartialNode(w, A, bits, m - 1), Term(w, A, bits, m - 1))
  }

  /** The pre-activation expression of a next node under the pattern `bits`. */
  function MaskedNode(w: Vector, A: Matrix, bits: seq<bool>): Vector
    requires Shaped(w, A) && |bits| == |A| - 1
  {
    PartialNode(w, A, bits, |A| - 1)
  }

  /** The next layer matrix for pattern `tag`: one masked row per row of W, then
      the constant generator. */
  function Layer(A: Matrix, W: Matrix, tag: nat): (r: Matrix)
    requires |A| >= 1 && |A[0]| >= 1 && Rectangular(A, |A[0]|) && Rectangular(W, |A|)
    ensures |r| == |W| + 1 && Rectangular(r, |A[0]|)
  {
    seq(|W|, i requires 0 <= i < |W| => MaskedNode(W[i], A, Bits(tag, |A| - 1)))
      + [ConstantRow(|A[0]| - 1)]
  }

  /** The next layer matrix ends in the constant generator, as the input did. */
  lemma LayerLastRow(A: Matrix, W: Matrix, tag: nat)
    requires |A| >= 1 && |A[0]| >= 1 && Rectangular(A, |A[0]|) && Rectangular(W, |A|)
    ensures |Layer(A, W, tag)| == |W| + 1 && Layer(A, W, tag)[|W|] == ConstantRow(|A[0]| - 1)
  {
  }

  /** One cache entry: a zero vector of `cols` entries at index 0 and the scaled
      row weight * row at index 1, stated entry by entry. */
  predicate CacheEntry(pair: seq<Vector>, weight: real, row: Vector, cols: nat)
  {
    |pair| == 2 && |pair[0]| == cols && |pair[1]| == |row|
    && (forall c :: 0 <= c < cols ==> pair[0][c] == 0.0)
    && (forall c :: 0 <= c < |row| ==> pair[1][c] == weight * row[c])
  }

  /** The entry-by-entry description is exactly the pair [Zeros(cols), weight * row]. */
  lemma CacheEntryIsPair(pair: seq<Vector>, weight: real, row: Vector, cols: nat)
    ensures CacheEntry(pair, weight, row, cols) <==> pair == [Zeros(cols), Scale(weight, row)]
  {
    if CacheEntry(pair, weight, row, cols) {
      assert pair[0] == Zeros(cols);
      assert forall c :: 0 <= c < |row| ==> pair[1][c] == Scale(weight, row)[c];
      assert pair[1] == Scale(weight, row);
      assert pair == [pair[0], pair[1]];
    }
  }

  /** cache[i][j] holds, for next node i and row j of A, the zero branch and the
      scaled branch W[i][j] * A[j]. */
  predicate IsNodeCache(cache: NodeCache, A: Matrix, W: Matrix)
    requires |A| >= 1 && Rectangular(W, |A|)
  {
    |cache| == |W| &&
    forall i :: 0 <= i < |W| ==>
      |cache[i]| == |A| &&
      forall j :: 0 <= j < |A| ==> CacheEntry(cache[i][j], W[i][j], A[j], |A[0]|)
  }

  /** Precomputes, for every next node i and every row j of A (the constant
      generator included), the zero vector and the scaled row W[i][j] * A[j]. */
  method AttainNodeCache(A: Matrix, W: Matrix) returns (cache: NodeCache)
    requires |A| >= 1 && Rectangular(A, |A[0]|) && Rectangular(W, |A|)
    ensures IsNodeCache(cache, A, W)
  {
    var cols := |A[0]|;
    cache := [];
    for i := 0 to |W|
      invariant |cache| == i
      invariant forall p :: 0 <= p < i ==>
        |cache[p]| == |A| &&
        forall j :: 0 <= j < |A| ==> CacheEntry(cache[p][j], W[p][j], A[j], cols)
    {
      var entries: seq<seq<Vector>> := [];
      for j := 0 to |A|
        invariant |entries| == j
        invariant forall q :: 0 <= q < j ==> CacheEntry(entries[q], W[i][q], A[q], cols)
      {
        var zeros := new real[cols](_ => 0.0);
        var zeroBranch := zeros[..];
        var scaled := new real[cols](_ => 0.0);
        for k := 0 to cols
          invariant forall c :: 0 <= c < k ==> scaled[c] == W[i][j] * A[j][c]
          invariant forall c :: k <= c < cols ==> scaled[c] == 0.0
        {
          scaled[k] := Add(scaled[k], Multiply(A[j][k], W[i][j]));
        }
        assert |A[j]| == cols;
        entries := entries + [[zeroBranch, scaled[..]]];
      }
      cache := cache + [entries];
    }
  }

  /** Column c of PartialNode, as a plain sum: the bias weight times A's last row,
      then w[j] * A[j][c] for every node j < m whose bit is clear. */
  function Coefficient(w: Vector, A: Matrix, bits: seq<bool>, m: nat, c: nat): real
    requires Shaped(w, A) && |bits| == |A| - 1 && m <= |bits| && c < |A[0]|
  {
    if m == 0 then w[|A| - 1] * A[|A| - 1][c]
    else Coefficient(w, A, bits, m - 1, c) + (if bits[m - 1] then 0.0 else w[m - 1] * A[m - 1][c])
  }

  lemma {:induction false} PartialNodeColumns(w: Vector, A: Matrix, bits: seq<bool>, m: nat)
    requires Shaped(w, A) && |bits| == |A| - 1 && m <= |bits|
    ensures forall c :: 0 <= c < |A[0]| ==> PartialNode(w, A, bits, m)[c] == Coefficient(w, A, bits, m, c)
  {
    if m > 0 {
      PartialNodeColumns(w, A, bits, m - 1);
    }
  }

  /** A vector whose every column matches Coefficient for all nodes is the masked node. */
  lemma MaskedNodeFromColumns(w: Vector, A: Matrix, bits: seq<bool>, node: Vector)
    requires Shaped(w, A) && |bits| == |A| - 1 && |node| == |A[0]|
    requires forall c :: 0 <= c < |A[0]| ==> node[c] == Coefficient(w, A, bits, |A| - 1, c)
    ensures node == MaskedNode(w, A, bits)
  {
    PartialNodeColumns(w, A, bits, |A| - 1);
  }

  /** Builds next node `outputNodeIndex`: the bias contribution, then for every
      current node j the zero branch when bit j of `reluTag` is 1 and the scaled
      branch when it is 0. */
  method CalculateNode(cache: NodeCache, outputNodeIndex: nat, reluTag: nat, ghost A: Matrix, ghost W: Matrix)
    returns (node: Vector)
    requires |A| >= 1 && Rectangular(A, |A[0]|) && Rectangular(W, |A|)
    requires IsNodeCache(cache, A, W) && outputNodeIndex < |W|
    ensures node == MaskedNode(W[outputNodeIndex], A, Bits(reluTag, |A| - 1))
  {
    ghost var w := W[outputNodeIndex];
    ghost var bits := Bits(reluTag, |A| - 1);
    ghost var cols := |A[0]|;
    var length := |cache[0]|;
    node := Zeros(|cache[0][0][0]|);
    node := AddDoubleArray(node, cache[outputNodeIndex][length - 1][1]);
    var tag := reluTag;
    for i := 0 to length - 1
      invariant |node| == cols
      invariant forall c :: 0 <= c < cols ==> node[c] == Coefficient(w, A, bits, i, c)
      invariant Bits(tag, length - 1 - i) == bits[i..]
    {
      ShiftBitsAt(tag, bits, i, length - 1);
      var isOne := tag % 2 == 1;
      tag := tag / 2;
      if isOne {
        node := AddDoubleArray(node, cache[outputNodeIndex][i][0]);
      } else {
        node := AddDoubleArray(node, cache[outputNodeIndex][i][1]);
      }
    }
    MaskedNodeFromColumns(w, A, bits, node);
  }

  /** Overwriting the last entry of a zero row with 1 gives the constant generator. */
  lemma ZerosWithLastOne(cols: nat)
    requires cols >= 1
    ensures Zeros(cols)[cols - 1 := 1.0] == ConstantRow(cols - 1)
  {
  }

  /** A matrix whose rows are the masked nodes of W, in order, followed by the
      constant generator is the next layer matrix. */
  lemma LayerFromRows(A: Matrix, W: Matrix, tag: nat, rows: Matrix)
    requires |A| >= 1 && |A[0]| >= 1 && Rectangular(A, |A[0]|) && Rectangular(W, |A|)
    requires |rows| == |W| + 1 && rows[|W|] == ConstantRow(|A[0]| - 1)
    requires forall p :: 0 <= p < |W| ==> rows[p] == MaskedNode(W[p], A, Bits(tag, |A| - 1))
    ensures rows == Layer(A, W, tag)
  {
  }

  /** Builds the whole next layer matrix for one activation pattern. */
  method CalculateLayer(cache: NodeCache, reluTag: nat, ghost A: Matrix, ghost W: Matrix)
    returns (outputLayer: Matrix)
    requires |A| >= 1 && |A[0]| >= 1 && Rectangular(A, |A[0]|) && Rectangular(W, |A|)
    requires |W| >= 1 && IsNodeCache(cache, A, W)
    ensures outputLayer == Layer(A, W, reluTag)
  {
    var cols := |cache[0][0][0]|;
    var rows := new Vector[|cache| + 1](_ => Zeros(cols));
    for i := 0 to |cache|
      invariant forall p :: 0 <= p < i ==> rows[p] == MaskedNode(W[p], A, Bits(reluTag, |A| - 1))
      invariant rows[|cache|] == Zeros(cols)
    {
      var node := CalculateNode(cache, i, reluTag, A, W);
      rows[i] := node;
    }
    var constantRow := rows[|cache|];
    constantRow := constantRow[cols - 1 := 1.0];
    ZerosWithLastOne(cols);
    rows[|cache|] := constantRow;
    outputLayer := rows[..];
    LayerFromRows(A, W, reluTag, outputLayer);
  }

  /** The value of every current node at the point x. */
  function NodeValues(A: Matrix, x: seq<real>): (vals: seq<real>)
    requires Rectangular(A, |x| + 1)
  {
    seq(|A|, j requires 0 <= j < |A| => Eval(A[j], x))
  }

  /** Sum of w[j] * vals[j] over the nodes j < m whose bit is clear. */
  function MaskedSum(w: Vector, vals: seq<real>, bits: seq<bool>, m: nat): real
    requires m <= |bits| && m <= |w| && m <= |vals|
  {
    if m == 0 then 0.0 else MaskedSum(w, vals, bits, m - 1) + (if bits[m - 1] then 0.0 else w[m - 1] * vals[m - 1])
  }

  /** The value of one contribution: 0 when the bit is set, w[j] times node j's
      value (`value`) when it is clear. */
  lemma EvalTerm(w: Vector, A: Matrix, bits: seq<bool>, j: nat, x: seq<real>, value: real)
    requires Shaped(w, A) && |bits| == |A| - 1 && j < |bits| && |A[0]| == |x| + 1
    requires value == Eval(A[j], x)
    ensures Eval(Term(w, A, bits, j), x) == if bits[j] then 0.0 else w[j] * value
  {
    if bits[j] {
      EvalZeros(x);
    } else {
      EvalScale(w[j], A[j], x);
    }
  }

  /** Accumulating contribution m - 1 adds its value. */
  lemma EvalAccumulate(w: Vector, A: Matrix, bits: seq<bool>, m: nat, x: seq<real>)
    requires Shaped(w, A) && |bits| == |A| - 1 && 0 < m <= |bits| && |A[0]| == |x| + 1
    ensures Eval(PartialNode(w, A, bits, m), x)
         == Eval(PartialNode(w, A, bits, m - 1), x) + Eval(Term(w, A, bits, m - 1), x)
  {
    EvalAdd(PartialNode(w, A, bits, m - 1), Term(w, A, bits, m - 1), x);
  }

  /** One accumulation step, evaluated: if the partial node for m - 1 is worth
      `bias` plus the masked sum over m - 1 nodes, the one for m is worth `bias`
      plus the masked sum over m nodes. */
  lemma EvalPartialNodeStep(w: Vector, A: Matrix, bits: seq<bool>, m: nat, x: seq<real>, vals: seq<real>, bias: real)
    requires Shaped(w, A) && |bits| == |A| - 1 && 0 < m <= |bits| && |A[0]| == |x| + 1
    requires |vals| == |A| && vals[m - 1] == Eval(A[m - 1], x)
    requires Eval(PartialNode(w, A, bits, m - 1), x) == bias + MaskedSum(w, vals, bits, m - 1)
    ensures Eval(PartialNode(w, A, bits, m), x) == bias + MaskedSum(w, vals, bits, m)
  {
    EvalAccumulate(w, A, bits, m, x);
    EvalTerm(w, A, bits, m - 1, x, vals[m - 1]);
  }

  lemma {:induction false} EvalPartialNode(w: Vector, A: Matrix, bits: seq<bool>, m: nat, x: seq<real>, vals: seq<real>)
    requires Shaped(w, A) && |bits| == |A| - 1 && m <= |bits| && |A[0]| == |x| + 1
    requires |vals| == |A| && forall j :: 0 <= j < |A| ==> vals[j] == Eval(A[j], x)
    ensures Eval(PartialNode(w, A, bits, m), x)
         == w[|A| - 1] * Eval(A[|A| - 1], x) + MaskedSum(w, vals, bits, m)
  {
    if m == 0 {
      EvalScale(w[|A| - 1], A[|A| - 1], x);
    } else {
      EvalPartialNode(w, A, bits, m - 1, x, vals);
      EvalPartialNodeStep(w, A, bits, m, x, vals, w[|A| - 1] * Eval(A[|A| - 1], x));
    }
  }

  /** Evaluation law: at any point x, a next node's expression evaluates to the
      bias weight times the constant row's value plus the weighted values of the
      current nodes whose bit is clear. */
  lemma EvalMaskedNode(w: Vector, A: Matrix, bits: seq<bool>, x: seq<real>)
    requires Shaped(w, A) && |bits| == |A| - 1 && |A[0]| == |x| + 1
    ensures Eval(MaskedNode(w, A, bits), x)
         == w[|A| - 1] * Eval(A[|A| - 1], x) + MaskedSum(w, NodeValues(A, x), bits, |A| - 1)
  {
    EvalPartialNode(w, A, bits, |A| - 1, x, NodeValues(A, x));
  }

  /** Sum of w[j] * A[j] over the rows j < m: a row of the plain product W * A. */
  function Combine(w: Vector, A: Matrix, m: nat): (r: Vector)
    requires Shaped(w, A) && m <= |A|
    ensures |r| == |A[0]|
  {
    if m == 0 then Zeros(|A[0]|) else VecAdd(Combine(w, A, m - 1), Scale(w[m - 1], A[m - 1]))
  }

  lemma {:induction false} AllClearPartialNode(w: Vector, A: Matrix, bits: seq<bool>, m: nat)
    requires Shaped(w, A) && |bits| == |A| - 1 && m <= |bits|
    requires forall j :: 0 <= j < |bits| ==> !bits[j]
    ensures PartialNode(w, A, bits, m) == VecAdd(Scale(w[|A| - 1], A[|A| - 1]), Combine(w, A, m))
  {
    var bias := Scale(w[|A| - 1], A[|A| - 1]);
    if m == 0 {
      VecAddZeros(bias);
    } else {
      AllClearPartialNode(w, A, bits, m - 1);
      VecAddAssoc(bias, Combine(w, A, m - 1), Scale(w[m - 1], A[m - 1]));
    }
  }

  /** Pattern 0 (every bit clear, the pattern used for the first layer) keeps every
      contribution: the node is the full product of the weight row with A. */
  lemma ZeroPatternIsFullProduct(w: Vector, A: Matrix)
    requires Shaped(w, A)
    ensures MaskedNode(w, A, Bits(0, |A| - 1)) == Combine(w, A, |A|)
  {
    var n := |A| - 1;
    ZeroTagAllClear(n);
    AllClearPartialNode(w, A, Bits(0, n), n);
    VecAddComm(Scale(w[n], A[n]), Combine(w, A, n));
  }
}
