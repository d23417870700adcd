# Region enumerator of a ReLU network, in Dafny

This project models the region enumerator of NeuralNetworkSolver, the class
`Logics.NetParser`. The enumerator takes the weight matrices of a feed-forward
ReLU network. Each matrix has one row per node of the next layer. Its columns
are one per node of the current layer, then a bias column.

The enumerator walks the layers with an *affine expression matrix* A. A has one
row per current node, each row holding that node's coefficients over the d
original inputs followed by its constant term. The last row of A is the
*constant generator* (0, ..., 0, 1).

- The walk starts from the (d+1) x (d+1) identity.
- Layer 0 is propagated with pattern 0, without branching.
- At every later layer the enumerator branches over every *activation pattern*
  of the previous layer's nodes, an integer tag read least-significant bit first.
  The tags run from 2^w - 1 down to 0.
- In each branch, a bit of 1 drops the node's contribution from every next
  node, and emits the node's row negated as a constraint.
- A bit of 0 keeps the contribution `W[i][j] * A[j]`, and emits the row as-is.
- After the last layer, a *region* (`Solution`) is recorded: the final matrix
  together with the accumulated constraint rows.

Modules:

- `ExactArith` (`exact_arith.dfy`): the coefficient helpers `Add`, `Multiply`
  and the array sum `AddDoubleArray`, as exact `real` arithmetic.
- `Affine` (`affine.dfy`): vectors and matrices of reals, and evaluation of an
  affine row at an input point, with its linearity laws.
- `Patterns` (`patterns.dfy`): the bits of an activation pattern and their
  correspondence with tags below 2^n.
- `Propagation` (`propagation.dfy`): the node cache, `CalculateNode` and
  `CalculateLayer` as array-building methods. They are proved against the
  functional definitions `MaskedNode` and `Layer`. The evaluation law for a
  masked node is also here.
- `Constraints` (`constraints.dfy`): `AttainCondition` and its specification
  `Condition`. This module also proves the per-node correspondence between
  the emitted row and the kept or dropped contribution, under either reading
  of a row.
- `Enumerator` (`enumerator.dfy`):
  - the `NetParser` class, whose `solutions` field is a `seq` the methods append to;
  - its recursive `CalculateNet`;
  - the specification functions `Enumerate`/`Branches`/`Child` (the regions
    recorded from a layer on);
  - the count, shape, order and repeatability theorems.

Three points where the code behaves in a way a reader might not expect; the
model follows the code in each:

- The recorded objective matrix keeps the constant-generator row
  (`cache.length + 1` rows at src/main/java/Logics/NetParser.java:82). So it
  has one row more than the output dimension.
- The node cache also holds the scaled constant-generator row. `CalculateNode`
  takes the bias contribution from that entry.
- Bit 1 both drops a node's contribution and emits the node's row negated.
  The comments at src/main/java/Logics/NetParser.java:112 and :115 say that bit
  1 means "the node's expression is > 0" and bit 0 "< 0". Together with the
  negation at :128-133, that is the reading "every emitted row is <= 0". Under
  that reading the region "input >= 0" is paired with the all-zero output map.
  `IdentityThroughRelu` computes the two regions of the one-input identity
  network, and `TermIsNotReluWhenAtMostZero` exhibits a point where the "<= 0"
  reading disagrees with ReLU. Read as "row >= 0", every selected term is
  exactly the weighted ReLU of the node (`TermIsReluWhenAtLeastZero`,
  `NodeAppliesRelu`). The region type that would fix the convention is not part
  of this model, so the reading stays a parameter (`Constraints.Reading`).

## Model

| member | source | states |
|---|---|---|
| ExactArith.Add | src/main/java/Logics/NetParser.java:170-174 | the sum of two coefficients loses nothing: subtracting either operand gives back the other (the decimal round trip is exact here) |
| ExactArith.Multiply | src/main/java/Logics/NetParser.java:164-168 | the product of two coefficients loses nothing: dividing by a non-zero operand gives back the other, and a zero operand gives 0 |
| ExactArith.AddDoubleArray | src/main/java/Logics/NetParser.java:176-181 | the result has the length of `a` and entry i is `a[i] + b[i]`, for any `b` at least as long |
| Patterns.BitsOfFromBits | src/main/java/Logics/NetParser.java:64-65 | every on/off pattern of width n is the bit reading of a tag below 2^n, so counting down from 2^n - 1 to 0 visits every pattern |
| Patterns.FromBitsOfBits | src/main/java/Logics/NetParser.java:108-110 | reading n bits of a tag below 2^n, least significant first, loses nothing: distinct tags give distinct patterns |
| Patterns.ZeroTagAllClear | src/main/java/Logics/NetParser.java:60 | pattern 0, used for layer 0, has every bit clear |
| Propagation.AttainNodeCache | src/main/java/Logics/NetParser.java:142-154 | for every next node i and every row j of A, the constant generator included, entry 0 is a zero row of d+1 entries and entry 1 is `W[i][j] * A[j]` entry by entry |
| Propagation.CacheEntryIsPair | src/main/java/Logics/NetParser.java:143-148 | the entry-by-entry cache description holds exactly when the entry is the pair [zero vector, `W[i][j] * A[j]`] |
| Propagation.CalculateNode | src/main/java/Logics/NetParser.java:100-121 | node i starts from the bias contribution and adds, for each current node j in order, the zero entry when bit j of the tag is 1 and `W[i][j] * A[j]` when it is 0; the result is `MaskedNode` |
| Propagation.PartialNodeColumns | src/main/java/Logics/NetParser.java:104-118 | column c of the node built so far is the bias weight times the constant row's entry plus `W[i][j] * A[j][c]` over the nodes j with a clear bit |
| Propagation.Layer | src/main/java/Logics/NetParser.java:81-91 | the next layer matrix has one row per node of the next layer plus one, every row with d+1 entries |
| Propagation.LayerLastRow | src/main/java/Logics/NetParser.java:88 | the last row of every next layer matrix is the constant generator (0, ..., 0, 1) |
| Propagation.CalculateLayer | src/main/java/Logics/NetParser.java:81-91 | the matrix built is, row by row, the masked node of every next node followed by the constant generator |
| Propagation.EvalTerm | src/main/java/Logics/NetParser.java:111-117 | at any point, a dropped contribution is worth 0 and a kept one is worth `W[i][j]` times node j's value |
| Propagation.EvalPartialNode | src/main/java/Logics/NetParser.java:104-118 | at any point, the node built from the first m contributions is worth the bias term plus the weighted values of those of the m nodes whose bit is clear |
| Propagation.EvalMaskedNode | src/main/java/Logics/NetParser.java:100-121 | at any point, a next node's expression is worth the bias term plus the bit-masked weighted sum of the current node values |
| Propagation.ZeroPatternIsFullProduct | src/main/java/Logics/NetParser.java:57-60 | under pattern 0 a next node is the full product of its weight row with A, the bias row included |
| Constraints.Condition | src/main/java/Logics/NetParser.java:123-140 | one constraint row per current node, the constant generator excluded, each as long as the node's row |
| Constraints.AttainCondition | src/main/java/Logics/NetParser.java:123-140 | the rows emitted are, in node order, `-A[j]` when bit j is 1 and `A[j]` when it is 0 |
| Constraints.ConditionMatchesTerm | src/main/java/Logics/NetParser.java:108-136 | for every node, the bit that emits the row negated is the bit that drops the contribution, and the bit that emits it as-is keeps `W[i][j] * A[j]` |
| Constraints.TermIsReluWhenAtLeastZero | src/main/java/Logics/NetParser.java:108-136 | when a node's row is read as ">= 0" and holds at a point, the selected contribution there equals `W[i][j]` times the ReLU of the node's value |
| Constraints.TermIsNotReluWhenAtMostZero | src/main/java/Logics/NetParser.java:111-116 | read as "<= 0", the same encoding fails: a one-node network and a point where the row holds but the kept term is not the ReLU term |
| Constraints.MaskedSumIsReluSum | src/main/java/Logics/NetParser.java:108-136 | where all of a pattern's rows hold as ">= 0", the bit-masked weighted sum equals the weighted sum of ReLUs |
| Constraints.NodeAppliesRelu | src/main/java/Logics/NetParser.java:100-140 | where all of a pattern's rows hold as ">= 0", a next node's expression evaluates to its bias plus the weighted ReLU of the current node values |
| Constraints.LayerStepAppliesRelu | src/main/java/Logics/NetParser.java:81-91 | the same for every row of the next layer matrix except the constant generator |
| Enumerator.EnumerateCount | src/main/java/Logics/NetParser.java:45-72 | the regions recorded from layer k on number the product of 2^w over the branching layers from k on |
| Enumerator.RegionsCount | src/main/java/Logics/NetParser.java:57-72 | a network yields the product over layers 1..N-1 of 2^(rows of the previous matrix) regions, and exactly one when N <= 1 |
| Enumerator.EnumerateShape | src/main/java/Logics/NetParser.java:45-72 | every region recorded from layer k on extends the given constraint list by one row per hidden node from k on, its rows have d+1 entries, and its objective matrix ends in the constant generator |
| Enumerator.RegionsShape | src/main/java/Logics/NetParser.java:67-68 | every region's constraint list holds one row per hidden node, with d+1 entries each; its objective matrix has a row per output node plus the constant generator |
| Enumerator.HiddenLayerOrder | src/main/java/Logics/NetParser.java:64-71 | at a hidden layer, the regions of pattern p form block number 2^w - 1 - p of equal-sized blocks, so patterns run from 2^w - 1 down to 0, and each block is that branch's regions |
| Enumerator.EmptyNetworkRegion | src/main/java/Logics/NetParser.java:156-162 | an empty weight list yields exactly one region: the 1x1 matrix [1] with no constraints |
| Enumerator.IdentityThroughRelu | src/main/java/Logics/NetParser.java:22-33 | the one-input pass-through network yields two regions, pattern 1 first: row "-input" with output 0, then row "input" with output "input" |
| Enumerator.InputNumberStartsChain | src/main/java/Logics/NetParser.java:156-162 | the input count is never negative for well-formed weights, is 0 for an empty list, and makes the (d+1) x (d+1) starting identity have one row per column of the first weight matrix, so layer 0 can consume it |
| Enumerator.InitialLayer | src/main/java/Logics/NetParser.java:24-28 | the starting matrix is the (d+1) x (d+1) identity |
| Enumerator.NetParser.constructor | src/main/java/Logics/NetParser.java:15 | a new parser holds no regions |
| Enumerator.NetParser.Parse | src/main/java/Logics/NetParser.java:22-33 | `solutions` and the result are exactly the regions of the weights, earlier results discarded |
| Enumerator.NetParser.CalculateNet | src/main/java/Logics/NetParser.java:43-73 | the regions of the subtree below the current layer are appended to `solutions` in enumeration order |
| Enumerator.NetParser.CalculateBranch | src/main/java/Logics/NetParser.java:65-71 | one pass of the pattern loop appends exactly the regions of the branch for that pattern |
| Enumerator.ParseTwice | src/main/java/Logics/NetParser.java:23 | two parses of the same weights with one parser return identical region sequences |

## Left out

- Floating point: `add` and `multiply` round through `BigDecimal` and back to
  `double` (src/main/java/Logics/NetParser.java:164-174). Here they are exact
  `real` operations, so no rounding is modelled.
- `FileProcesser.recordSolution` (src/main/java/Logics/NetParser.java:48) is
  logging I/O. It is left out, and the region list is the only observable output.
- `(int) Math.pow(2, w)` is modelled as the integer 2^w. Well-formed weights
  keep every branched width below 31, which is where the `int` cast is exact.
  The saturation of the cast for larger widths is not modelled.
- Enumerator.NetParser.Parse: requires well-formed weights (`WellFormed` and
  `Chain`): non-empty matrices whose rows have exactly one entry per row of the
  layer matrix they consume. The Java code throws only on rows that are too
  short and on empty matrices. It accepts longer rows: `attainNodeCache` reads
  only the first `input_layer.length` entries of each weight row
  (src/main/java/Logics/NetParser.java:146-148), so the extra entries are ignored
  and entry `input_layer.length - 1` serves as the bias. Likewise
  `calculateInputNumber` reads only the first row of `weights[0]` (:159). The
  model excludes these wider rows, and it does not model the exceptions.
- A `null` weight list is not representable. `calculateInputNumber` maps it
  to 0, but `parse` then fails with a null dereference on `weights.size()`
  (:30), before `calculateNet` is entered.
- Non-finite coefficients are not modelled. `add` and `multiply` build
  `new BigDecimal(Double.toString(x))` (:165-166, :171-172), which throws on
  NaN or an infinity; and `doubleValue()` (:167, :173) turns a sum or product
  outside the `double` range into an infinity, so the next `add` (for instance
  at :148 or :179) throws. The exact-real model never fails.
- The region type `Tool.Solution` is not part of this model. A region is the
  plain pair of objective matrix and constraint rows, so the direction in
  which a row is read stays a parameter.
- The Java `solutions` list is returned by reference, and a later `parse`
  clears it in place. The model returns a value, so this aliasing is not captured.
- Feasibility of a region's inequality system, simplification, and choosing
  the region that contains a query point belong to other classes and are not
  modelled.
- A theorem that a whole region's map equals forward evaluation of the network
  is not stated, because it depends on the row reading that `Solution` fixes.
  It is covered one layer at a time by `Constraints.LayerStepAppliesRelu`.
- `Main` and `GraphicsApp` (file handling, timing, a UI and an external kernel
  link) are not part of this model.
- The body of the pattern loop (src/main/java/Logics/NetParser.java:66-70) is
  a separate method, `CalculateBranch`, so the loop and the recursion each
  have their own contract. No behaviour changes.
