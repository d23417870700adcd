/** Scalar and element-wise arithmetic on coefficients.
    The source combines coefficients through a decimal round trip so that summed
    terms do not drift; here every coefficient is an exact `real`, so the round
    trip is the identity and `Add` and `Multiply` are exact. */
module ExactArith {

  /** Sum of two coefficients (exact): subtracting either operand gives back
      the other, so the round trip loses nothing. */
  function Add(a: real, b: real): (r: real)
    ensures r - b == a && r - a == b
  {
    a + b
  }

  /** Product of two coefficients (exact): dividing by a non-zero operand gives
      back the other, and a zero operand gives zero. */
  function Multiply(a: real, b: real): (r: real)
    ensures b != 0.0 ==> r / b == a
    ensures a != 0.0 ==> r / a == b
    ensures (a == 0.0 || b == 0.0) ==> r == 0.0
  {
    a * b
  }

  /** Element-wise sum of two coefficient rows into a fresh row as long as `a`;
      `b` must be at least as long, as the source reads `b[i]` for every index of `a`. */
  method AddDoubleArray(a: seq<real>, b: seq<real>) returns (r: seq<real>)
    requires |a| <= |b|
    ensures |r| == |a|
    ensures forall i :: 0 <= i < |a| ==> r[i] == a[i] + b[i]
  {
    var result := new real[|a|](_ => 0.0);
    for i := 0 to |a|
      invariant forall k :: 0 <= k < i ==> result[k] == a[k] + b[k]
    {
      result[i] := Add(a[i], b[i]);
    }
    r := result[..];
  }
}
