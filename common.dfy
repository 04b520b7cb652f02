/** Values shared by the whole model: error results, masked spectra, sums and the square root. */
module Common {

  datatype Option<T> = None | Some(value: T)

  /** The Python exceptions raised by the numpy and scipy calls of the pipeline. */
  datatype Error = ValueError | IndexError | RuntimeError

  datatype Result<T> = Ok(value: T) | Err(error: Error)

  /**
   * A numpy masked array over one spectrum: `mask[i]` is true when channel `i` is
   * excluded from every reduction.
   */
  datatype MaskedSpectrum = MaskedSpectrum(data: seq<real>, mask: seq<bool>) {
    predicate Valid() { |data| == |mask| }
  }

  /** A plain (unmasked) array seen as a masked array: no channel is excluded. */
  function Plain(data: seq<real>): (s: MaskedSpectrum)
    ensures s.Valid() && s.data == data
    ensures forall i :: 0 <= i < |s.mask| ==> !s.mask[i]
  {
    MaskedSpectrum(data, seq(|data|, _ => false))
  }

  /** Sum of a sequence, accumulated from the first element to the last. */
  function Sum(s: seq<real>): (total: real)
  {
    if s == [] then 0.0 else Sum(s[..|s| - 1]) + s[|s| - 1]
  }

  /** Adding `v` to one entry adds `v` to the sum. */
  lemma {:induction false} SumUpdate(s: seq<real>, k: int, v: real)
    requires 0 <= k < |s|
    ensures Sum(s[k := s[k] + v]) == Sum(s) + v
  {
    var t := s[k := s[k] + v];
    var n := |s| - 1;
    if k == n {
      assert t[..n] == s[..n];
    } else {
      assert t[..n] == s[..n][k := s[k] + v];
      SumUpdate(s[..n], k, v);
    }
  }

  /** A sequence of zeros sums to zero. */
  lemma {:induction false} SumZeros(s: seq<real>)
    requires forall i :: 0 <= i < |s| ==> s[i] == 0.0
    ensures Sum(s) == 0.0
  {
    if s != [] {
      SumZeros(s[..|s| - 1]);
    }
  }

  /** Multiplication by a non-negative factor is monotone. */
  lemma MulMonotone(a: int, b: int, c: int)
    requires a <= b && 0 <= c
    ensures a * c <= b * c
  {
  }

  /**
   * What the model assumes of numpy's `sqrt` on the non-negative reals: it returns
   * the non-negative square root, and zero for zero.
   */
  ghost predicate IsSqrt(sqrt: real -> real)
  {
    && sqrt(0.0) == 0.0
    && forall x :: 0.0 <= x ==> 0.0 <= sqrt(x) && sqrt(x) * sqrt(x) == x
  }

  /** The square root of a positive number is positive. */
  lemma SqrtPositive(sqrt: real -> real, x: real)
    requires IsSqrt(sqrt) && 0.0 < x
    ensures 0.0 < sqrt(x)
  {
    var r := sqrt(x);
    assert r * r == x;
  }
}
