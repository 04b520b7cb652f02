/**
 * The zeroth moment of a masked spectrum: the sum of the unmasked channels, their number,
 * and the error `sqrt(count) * noise_estimate`.
 */
module Moments {
  import opened Common

  /** `ma.count`: the number of channels that are not masked. */
  function UnmaskedCount(mask: seq<bool>): (n: nat)
    ensures n <= |mask|
  {
    if mask == [] then 0
    else UnmaskedCount(mask[..|mask| - 1]) + (if mask[|mask| - 1] then 0 else 1)
  }

  /** `filled(0)`: the data with every masked channel replaced by zero. */
  function Filled(s: MaskedSpectrum): (f: seq<real>)
    requires s.Valid()
    ensures |f| == |s.data|
  {
    seq(|s.data|, i requires 0 <= i < |s.data| => if s.mask[i] then 0.0 else s.data[i])
  }

  /**
   * The result of `get_integrated_intensity`: `mom0` is `None` for numpy's masked constant.
   * A mask with no masked channel stands for numpy's `nomask`, which plain arrays carry and
   * to which `masked_where` shrinks a condition with no true entry.
   */
  datatype Moment0 = Moment0(mom0: Option<real>, mom0Err: real)

  /**
   * `get_integrated_intensity(input_spectrum, noise_estimate)`: `ma.sum` of the spectrum,
   * which is the masked constant when there are channels and every one is masked (an
   * empty spectrum carries `nomask` and sums to zero), and the error
   * `sqrt(ma.count(input_spectrum)) * noise_estimate`.
   */
  function GetIntegratedIntensity(s: MaskedSpectrum, noiseEstimate: real, sqrt: real -> real): (r: Moment0)
    requires s.Valid()
    ensures r.mom0.None? <==> 0 < |s.mask| && forall i :: 0 <= i < |s.mask| ==> s.mask[i]
    ensures s.data == [] ==> r.mom0 == Some(0.0)
    ensures r.mom0.Some? ==> r.mom0.value == Sum(Filled(s))
    ensures r.mom0Err == sqrt(UnmaskedCount(s.mask) as real) * noiseEstimate
    ensures noiseEstimate == 0.0 ==> r.mom0Err == 0.0
    ensures IsSqrt(sqrt) && 0.0 <= noiseEstimate ==> 0.0 <= r.mom0Err
    ensures IsSqrt(sqrt) ==> r.mom0Err * r.mom0Err == UnmaskedCount(s.mask) as real * noiseEstimate * noiseEstimate
  {
    var numChannels := UnmaskedCount(s.mask);
    CountZeroIffAllMasked(s.mask);
    var mom0 := if numChannels == 0 && 0 < |s.data| then None else Some(Sum(Filled(s)));
    var mom0Err := sqrt(numChannels as real) * noiseEstimate;
    ErrorSquared(sqrt, numChannels, noiseEstimate);
    Moment0(mom0, mom0Err)
  }

  /** `(sqrt(n) * e)^2 == n * e^2`, and the error is non-negative for a non-negative `e`. */
  lemma ErrorSquared(sqrt: real -> real, n: nat, e: real)
    ensures IsSqrt(sqrt) ==> (sqrt(n as real) * e) * (sqrt(n as real) * e) == n as real * e * e
    ensures IsSqrt(sqrt) && 0.0 <= e ==> 0.0 <= sqrt(n as real) * e
  {
    if IsSqrt(sqrt) {
      var r := sqrt(n as real);
      assert 0.0 <= r && r * r == n as real;
      calc {
        (r * e) * (r * e);
        (r * r) * (e * e);
        n as real * e * e;
      }
    }
  }

  /** The count is zero exactly when every channel is masked. */
  lemma {:induction false} CountZeroIffAllMasked(mask: seq<bool>)
    ensures UnmaskedCount(mask) == 0 <==> forall i :: 0 <= i < |mask| ==> mask[i]
  {
    if mask != [] {
      var n := |mask| - 1;
      CountZeroIffAllMasked(mask[..n]);
      assert forall i :: 0 <= i < n ==> mask[..n][i] == mask[i];
    }
  }

  /** The count is the number of unmasked channel indices. */
  lemma {:induction false} CountIsCardinality(mask: seq<bool>)
    ensures UnmaskedCount(mask) == |set i | 0 <= i < |mask| && !mask[i]|
  {
    if mask != [] {
      var n := |mask| - 1;
      CountIsCardinality(mask[..n]);
      var before := set i | 0 <= i < n && !mask[..n][i];
      var after := set i | 0 <= i < |mask| && !mask[i];
      if mask[n] {
        assert after == before;
      } else {
        assert after == before + {n};
        assert n !in before;
      }
    }
  }

  /** With no channel masked every channel counts and `mom0` is the sum of the data. */
  lemma {:induction false} NothingMasked(s: MaskedSpectrum)
    requires s.Valid()
    requires forall i :: 0 <= i < |s.mask| ==> !s.mask[i]
    ensures UnmaskedCount(s.mask) == |s.data|
    ensures Filled(s) == s.data
    ensures forall noise, sqrt :: GetIntegratedIntensity(s, noise, sqrt).mom0 == Some(Sum(s.data))
    decreases |s.mask|
  {
    if s.mask != [] {
      var n := |s.mask| - 1;
      NothingMasked(MaskedSpectrum(s.data[..n], s.mask[..n]));
    }
  }

  /**
   * With every channel masked the count is zero, `ma.sum` is the masked constant (zero
   * for an empty spectrum) and the error is zero whatever the noise estimate.
   */
  lemma AllMasked(s: MaskedSpectrum, noiseEstimate: real, sqrt: real -> real)
    requires s.Valid() && IsSqrt(sqrt)
    requires forall i :: 0 <= i < |s.mask| ==> s.mask[i]
    ensures UnmaskedCount(s.mask) == 0
    ensures GetIntegratedIntensity(s, noiseEstimate, sqrt) == Moment0(if s.data == [] then Some(0.0) else None, 0.0)
  {
    CountZeroIffAllMasked(s.mask);
  }

  /**
   * Masking one more channel lowers the count by one and removes exactly that
   * channel's value from the sum.
   */
  lemma {:induction false} MaskOneMore(s: MaskedSpectrum, k: int)
    requires s.Valid() && 0 <= k < |s.mask| && !s.mask[k]
    ensures var t := MaskedSpectrum(s.data, s.mask[k := true]);
            && UnmaskedCount(t.mask) == UnmaskedCount(s.mask) - 1
            && Sum(Filled(t)) == Sum(Filled(s)) - s.data[k]
  {
    var t := MaskedSpectrum(s.data, s.mask[k := true]);
    CountAfterMasking(s.mask, k);
    assert Filled(t) == Filled(s)[k := Filled(s)[k] + -s.data[k]];
    SumUpdate(Filled(s), k, -s.data[k]);
  }

  lemma {:induction false} CountAfterMasking(mask: seq<bool>, k: int)
    requires 0 <= k < |mask| && !mask[k]
    ensures UnmaskedCount(mask[k := true]) == UnmaskedCount(mask) - 1
  {
    var n := |mask| - 1;
    var m := mask[k := true];
    if k == n {
      assert m[..n] == mask[..n];
    } else {
      assert m[..n] == mask[..n][k := true];
      CountAfterMasking(mask[..n], k);
    }
  }
}
