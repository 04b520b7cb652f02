/**
 * The deterministic assembly of a synthetic test spectrum: Gaussian noise scaled by the
 * noise level, a polynomial baseline, an ammonia line profile and spikes, summed under
 * one flag per component.  Every draw from the random generator, and the line profile
 * (an astropy model), is an input.
 */
module Synthetic {
  import opened Common
  import Moments

  /** The parameter dictionary `p` of a synthetic spectrum. */
  datatype Parameters = Parameters(
    specLength: nat,
    noiseLevel: real,
    baselinePolyOrder: nat,
    baselinePolyParams: seq<real>,
    doRandomBaseline: bool,
    nh3Amplitude: real,
    nh3Width: real,
    nh3Position: real,
    nh3Offset: real,
    numSpikes: nat,
    spikesAmp: real)

  /** The parameters used when none are given. */
  const DefaultParameters: Parameters := Parameters(
    16384, 0.02, 2, [-0.1, 0.000001, -0.0000000005, 0.0000000000001], false,
    4.0, 40.0, 2000.0, 300.0, 10, 4.0)

  /**
   * The values the constructor draws from numpy's random generator: `randn(spec_length)`,
   * `rand(n + 1)` for a random baseline, and the spike channels and amplitudes.
   */
  datatype RandomDraws = RandomDraws(
    gaussian: seq<real>,
    baselineCoefficients: seq<real>,
    spikeChannels: seq<int>,
    spikeAmplitudes: seq<real>)

  /** The shapes and ranges the random generator guarantees for the parameters `p`. */
  predicate DrawsFit(p: Parameters, d: RandomDraws)
  {
    && |d.gaussian| == p.specLength
    && (p.doRandomBaseline ==> |d.baselineCoefficients| == p.baselinePolyOrder + 1)
    && |d.spikeChannels| == p.numSpikes == |d.spikeAmplitudes|
    && forall j :: 0 <= j < |d.spikeChannels| ==> 0 <= d.spikeChannels[j] < p.specLength
  }

  /** `base ** e` on the naturals. */
  function Pow(base: nat, e: nat): (r: nat)
    ensures 1 <= base ==> 1 <= r
  {
    if e == 0 then 1 else base * Pow(base, e - 1)
  }

  /** Powers of naturals grow with the base. */
  lemma {:induction false} PowMonotone(a: nat, c: nat, e: nat)
    requires a <= c
    ensures Pow(a, e) <= Pow(c, e)
  {
    if e > 0 {
      PowMonotone(a, c, e - 1);
      var pa, pc := Pow(a, e - 1), Pow(c, e - 1);
      MulMonotone(a, c, pa);
      MulMonotone(pa, pc, c);
      assert a * pa <= c * pa == pa * c <= pc * c;
    }
  }

  lemma RealMulMonotone(k: real, x: real, y: real)
    requires 0.0 <= k && x <= y
    ensures k * x <= k * y
  {
  }

  /** `x ** k` on the reals. */
  function RealPow(x: real, k: nat): (power: real)
  {
    if k == 0 then 1.0 else x * RealPow(x, k - 1)
  }

  /** A numpy `Polynomial(b)` evaluated at `x`, by Horner's scheme as numpy does. */
  function Horner(b: seq<real>, x: real): (value: real)
  {
    if b == [] then 0.0 else b[0] + x * Horner(b[1..], x)
  }

  /** `b[0] + b[1] * x + ... + b[n-1] * x^(n-1)`: the polynomial with coefficients `b`. */
  function PowerSum(b: seq<real>, x: real): (value: real)
  {
    if b == [] then 0.0 else PowerSum(b[..|b| - 1], x) + b[|b| - 1] * RealPow(x, |b| - 1)
  }

  lemma {:induction false} PowerSumFront(b: seq<real>, x: real)
    requires b != []
    ensures PowerSum(b, x) == b[0] + x * PowerSum(b[1..], x)
  {
    var n := |b| - 1;
    if n == 0 {
      assert b[1..] == [];
    } else {
      PowerSumFront(b[..n], x);
      SlicesCommute(b);
      var whole, init, tail := PowerSum(b, x), PowerSum(b[..n], x), PowerSum(b[1..], x);
      var rest, r1, bn := PowerSum(b[1..][..n - 1], x), RealPow(x, n - 1), b[n];
      assert init == b[0] + x * rest;
      assert whole == init + bn * RealPow(x, n);
      assert RealPow(x, n) == x * r1;
      assert tail == rest + bn * r1;
      Distribute(b[0], x, rest, bn, r1, init, tail, whole);
    }
  }

  lemma SlicesCommute(b: seq<real>)
    requires 1 < |b|
    ensures b[..|b| - 1][1..] == b[1..][..|b| - 2]
    ensures b[1..][|b| - 2] == b[|b| - 1]
  {
  }

  lemma Distribute(b0: real, x: real, rest: real, bn: real, r1: real, init: real, tail: real, whole: real)
    requires init == b0 + x * rest
    requires whole == init + bn * (x * r1)
    requires tail == rest + bn * r1
    ensures whole == b0 + x * tail
  {
  }

  /** Horner's scheme computes the polynomial `b[0] + b[1] * x + ...`. */
  lemma {:induction false} HornerIsPowerSum(b: seq<real>, x: real)
    ensures Horner(b, x) == PowerSum(b, x)
  {
    if b != [] {
      HornerIsPowerSum(b[1..], x);
      PowerSumFront(b, x);
    }
  }

  /** `poly(np.arange(spec_length))`: the polynomial evaluated at every channel. */
  function PolynomialOnGrid(b: seq<real>, specLength: nat): (r: seq<real>)
    ensures |r| == specLength
    ensures forall x :: 0 <= x < specLength ==> r[x] == PowerSum(b, x as real)
  {
    var r := seq(specLength, x requires 0 <= x < specLength => Horner(b, x as real));
    HornerOnGrid(b, r);
    r
  }

  lemma HornerOnGrid(b: seq<real>, r: seq<real>)
    requires forall x :: 0 <= x < |r| ==> r[x] == Horner(b, x as real)
    ensures forall x :: 0 <= x < |r| ==> r[x] == PowerSum(b, x as real)
  {
    forall x | 0 <= x < |r|
      ensures r[x] == PowerSum(b, x as real)
    {
      HornerIsPowerSum(b, x as real);
    }
  }

  /**
   * The rescaling the comment in `make_baseline` asks for: coefficient `i` divided by
   * `spec_length ** i`, so that every term stays of the order of its random draw on
   * the channel grid.
   */
  function Rescaled(b: seq<real>, specLength: nat): (r: seq<real>)
    requires 1 <= specLength
    ensures |r| == |b|
    ensures forall i :: 0 <= i < |b| ==> r[i] * Pow(specLength, i) as real == b[i]
  {
    seq(|b|, i requires 0 <= i < |b| => b[i] / Pow(specLength, i) as real)
  }

  /**
   * With rescaled coefficients drawn from `[0, 1)`, every term `b'[i] * x^i` of the
   * baseline on the channel grid `0 <= x < spec_length` lies in `[0, 1)`: no order
   * dominates the others.
   */
  lemma RescaledTermsBelowOne(b: seq<real>, specLength: nat, i: nat, x: nat)
    requires 1 <= specLength && i < |b| && x < specLength
    requires forall k :: 0 <= k < |b| ==> 0.0 <= b[k] < 1.0
    ensures 0.0 <= Rescaled(b, specLength)[i] * Pow(x, i) as real < 1.0
  {
    var pBig, pSmall := Pow(specLength, i), Pow(x, i);
    PowMonotone(x, specLength, i);
    assert 1 <= pBig && pSmall <= pBig;
    var big, small := pBig as real, pSmall as real;
    var c := Rescaled(b, specLength)[i];
    assert c == b[i] / big;
    ScaledBelowOne(b[i], big, small, c);
    var term := c * small;
    assert term == Rescaled(b, specLength)[i] * Pow(x, i) as real;
    assert 0.0 <= term < 1.0;
  }

  lemma ScaledBelowOne(v: real, big: real, small: real, r: real)
    requires 0.0 <= v < 1.0 && 1.0 <= big && 0.0 <= small <= big && r == v / big
    ensures 0.0 <= r * small < 1.0
  {
    var lower, upper := r * small, r * big;
    assert upper == v;
    assert 0.0 <= r;
    RealMulMonotone(r, small, big);
    RealMulMonotone(r, 0.0, small);
    assert 0.0 <= lower <= upper;
    assert lower < 1.0;
  }

  /**
   * The coefficient loop of `make_baseline` as written: each `bb` is divided by
   * `spec_length ** i`, but only the loop variable is rebound, so the coefficients
   * handed to the polynomial are the random draws themselves.
   */
  method RandomCoefficientsAsWritten(b: seq<real>, specLength: nat) returns (coeffs: seq<real>)
    ensures coeffs == b
  {
    for i := 0 to |b| {
      var bb := b[i];
      var scale := Pow(specLength, i);
      // with spec_length == 0 numpy divides by zero without raising; the value is dropped anyway
      if scale != 0 {
        bb := bb / scale as real;
      }
    }
    coeffs := b;
  }

  /**
   * For three draws of one half on the default spectrum length, the loop as written keeps
   * the quadratic coefficient at one half, so that term exceeds `10^8` at the last
   * channel, while the rescaled coefficient differs from the draw.
   */
  lemma AsWrittenQuadraticTermDominates()
    ensures var b := [0.5, 0.5, 0.5];
            && Rescaled(b, 16384) != b
            && b[2] * Pow(16383, 2) as real > 100000000.0
  {
    var b := [0.5, 0.5, 0.5];
    assert Pow(16384, 2) == 16384 * 16384 * Pow(16384, 0);
    assert Rescaled(b, 16384)[2] * (16384 * 16384) as real == 0.5;
    assert Pow(16383, 2) == 16383 * 16383 * Pow(16383, 0);
  }

  /** The corrected rescaling, in place on the coefficient array. */
  method RescaleCoefficients(b: array<real>, specLength: nat)
    requires 1 <= specLength
    modifies b
    ensures b[..] == Rescaled(old(b[..]), specLength)
  {
    for i := 0 to b.Length
      invariant forall k :: 0 <= k < i ==> b[k] == old(b[k]) / Pow(specLength, k) as real
      invariant forall k :: i <= k < b.Length ==> b[k] == old(b[k])
    {
      b[i] := b[i] / Pow(specLength, i) as real;
    }
  }

  /** Channel `i` of one component when its flag is set, zero otherwise. */
  function Selected(flag: bool, component: seq<real>, i: int): (value: real)
    requires 0 <= i < |component|
  {
    if flag then component[i] else 0.0
  }

  /** The total of the components whose flag is set, channel by channel, summed in order. */
  function Assembled(n: nat, doNoise: bool, noise: seq<real>, doBase: bool, base: seq<real>,
                     doNh3: bool, nh3: seq<real>, doSpikes: bool, spikes: seq<real>): (r: seq<real>)
    requires |noise| == |base| == |nh3| == |spikes| == n
    ensures |r| == n
    ensures !doNoise && !doBase && !doNh3 && !doSpikes ==> forall i :: 0 <= i < n ==> r[i] == 0.0
  {
    seq(n, i requires 0 <= i < n =>
      0.0 + Selected(doNoise, noise, i) + Selected(doBase, base, i) + Selected(doNh3, nh3, i) + Selected(doSpikes, spikes, i))
  }

  /** The sum of one component if its flag is set. */
  function Flux(flag: bool, component: seq<real>): (flux: real)
  {
    if flag then Sum(component) else 0.0
  }

  /** The total flux of the assembled spectrum is the flux of the selected components. */
  lemma {:induction false} AssembledFlux(n: nat, doNoise: bool, noise: seq<real>, doBase: bool, base: seq<real>,
                                         doNh3: bool, nh3: seq<real>, doSpikes: bool, spikes: seq<real>)
    requires |noise| == |base| == |nh3| == |spikes| == n
    ensures Sum(Assembled(n, doNoise, noise, doBase, base, doNh3, nh3, doSpikes, spikes))
            == Flux(doNoise, noise) + Flux(doBase, base) + Flux(doNh3, nh3) + Flux(doSpikes, spikes)
  {
    if n > 0 {
      var m := n - 1;
      AssembledFlux(m, doNoise, noise[..m], doBase, base[..m], doNh3, nh3[..m], doSpikes, spikes[..m]);
      assert Assembled(n, doNoise, noise, doBase, base, doNh3, nh3, doSpikes, spikes)[..m]
          == Assembled(m, doNoise, noise[..m], doBase, base[..m], doNh3, nh3[..m], doSpikes, spikes[..m]);
    }
  }

  /** The spike amplitude landing on channel `i`: the sum of `z[j]` over every `j` with `c[j] == i`. */
  function SpikeAt(c: seq<int>, z: seq<real>, i: int): (amplitude: real)
    requires |c| == |z|
  {
    Sum(seq(|c|, j requires 0 <= j < |c| => if c[j] == i then z[j] else 0.0))
  }

  /** The spike spectrum: channel `i` holds every amplitude drawn for it. */
  function SpikeSpectrum(specLength: nat, c: seq<int>, z: seq<real>): (r: seq<real>)
    requires |c| == |z|
    ensures |r| == specLength
  {
    seq(specLength, i requires 0 <= i < specLength => SpikeAt(c, z, i))
  }

  /** One more spike adds its amplitude to its own channel and leaves every other one. */
  lemma SpikeSpectrumStep(specLength: nat, c: seq<int>, z: seq<real>)
    requires |c| == |z| && 0 < |c| && 0 <= c[|c| - 1] < specLength
    ensures var n := |c| - 1;
            var before := SpikeSpectrum(specLength, c[..n], z[..n]);
            SpikeSpectrum(specLength, c, z) == before[c[n] := before[c[n]] + z[n]]
  {
    var n := |c| - 1;
    var before := SpikeSpectrum(specLength, c[..n], z[..n]);
    forall i | 0 <= i < specLength
      ensures SpikeAt(c, z, i) == SpikeAt(c[..n], z[..n], i) + (if c[n] == i then z[n] else 0.0)
    {
      var terms := seq(|c|, j requires 0 <= j < |c| => if c[j] == i then z[j] else 0.0);
      assert terms[..n] == seq(n, j requires 0 <= j < n => if c[..n][j] == i then z[..n][j] else 0.0);
    }
  }

  /** A channel that no spike was drawn for stays zero. */
  lemma SpikesOnlyWhereDrawn(c: seq<int>, z: seq<real>, i: int)
    requires |c| == |z|
    requires forall j :: 0 <= j < |c| ==> c[j] != i
    ensures SpikeAt(c, z, i) == 0.0
  {
    SumZeros(seq(|c|, j requires 0 <= j < |c| => if c[j] == i then z[j] else 0.0));
  }

  /** The spike spectrum carries the total amplitude of the spikes. */
  lemma {:induction false} SpikeSpectrumFlux(specLength: nat, c: seq<int>, z: seq<real>)
    requires |c| == |z|
    requires forall j :: 0 <= j < |c| ==> 0 <= c[j] < specLength
    ensures Sum(SpikeSpectrum(specLength, c, z)) == Sum(z)
  {
    if c == [] {
      SumZeros(SpikeSpectrum(specLength, c, z));
    } else {
      var n := |c| - 1;
      SpikeSpectrumFlux(specLength, c[..n], z[..n]);
      SpikeSpectrumStep(specLength, c, z);
      var before := SpikeSpectrum(specLength, c[..n], z[..n]);
      SumUpdate(before, c[n], z[n]);
    }
  }

  /** `make_spikes` with its random channels `c` and amplitudes `z` given. */
  method MakeSpikes(specLength: nat, c: seq<int>, z: seq<real>) returns (emp: array<real>)
    requires |c| == |z|
    requires forall j :: 0 <= j < |c| ==> 0 <= c[j] < specLength
    ensures fresh(emp) && emp.Length == specLength
    ensures emp[..] == SpikeSpectrum(specLength, c, z)
    ensures Sum(emp[..]) == Sum(z)
  {
    emp := new real[specLength](_ => 0.0);
    SumZeros(emp[..]);
    for j := 0 to |c|
      invariant emp[..] == SpikeSpectrum(specLength, c[..j], z[..j])
    {
      assert c[..j + 1][..j] == c[..j] && z[..j + 1][..j] == z[..j];
      SpikeSpectrumStep(specLength, c[..j + 1], z[..j + 1]);
      emp[c[j]] := emp[c[j]] + z[j];
    }
    assert c[..|c|] == c && z[..|z|] == z;
    SpikeSpectrumFlux(specLength, c, z);
  }

  /** `total += component` on numpy arrays of one length. */
  method AddInto(total: array<real>, component: seq<real>)
    requires total.Length == |component|
    modifies total
    ensures forall i :: 0 <= i < total.Length ==> total[i] == old(total[i]) + component[i]
  {
    for i := 0 to total.Length
      invariant forall k :: 0 <= k < i ==> total[k] == old(total[k]) + component[k]
      invariant forall k :: i <= k < total.Length ==> total[k] == old(total[k])
    {
      total[i] := total[i] + component[i];
    }
  }

  /** `total += component` when the component's flag is set. */
  method AddSelected(total: array<real>, flag: bool, component: seq<real>)
    requires total.Length == |component|
    modifies total
    ensures forall i :: 0 <= i < total.Length ==> total[i] == old(total[i]) + Selected(flag, component, i)
  {
    if flag {
      AddInto(total, component);
    }
  }

  /**
   * `make_baseline` as written: the given coefficients, or the random draws passed unscaled
   * through the coefficient loop, and their polynomial on the channel grid.
   */
  method MakeBaseline(p: Parameters, draws: RandomDraws) returns (baseline: seq<real>, poly: seq<real>)
    requires !p.doRandomBaseline ==> p.baselinePolyParams != []
    ensures poly == if p.doRandomBaseline then draws.baselineCoefficients else p.baselinePolyParams
    ensures baseline == PolynomialOnGrid(poly, p.specLength)
  {
    var b := p.baselinePolyParams;
    if p.doRandomBaseline {
      b := RandomCoefficientsAsWritten(draws.baselineCoefficients, p.specLength);
    }
    poly := b;
    baseline := PolynomialOnGrid(poly, p.specLength);
  }

  /**
   * `make_baseline` with the coefficient loop corrected: the random draws are rescaled in
   * place before the polynomial is built.
   */
  method MakeBaselineCorrected(p: Parameters, draws: RandomDraws) returns (baseline: seq<real>, poly: seq<real>)
    requires p.doRandomBaseline ==> 1 <= p.specLength
    requires !p.doRandomBaseline ==> p.baselinePolyParams != []
    ensures poly == if p.doRandomBaseline then Rescaled(draws.baselineCoefficients, p.specLength)
                    else p.baselinePolyParams
    ensures baseline == PolynomialOnGrid(poly, p.specLength)
  {
    var b := p.baselinePolyParams;
    if p.doRandomBaseline {
      var drawn := draws.baselineCoefficients;
      var coefficients := new real[|drawn|](i requires 0 <= i < |drawn| => drawn[i]);
      assert coefficients[..] == drawn;
      RescaleCoefficients(coefficients, p.specLength);
      b := coefficients[..];
    }
    poly := b;
    baseline := PolynomialOnGrid(poly, p.specLength);
  }

  /** A synthetic spectrum, its components and the measurements taken from it. */
  class SyntheticSpectrum {
    var p: Parameters
    var noisySpectrum: seq<real>
    var baselineSpectrum: seq<real>
    var baselinePoly: seq<real>
    var nh3Spectrum: seq<real>
    var spikesSpectrum: seq<real>
    var spikeChannels: seq<int>
    var spikeAmps: seq<real>
    /** Set by `GenerateSpectrum`; `null` until then. */
    var totalSpectrum: array?<real>
    /** Set by `CalculateIntegratedIntensity`; `None` until then. */
    var noiseFree: Option<seq<real>>
    var mom0: Option<Moments.Moment0>

    /** Every component spans the whole spectrum. */
    ghost predicate Valid()
      reads this
    {
      && |noisySpectrum| == p.specLength
      && |baselineSpectrum| == p.specLength
      && |nh3Spectrum| == p.specLength
      && |spikesSpectrum| == p.specLength
      && |spikeChannels| == |spikeAmps|
    }

    /**
     * `SyntheticSpectrum(parameters)`: the defaults when no parameters are given, then
     * the four components (the line profile `nh3` is given).
     */
    constructor (parameters: Option<Parameters>, draws: RandomDraws, nh3: seq<real>)
      requires var q := if parameters.Some? then parameters.value else DefaultParameters;
               && DrawsFit(q, draws)
               && |nh3| == q.specLength
               && (!q.doRandomBaseline ==> q.baselinePolyParams != [])
      ensures Valid()
      ensures p == if parameters.Some? then parameters.value else DefaultParameters
      ensures forall i :: 0 <= i < p.specLength ==> noisySpectrum[i] == p.noiseLevel * draws.gaussian[i]
      ensures baselinePoly == if p.doRandomBaseline then draws.baselineCoefficients else p.baselinePolyParams
      ensures baselineSpectrum == PolynomialOnGrid(baselinePoly, p.specLength)
      ensures nh3Spectrum == nh3
      ensures spikesSpectrum == SpikeSpectrum(p.specLength, draws.spikeChannels, draws.spikeAmplitudes)
      ensures spikeChannels == draws.spikeChannels && spikeAmps == draws.spikeAmplitudes
      ensures totalSpectrum == null && noiseFree == None && mom0 == None
    {
      var q := if parameters.Some? then parameters.value else DefaultParameters;
      p := q;
      noisySpectrum := seq(q.specLength, i requires 0 <= i < q.specLength => q.noiseLevel * draws.gaussian[i]);
      var baseline, poly := MakeBaseline(q, draws);
      baselineSpectrum, baselinePoly := baseline, poly;
      nh3Spectrum := nh3;
      var emp := MakeSpikes(q.specLength, draws.spikeChannels, draws.spikeAmplitudes);
      spikesSpectrum := emp[..];
      spikeChannels := draws.spikeChannels;
      spikeAmps := draws.spikeAmplitudes;
      totalSpectrum := null;
      noiseFree := None;
      mom0 := None;
    }

    /**
     * `generate_spectrum`: a zero array to which each selected component is added in
     * place, stored as the total spectrum and returned.
     */
    method GenerateSpectrum(doNoise: bool := true, doBase: bool := true, doNh3: bool := true, doSpikes: bool := true)
      returns (total: array<real>)
      requires Valid()
      modifies this`totalSpectrum
      ensures Valid()
      ensures fresh(total) && totalSpectrum == total
      ensures total[..] == Assembled(p.specLength, doNoise, noisySpectrum, doBase, baselineSpectrum,
                                     doNh3, nh3Spectrum, doSpikes, spikesSpectrum)
    {
      var n := p.specLength;
      total := new real[n](_ => 0.0);
      ghost var zero := total[..];
      AddSelected(total, doNoise, noisySpectrum);
      ghost var afterNoise := total[..];
      AddSelected(total, doBase, baselineSpectrum);
      ghost var afterBase := total[..];
      AddSelected(total, doNh3, nh3Spectrum);
      ghost var afterNh3 := total[..];
      AddSelected(total, doSpikes, spikesSpectrum);
      ghost var spec := Assembled(n, doNoise, noisySpectrum, doBase, baselineSpectrum,
                                  doNh3, nh3Spectrum, doSpikes, spikesSpectrum);
      forall i | 0 <= i < n
        ensures total[i] == spec[i]
      {
        assert afterNoise[i] == 0.0 + Selected(doNoise, noisySpectrum, i);
      }
      totalSpectrum := total;
    }

    /**
     * `calculate_integrated_intensity`: the zeroth moment of the noise-free line profile,
     * taken with a zero noise estimate, so its error is zero.
     */
    method CalculateIntegratedIntensity(sqrt: real -> real) returns (m: Moments.Moment0)
      requires Valid()
      modifies this`noiseFree, this`mom0
      ensures Valid()
      ensures noiseFree == Some(nh3Spectrum) && mom0 == Some(m)
      ensures m == Moments.GetIntegratedIntensity(Plain(nh3Spectrum), 0.0, sqrt)
      ensures m.mom0Err == 0.0
      ensures m.mom0 == Some(Sum(nh3Spectrum))
    {
      noiseFree := Some(nh3Spectrum);
      Moments.NothingMasked(Plain(nh3Spectrum));
      m := Moments.GetIntegratedIntensity(Plain(nh3Spectrum), 0.0, sqrt);
      mom0 := Some(m);
    }
  }
}
