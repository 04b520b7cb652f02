/**
 * The array shaping and masking rules of the baseline-removal pipeline: the rolling
 * window, the local-standard-deviation array, the signal mask, the median down-sampling
 * and the baseline subtraction.  The statistics (`std`, `median`, `sqrt`) and the median
 * filter are numerical-library services and are parameters of the model.
 */
module CleanSpectrum {
  import opened Common

  /** `rolling_window(a, window)`: the strided view whose row `r` is `a[r .. r + window]`. */
  function RollingWindow(a: seq<real>, window: int): (rows: Result<seq<seq<real>>>)
    ensures rows.Ok? <==> 0 <= window <= |a| + 1
    ensures rows.Ok? ==> |rows.value| == |a| - window + 1
    ensures rows.Ok? ==> forall r :: 0 <= r < |rows.value| ==> rows.value[r] == a[r .. r + window]
    ensures rows.Ok? ==> forall r, j :: 0 <= r < |rows.value| && 0 <= j < window ==> rows.value[r][j] == a[r + j]
  {
    if window < 0 || |a| - window + 1 < 0 then
      Err(ValueError)  // a negative dimension in the strided shape
    else
      Ok(seq(|a| - window + 1, r requires 0 <= r < |a| - window + 1 => a[r .. r + window]))
  }

  /** numpy `pad(s, (before, after), mode='edge')` on a one-dimensional array. */
  function EdgePad(s: seq<real>, before: int, after: int): (r: Result<seq<real>>)
    ensures r.Ok? <==> 0 <= before && 0 <= after && (s != [] || before + after == 0)
    ensures r.Ok? ==> |r.value| == before + |s| + after
    ensures r.Ok? ==> forall i :: before <= i < before + |s| ==> r.value[i] == s[i - before]
    ensures r.Ok? ==> forall i :: 0 <= i < before ==> r.value[i] == s[0]
    ensures r.Ok? ==> forall i :: before + |s| <= i < |r.value| ==> r.value[i] == s[|s| - 1]
  {
    if before < 0 || after < 0 then
      Err(ValueError)  // negative pad widths
    else if s == [] then
      if before + after == 0 then Ok([]) else Err(ValueError)  // an empty axis cannot be extended
    else
      Ok(seq(before, _ => s[0]) + s + seq(after, _ => s[|s| - 1]))
  }

  /**
   * `make_local_stddev(orig_spec, ww=300)`: `std` of every window of `2 * ww` consecutive
   * channels, edge-padded with `ww - 1` channels in front and `ww` behind.  Channel `i`
   * of the interior is the statistic of the window that starts `ww - 1` channels before it.
   */
  function MakeLocalStddev(origSpec: seq<real>, std: seq<real> -> real, ww: int := 300): (y: Result<seq<real>>)
    ensures y.Ok? <==> 1 <= ww && 2 * ww <= |origSpec|
    ensures y.Err? ==> y.error == ValueError
    ensures y.Ok? ==> |y.value| == |origSpec|
    ensures y.Ok? ==> forall i :: ww - 1 <= i < |origSpec| - ww ==>
                        |origSpec[i - ww + 1 .. i + ww + 1]| == 2 * ww &&
                        y.value[i] == std(origSpec[i - ww + 1 .. i + ww + 1])
    ensures y.Ok? ==> forall i :: 0 <= i < ww - 1 ==> y.value[i] == y.value[ww - 1]
    ensures y.Ok? ==> forall i :: |origSpec| - ww <= i < |origSpec| ==> y.value[i] == y.value[|origSpec| - ww - 1]
  {
    match RollingWindow(origSpec, 2 * ww)
    case Err(e) => Err(e)
    case Ok(rows) => EdgePad(seq(|rows|, r requires 0 <= r < |rows| => std(rows[r])), ww - 1, ww)
  }

  /** The default `stddevlev` of `mask_spectrum`: a three-sigma threshold. */
  const DefaultStddevLev: real := 3.0

  /**
   * The threshold of `mask_spectrum`: `k_est + std_y * stddevlev`, where
   * `std_y = k_est / sqrt(2 * ww * 2)` is the standard error of a standard deviation
   * estimated from the `2 * ww` samples of one window.
   */
  function UpperLimit(kEst: real, ww: int, stddevlev: real, sqrt: real -> real): (upperlim: real)
    requires 1 <= ww && IsSqrt(sqrt)
  {
    var root := sqrt((2 * ww * 2) as real);
    SqrtPositive(sqrt, (2 * ww * 2) as real);
    var stdY := kEst / root;
    kEst + stdY * stddevlev
  }

  /** `ma.masked_where(condition, a)` on a plain array. */
  function MaskedWhere(condition: seq<bool>, a: seq<real>): (m: Result<MaskedSpectrum>)
  {
    if |condition| != |a| then Err(IndexError) else Ok(MaskedSpectrum(a, condition))
  }

  /**
   * `mask_spectrum(y, ww, spec, stddevlev, keep_signal)`: the values of `spec`, masked
   * where the local standard deviation is below the threshold (`keep_signal`, which keeps
   * only the signal) or above it (otherwise, which keeps only the noise).
   */
  function MaskSpectrum(y: seq<real>, ww: int, spec: seq<real>, median: seq<real> -> real, sqrt: real -> real,
                        stddevlev: real := DefaultStddevLev, keepSignal: bool := true): (m: Result<MaskedSpectrum>)
    requires 1 <= ww && IsSqrt(sqrt)
    ensures m.Ok? <==> |y| == |spec|
    ensures m.Err? ==> m.error == IndexError
    ensures m.Ok? ==> m.value.Valid() && m.value.data == spec
    ensures m.Ok? ==> forall i :: 0 <= i < |spec| ==>
                        (m.value.mask[i] <==>
                           if keepSignal then y[i] < UpperLimit(median(y), ww, stddevlev, sqrt)
                           else y[i] > UpperLimit(median(y), ww, stddevlev, sqrt))
  {
    var upperlim := UpperLimit(median(y), ww, stddevlev, sqrt);
    var condition := seq(|y|, i requires 0 <= i < |y| => if keepSignal then y[i] < upperlim else y[i] > upperlim);
    MaskedWhere(condition, spec)
  }

  /**
   * The threshold lies `stddevlev` standard errors above the median: squared, so that no
   * square root is needed, `(upper - k)^2 * 4 * ww == (stddevlev * k)^2`.
   */
  lemma UpperLimitSquared(kEst: real, ww: int, stddevlev: real, sqrt: real -> real)
    requires 1 <= ww && IsSqrt(sqrt)
    ensures var d := UpperLimit(kEst, ww, stddevlev, sqrt) - kEst;
            d * d * (4 * ww) as real == (stddevlev * kEst) * (stddevlev * kEst)
  {
    var x := (2 * ww * 2) as real;
    var root := sqrt(x);
    SqrtPositive(sqrt, x);
    assert root * root == x;
    var d := UpperLimit(kEst, ww, stddevlev, sqrt) - kEst;
    assert d == (stddevlev * kEst) / root;
    assert d * root == stddevlev * kEst;
    calc {
      d * d * x;
      d * d * (root * root);
      (d * root) * (d * root);
    }
  }

  /** For a non-negative noise level and level, the threshold is not below the median. */
  lemma UpperLimitAboveMedian(kEst: real, ww: int, stddevlev: real, sqrt: real -> real)
    requires 1 <= ww && IsSqrt(sqrt)
    requires 0.0 <= kEst && 0.0 <= stddevlev
    ensures kEst <= UpperLimit(kEst, ww, stddevlev, sqrt)
    ensures 0.0 < kEst && 0.0 < stddevlev ==> kEst < UpperLimit(kEst, ww, stddevlev, sqrt)
  {
    var x := (2 * ww * 2) as real;
    SqrtPositive(sqrt, x);
    var stdY := kEst / sqrt(x);
    assert 0.0 <= stdY;
    assert 0.0 <= stdY * stddevlev;
    if 0.0 < kEst && 0.0 < stddevlev {
      assert 0.0 < stdY;
      assert 0.0 < stdY * stddevlev;
    }
  }

  /**
   * The two modes of `mask_spectrum` on the same inputs: no channel is masked in both,
   * a channel exactly at the threshold is masked in neither, and every other channel is
   * masked in exactly one of them.  Neither mode changes the data.
   */
  lemma MaskModesPartition(y: seq<real>, ww: int, spec: seq<real>, stddevlev: real,
                           median: seq<real> -> real, sqrt: real -> real, i: int)
    requires 1 <= ww && IsSqrt(sqrt)
    requires |y| == |spec| && 0 <= i < |spec|
    ensures var keep := MaskSpectrum(y, ww, spec, median, sqrt, stddevlev, true);
            var drop := MaskSpectrum(y, ww, spec, median, sqrt, stddevlev, false);
            && keep.Ok? && drop.Ok?
            && keep.value.data == spec == drop.value.data
            && !(keep.value.mask[i] && drop.value.mask[i])
            && (y[i] == UpperLimit(median(y), ww, stddevlev, sqrt) <==> !keep.value.mask[i] && !drop.value.mask[i])
  {
  }

  /** `a[::step]` for a positive step: the entries at indices `0, step, 2 * step, ...`. */
  function Stride(a: seq<real>, step: int): (strided: seq<real>)
    requires 1 <= step
    decreases |a|
  {
    if a == [] then []
    else if |a| <= step then [a[0]]
    else [a[0]] + Stride(a[step..], step)
  }

  /**
   * `Stride` keeps exactly the entries at the multiples of the step below `|a|`: there
   * are `ceil(|a| / step)` of them, and entry `j` is `a[j * step]`.
   */
  lemma {:induction false} StrideSpec(a: seq<real>, step: int)
    requires 1 <= step
    ensures a == [] ==> Stride(a, step) == []
    ensures a != [] ==> (|Stride(a, step)| - 1) * step < |a| <= |Stride(a, step)| * step
    ensures forall j :: 0 <= j < |Stride(a, step)| ==> j * step < |a| && Stride(a, step)[j] == a[j * step]
  {
    if a != [] && step < |a| {
      var rest := a[step..];
      StrideSpec(rest, step);
      var r, r' := Stride(a, step), Stride(rest, step);
      assert r == [a[0]] + r';
      var m := |r'|;
      assert (m - 1) * step == m * step - step;
      assert (m + 1) * step == m * step + step;
      forall j | 0 <= j < |r| ensures j * step < |a| && r[j] == a[j * step] {
        if 0 < j {
          assert r[j] == r'[j - 1];
          assert (j - 1) * step == j * step - step;
          assert rest[(j - 1) * step] == a[step + (j - 1) * step];
        }
      }
    }
  }

  /** The bounds that `StrideSpec` gives the length single out `ceil(n / step)`. */
  lemma CeilingOfBounds(n: int, step: int, q: int)
    requires 0 <= n && 1 <= step && 0 <= q
    requires n == 0 ==> q == 0
    requires 0 < n ==> (q - 1) * step < n <= q * step
    ensures q == (n + step - 1) / step
  {
    var t := n + step - 1;
    var d := t / step;
    var qs, ds := q * step, d * step;
    assert t == ds + t % step && 0 <= t % step < step;
    if n == 0 {
      assert 0 <= t < step;
    } else {
      assert (q - 1) * step == qs - step;
      assert qs <= t < qs + step;
      if d < q {
        MulMonotone(d + 1, q, step);
      } else if q < d {
        MulMonotone(q + 1, d, step);
      }
    }
  }

  /** `Stride` keeps `ceil(|a| / step)` entries. */
  lemma StrideLength(a: seq<real>, step: int)
    requires 1 <= step
    ensures |Stride(a, step)| == (|a| + step - 1) / step
  {
    StrideSpec(a, step);
    CeilingOfBounds(|a|, step, |Stride(a, step)|);
  }

  /**
   * The down-sampling of `baseline_and_deglitch`: `median_filter(spec, filter_width)` taken
   * at every `filter_width`-th channel, given the filtered array.  The median filter
   * refuses a width below one: a zero width leaves an empty footprint (a RuntimeError),
   * a negative one a negative array dimension (a ValueError).
   */
  function Downsample(filtered: seq<real>, filterWidth: int): (r: Result<seq<real>>)
    ensures r.Ok? <==> 1 <= filterWidth
    ensures r.Err? ==> r.error == (if filterWidth == 0 then RuntimeError else ValueError)
    ensures r.Ok? ==> |r.value| == (|filtered| + filterWidth - 1) / filterWidth
    ensures r.Ok? ==> forall j :: 0 <= j < |r.value| ==> j * filterWidth < |filtered| && r.value[j] == filtered[j * filterWidth]
  {
    if filterWidth == 0 then Err(RuntimeError)
    else if filterWidth < 0 then Err(ValueError)
    else
      StrideLength(filtered, filterWidth);
      StrideSpec(filtered, filterWidth);
      Ok(Stride(filtered, filterWidth))
  }

  /** Every channel at a multiple of the filter width survives the down-sampling. */
  lemma DownsampleKeepsMultiples(filtered: seq<real>, filterWidth: int, k: int)
    requires 1 <= filterWidth && 0 <= k < |filtered| && k % filterWidth == 0
    ensures var r := Downsample(filtered, filterWidth).value;
            k / filterWidth < |r| && r[k / filterWidth] == filtered[k]
  {
    var r := Downsample(filtered, filterWidth).value;
    StrideSpec(filtered, filterWidth);
    var j := k / filterWidth;
    assert k == filterWidth * j;
    if |r| <= j {
      MulMonotone(|r|, j, filterWidth);
    }
  }

  /**
   * `a - b` on one-dimensional numpy arrays: element by element for equal lengths, with
   * a one-element operand broadcast against the other, and an error otherwise.
   */
  function Subtract(a: seq<real>, b: seq<real>): (r: Result<seq<real>>)
    ensures r.Ok? <==> |a| == |b| || |a| == 1 || |b| == 1
    ensures r.Ok? && |a| == |b| ==> |r.value| == |a| && forall i :: 0 <= i < |a| ==> r.value[i] == a[i] - b[i]
    ensures r.Ok? && |b| == 1 ==> |r.value| == |a| && forall i :: 0 <= i < |a| ==> r.value[i] == a[i] - b[0]
    ensures r.Ok? && |a| == 1 ==> |r.value| == |b| && forall i :: 0 <= i < |b| ==> r.value[i] == a[0] - b[i]
  {
    if |a| == |b| then Ok(seq(|a|, i requires 0 <= i < |a| => a[i] - b[i]))
    else if |b| == 1 then Ok(seq(|a|, i requires 0 <= i < |a| => a[i] - b[0]))
    else if |a| == 1 then Ok(seq(|b|, i requires 0 <= i < |b| => a[0] - b[i]))
    else Err(ValueError)  // operands could not be broadcast together
  }

  /** Adding the baseline back to the cleaned spectrum gives the down-sampled spectrum. */
  lemma SubtractThenAdd(downsampled: seq<real>, baseline: seq<real>)
    requires |downsampled| == |baseline|
    ensures var r := Subtract(downsampled, baseline);
            r.Ok? && |r.value| == |downsampled| &&
            forall i :: 0 <= i < |downsampled| ==> r.value[i] + baseline[i] == downsampled[i]
  {
  }

  /**
   * What `baseline_and_deglitch` holds before it fits the baseline: the down-sampled
   * spectrum, its local-standard-deviation array, the noise estimate and the
   * noise-only view of the spectrum.
   */
  datatype NoSignalView = NoSignalView(downsampled: seq<real>, y: seq<real>, kEst: real, noSignal: MaskedSpectrum)

  /**
   * The first steps of `baseline_and_deglitch(spec, filter_width=7, ww=20, **kwargs)`:
   * down-sample the median-filtered spectrum, build its local-standard-deviation array,
   * take its median as the noise estimate and mask the signal out (`keep_signal=False`),
   * with the `stddevlev` passed on through the keyword arguments.
   */
  function NoSignalSpectrum(filtered: seq<real>, std: seq<real> -> real, median: seq<real> -> real, sqrt: real -> real,
                            filterWidth: int := 7, ww: int := 20, stddevlev: real := DefaultStddevLev): (v: Result<NoSignalView>)
    requires IsSqrt(sqrt)
    ensures v.Ok? <==> 1 <= filterWidth && 1 <= ww && 2 * ww <= (|filtered| + filterWidth - 1) / filterWidth
    ensures v.Err? ==> v.error == (if filterWidth == 0 then RuntimeError else ValueError)
    ensures v.Ok? ==> var w := v.value;
                      && Downsample(filtered, filterWidth) == Ok(w.downsampled)
                      && MakeLocalStddev(w.downsampled, std, ww) == Ok(w.y)
                      && |w.downsampled| == |w.y| == (|filtered| + filterWidth - 1) / filterWidth
                      && w.noSignal.Valid() && w.noSignal.data == w.downsampled
                      && w.kEst == median(w.y)
                      && (forall j :: 0 <= j < |w.downsampled| ==>
                            j * filterWidth < |filtered| && w.downsampled[j] == filtered[j * filterWidth])
                      && (forall i :: 0 <= i < |w.y| ==>
                            (w.noSignal.mask[i] <==> w.y[i] > UpperLimit(w.kEst, ww, stddevlev, sqrt)))
  {
    match Downsample(filtered, filterWidth)
    case Err(e) => Err(e)
    case Ok(downsampled) =>
      match MakeLocalStddev(downsampled, std, ww)
      case Err(e) => Err(e)
      case Ok(y) =>
        var kEst := median(y);
        match MaskSpectrum(y, ww, downsampled, median, sqrt, stddevlev, false)
        case Err(e) => assert false; Err(e)  // y has the length of the down-sampled spectrum
        case Ok(noSignal) => Ok(NoSignalView(downsampled, y, kEst, noSignal))
  }

  /**
   * In the noise-only view an interior channel is masked exactly when the standard
   * deviation of its own window of `2 * ww` down-sampled channels is above the threshold.
   */
  lemma NoSignalMasksNoisyWindows(filtered: seq<real>, std: seq<real> -> real, median: seq<real> -> real,
                                  sqrt: real -> real, filterWidth: int, ww: int, stddevlev: real, i: int)
    requires IsSqrt(sqrt)
    requires 1 <= filterWidth && 1 <= ww && 2 * ww <= (|filtered| + filterWidth - 1) / filterWidth
    requires ww - 1 <= i < (|filtered| + filterWidth - 1) / filterWidth - ww
    ensures var w := NoSignalSpectrum(filtered, std, median, sqrt, filterWidth, ww, stddevlev).value;
            var window := w.downsampled[i - ww + 1 .. i + ww + 1];
            && |window| == 2 * ww
            && (w.noSignal.mask[i] <==> std(window) > UpperLimit(median(w.y), ww, stddevlev, sqrt))
  {
    var w := NoSignalSpectrum(filtered, std, median, sqrt, filterWidth, ww, stddevlev).value;
    assert MakeLocalStddev(w.downsampled, std, ww) == Ok(w.y);
  }
}
