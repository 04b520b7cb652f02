# rampsclean core, modelled in Dafny

rampsclean cleans radio spectra from the RAMPS survey, which are heavily oversampled.
Its pipeline has four steps:

1. Median-filter the spectrum and down-sample it.
2. Build the *local standard deviation* array `y`: the standard deviation of every window of `2 * ww` channels, edge-padded back to the full length.
3. Mask the channels whose `y` lies more than `stddevlev` standard errors above the median of `y`.
4. Subtract a baseline.

The zeroth moment (integrated intensity) of a masked spectrum is its unmasked sum, with the error `sqrt(count) * noise`.
A `SyntheticSpectrum` class builds test spectra from four components: noise, a polynomial baseline, an ammonia line and spikes.

The model has four modules:

- `Common` (common.dfy): the pieces shared by the other modules. These are the `Result` and `Option` types, with Python exceptions as `Err(ValueError | IndexError | RuntimeError)` and numpy's masked constant as `None`. It also holds the masked spectrum (data plus mask), `Sum`, and the assumption `IsSqrt` about the square root.
- `CleanSpectrum` (clean_spectrum.dfy): pure functions on `seq<real>`.
  - The rolling window, the edge pad and the local standard deviation.
  - The threshold and `mask_spectrum`.
  - Down-sampling by a stride, numpy's 1-D broadcasting subtraction, and the masking part of `baseline_and_deglitch`.
- `Moments` (moments.dfy): `get_integrated_intensity` as a function, with lemmas about count, sum and error.
- `Synthetic` (synthetic_spectrum.dfy): the class `SyntheticSpectrum`.
  - Its fields are the components; its methods fill arrays with loops (`make_spikes`, `generate_spectrum`).
  - Every draw from numpy's random generator, and the line profile made with astropy, are inputs.

`std`, `median` and `sqrt` are numerical-library routines, so they are function-typed parameters.
The only property assumed of `sqrt` is `IsSqrt`: non-negative, squares back to its argument, and zero at zero.

## Model

| member | source | states |
|---|---|---|
| Common.Plain | rampsclean/moments.py:24-25 | A plain array seen as a masked array has the same data and no masked channel. |
| CleanSpectrum.RollingWindow | rampsclean/clean_spectrum.py:149-158 | Succeeds exactly when the shape `n - window + 1` is not negative. Has `n - window + 1` rows, and row `r` is `a[r .. r + window]`, element by element. |
| CleanSpectrum.EdgePad | rampsclean/clean_spectrum.py:167 | Edge padding succeeds exactly for non-negative widths on a non-empty array, or for zero widths on an empty one. The length is `before + n + after`, the middle is the input, and the pads repeat the first and the last value. |
| CleanSpectrum.MakeLocalStddev | rampsclean/clean_spectrum.py:160-168 | `ww` defaults to 300. Succeeds exactly when `1 <= ww` and `2 * ww <= n`; otherwise numpy raises ValueError. The result has length `n`. Interior channel `i` is `std` of the `2 * ww` channels starting at `i - ww + 1`. The first `ww - 1` channels repeat the first interior value and the last `ww` repeat the last one. |
| CleanSpectrum.MaskSpectrum | rampsclean/clean_spectrum.py:118-132 | `stddevlev` defaults to 3 and `keep_signal` to true. Fails (IndexError) exactly when `y` and `spec` differ in length. The data are `spec` unchanged. Channel `i` is masked exactly when `y[i] < upperlim` with `keep_signal`, and exactly when `y[i] > upperlim` without it. |
| CleanSpectrum.UpperLimitSquared | rampsclean/clean_spectrum.py:126-128 | The threshold is `k + stddevlev * k / sqrt(4 ww)`: `(upper - k)^2 * 4 ww == (stddevlev * k)^2`. |
| CleanSpectrum.UpperLimitAboveMedian | rampsclean/clean_spectrum.py:126-128 | For a non-negative median and level the threshold is at least the median, and strictly above it when both are positive. |
| CleanSpectrum.MaskModesPartition | rampsclean/clean_spectrum.py:129-132 | No channel is masked in both modes. A channel exactly at the threshold is masked in neither, and only such a channel. The data are never changed. |
| CleanSpectrum.StrideSpec | rampsclean/clean_spectrum.py:46 | `a[::step]` holds `a[j * step]` at position `j`, and its length `m` satisfies `(m - 1) * step < n <= m * step`. |
| CleanSpectrum.StrideLength | rampsclean/clean_spectrum.py:46 | `a[::step]` has `ceil(n / step)` entries. |
| CleanSpectrum.Downsample | rampsclean/clean_spectrum.py:46 | Succeeds exactly for a width of at least one. A zero width gives the median filter's RuntimeError and a negative one a ValueError. The result has `ceil(n / fw)` entries, and entry `j` is `filtered[j * fw]`. |
| CleanSpectrum.DownsampleKeepsMultiples | rampsclean/clean_spectrum.py:46 | Every channel `k` that is a multiple of the width survives, at position `k / fw`. |
| CleanSpectrum.Subtract | rampsclean/clean_spectrum.py:68 | Follows numpy broadcasting. It succeeds exactly when the lengths are equal or one of them is 1, and then subtracts element by element. Other lengths give ValueError. |
| CleanSpectrum.SubtractThenAdd | rampsclean/clean_spectrum.py:68 | Adding the baseline back to `downsampled - baseline` gives the down-sampled spectrum. |
| CleanSpectrum.NoSignalSpectrum | rampsclean/clean_spectrum.py:41-49 | `filter_width` defaults to 7, `ww` to 20, and `stddevlev` (passed on through the keyword arguments) to 3. Succeeds exactly when `fw >= 1`, `ww >= 1` and `2 * ww <= ceil(n / fw)`; otherwise it fails with the down-sampling's or `make_local_stddev`'s error. The down-sampled spectrum is `Downsample`'s result, and `y` is `make_local_stddev` of it. `k_est` is the median of `y`. The masked data are the down-sampled spectrum. A channel is masked exactly when its `y` is above the threshold at `stddevlev`. |
| CleanSpectrum.NoSignalMasksNoisyWindows | rampsclean/clean_spectrum.py:46-49 | In the noise-only view, an interior channel is masked exactly when `std` of its own window of `2 * ww` down-sampled channels is above the threshold. |
| Moments.UnmaskedCount | rampsclean/moments.py:25 | `ma.count` is at most the number of channels. |
| Moments.Filled | rampsclean/moments.py:24 | The values summed by `ma.sum` span every channel, with zero for the masked channels. |
| Moments.GetIntegratedIntensity | rampsclean/moments.py:11-27 | `mom0` is the masked constant exactly when the spectrum has channels and all of them are masked. Otherwise it is the sum of the unmasked values, which is 0 for an empty spectrum. The error is `sqrt(count) * noise`. It is zero for zero noise, non-negative for non-negative noise, and its square is `count * noise^2`. |
| Moments.ErrorSquared | rampsclean/moments.py:26 | `(sqrt(n) * e)^2 == n * e^2`, and `sqrt(n) * e >= 0` for `e >= 0`. |
| Moments.CountZeroIffAllMasked | rampsclean/moments.py:25 | The count is zero if and only if every channel is masked. |
| Moments.CountIsCardinality | rampsclean/moments.py:25 | The count is the size of the set of unmasked indices. |
| Moments.NothingMasked | rampsclean/moments.py:24-26 | With no mask the count is the length and the filled data are the data. `mom0` is then the total sum, whatever the noise. |
| Moments.AllMasked | rampsclean/moments.py:24-26 | With every channel masked the count is 0 and the error is 0. `mom0` is the masked constant, or 0 for an empty spectrum. |
| Moments.CountAfterMasking | rampsclean/moments.py:25 | Masking one more channel lowers the count by one. |
| Moments.MaskOneMore | rampsclean/moments.py:24-25 | Masking one more channel lowers the count by one and removes exactly that channel's value from the sum. |
| Synthetic.HornerIsPowerSum | rampsclean/synthetic_spectrum.py:110-111 | Evaluating `Polynomial(b)` by Horner's scheme gives `sum b[i] x^i`. |
| Synthetic.PolynomialOnGrid | rampsclean/synthetic_spectrum.py:110-111 | `poly(arange(L))` has length `L`, and channel `x` holds `sum b[i] x^i`. |
| Synthetic.Rescaled | rampsclean/synthetic_spectrum.py:105-108 | The intended rescaling keeps the number of coefficients and makes `b'[i] * L^i == b[i]`. |
| Synthetic.RescaledTermsBelowOne | rampsclean/synthetic_spectrum.py:104-108 | With draws in `[0, 1)`, each rescaled term `b'[i] * x^i` on the grid `0 <= x < L` lies in `[0, 1)`. |
| Synthetic.RandomCoefficientsAsWritten | rampsclean/synthetic_spectrum.py:107-108 | The loop as written leaves the coefficients equal to the random draws. |
| Synthetic.AsWrittenQuadraticTermDominates | rampsclean/synthetic_spectrum.py:104-108 | For draws of one half at the default length, the intended rescaling changes the coefficients. The unscaled quadratic term exceeds `10^8` at the last channel. |
| Synthetic.RescaleCoefficients | rampsclean/synthetic_spectrum.py:107-108 | Divides each coefficient in place by `L^i`, so the array holds the intended rescaling. |
| Synthetic.MakeBaseline | rampsclean/synthetic_spectrum.py:91-112 | As written: uses the given coefficients, or, when asked, the random draws unchanged by the coefficient loop. Returns that polynomial and its values over `arange(L)`. |
| Synthetic.MakeBaselineCorrected | rampsclean/synthetic_spectrum.py:101-112 | With the loop corrected: uses the given coefficients, or the random draws rescaled by `L^i`. Returns that polynomial and its values over `arange(L)`. |
| Synthetic.Assembled | rampsclean/synthetic_spectrum.py:58-66 | The assembled spectrum has length `L`, and is all zeros when every flag is off. |
| Synthetic.AssembledFlux | rampsclean/synthetic_spectrum.py:58-66 | The total flux is the sum of the fluxes of the selected components. |
| Synthetic.SpikeSpectrum | rampsclean/synthetic_spectrum.py:149-151 | The spike spectrum spans the whole spectrum. |
| Synthetic.SpikeSpectrumStep | rampsclean/synthetic_spectrum.py:150-151 | One more spike adds its amplitude to its own channel and leaves every other channel unchanged, so spikes on one channel accumulate. |
| Synthetic.SpikesOnlyWhereDrawn | rampsclean/synthetic_spectrum.py:149-151 | A channel that no spike was drawn for stays zero. |
| Synthetic.SpikeSpectrumFlux | rampsclean/synthetic_spectrum.py:149-151 | The spikes' total over all channels equals the sum of the amplitudes. |
| Synthetic.MakeSpikes | rampsclean/synthetic_spectrum.py:137-152 | Returns an array of length `L` whose channel `i` is the sum of the amplitudes drawn for `i`, and whose total is the sum of all amplitudes. |
| Synthetic.AddInto | rampsclean/synthetic_spectrum.py:60 | `total += component` adds the component channel by channel. |
| Synthetic.AddSelected | rampsclean/synthetic_spectrum.py:59-66 | Adds the component when its flag is set and leaves `total` unchanged otherwise. |
| Synthetic.SyntheticSpectrum.constructor | rampsclean/synthetic_spectrum.py:20-40 | Uses the default parameters when none are given. The noise is `noise_level * randn`. The baseline is as written in `MakeBaseline`, with the raw draws as coefficients for a random baseline. Then the line profile is stored, and the spikes are as in `MakeSpikes`. |
| Synthetic.SyntheticSpectrum.GenerateSpectrum | rampsclean/synthetic_spectrum.py:51-78 | Every flag defaults to true. Returns a fresh array summing the flagged components channel by channel, stores it as the total spectrum, and changes no other field. |
| Synthetic.SyntheticSpectrum.CalculateIntegratedIntensity | rampsclean/synthetic_spectrum.py:42-49 | Stores the line profile as the noise-free spectrum, and stores and returns its zeroth moment with zero noise. The error is 0 and `mom0` is the sum of the profile. |

## Left out

- Plotting and `os.mkdir` under the `outdir` keyword are output only and do not affect any result.
- Random numbers (`randn`, `rand`, `randint`, `exponential`) cannot be modelled as values, so each draw is a constructor input. Only their shapes and ranges are required.
- `make_nh3_spectrum` depends on astropy's `Gaussian1D` models, which are foreign code and floating point; the line profile is an input.
- `get_spline_baseline` depends on scipy's `UnivariateSpline`, which is foreign code.
- `get_polynomial_baseline` depends on `ma.polyfit` and the BIC computed from logs and square roots. As written it also returns nothing.
- The dispatch in `baseline_and_deglitch` at lines 50-53 is left out. The name `basetype` is never defined there, and `get_poly_baseline` does not exist, so the baseline is a parameter of `Subtract`.
- The median filter (`scipy.ndimage.median_filter`) is left out: its output is the input of `Downsample`.
- `my_pad` is not part of this model. `EdgePad` follows numpy's `pad(..., mode='edge')`, which it is called as.
- Floating point: reals are exact, so it is not modelled that `sqrt(2 * ww * 2)` with `ww = 0` would give an infinite or NaN threshold. For that reason `MaskSpectrum` requires `ww >= 1`. In the pipeline this always holds once `make_local_stddev` has succeeded.
- Moments.GetIntegratedIntensity: an all-false mask stands for numpy's `nomask`. That is what plain arrays carry, and `masked_where` shrinks a condition with no true entry to it. A masked array built elsewhere with an explicit empty mask array would give the masked constant from `ma.sum`. The model gives 0 for every empty spectrum.
- `get_integrated_intensity` takes no down-sampling factor and does not rescale its results.
- With every channel masked, `ma.sum` returns numpy's masked constant, modelled as `None`.
- `baseline_and_deglitch` passes its other keyword arguments (`outdir`) on to `mask_spectrum`. They only control plotting.
- `if not parameters` also treats an empty dictionary as missing, but the model only distinguishes "no parameters" (`None`).
- The default `num_spikes` is the float `10.`; the model takes it as the natural number 10.
- Synthetic.SyntheticSpectrum.constructor requires a non-empty list of given coefficients, because numpy's `Polynomial([])` raises. That error path is not modelled.
- Synthetic.MakeBaseline requires the same non-empty list, for the same reason.
- Synthetic.MakeBaselineCorrected also requires `spec_length >= 1` for a random baseline, so that the rescaling never divides by `0 ** i`.
- The test scripts under `tests/` are left out; they are drivers and not part of the core.

## Findings

| source | as written | input that shows it | evidently intended | confidence | as-written member | corrected member |
|---|---|---|---|---|---|---|
| rampsclean/synthetic_spectrum.py:107-108 | The loop divides `bb` by `spec_length ** i`, but it only rebinds the loop variable `bb`, so the random coefficients reach `Polynomial(b)` unscaled. | `do_random_baseline = True`, `spec_length = 16384`, draws `[0.5, 0.5, 0.5]`: the quadratic term at the last channel is `0.5 * 16383^2 > 10^8`. | Divide each coefficient in place, `b[i] /= spec_length ** i`, so that every term stays in `[0, 1)` on the channel grid. | not executed | Synthetic.MakeBaseline, Synthetic.RandomCoefficientsAsWritten, Synthetic.AsWrittenQuadraticTermDominates | Synthetic.MakeBaselineCorrected, Synthetic.RescaleCoefficients, Synthetic.Rescaled, Synthetic.RescaledTermsBelowOne |
