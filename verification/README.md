# Eureka core: parameter flattening, bounded likelihoods, channel binning and MIRI loading

This project is a Dafny model of three parts of the Eureka JWST time-series
pipeline:

* **Stage 5 fitting support** (`fitters.py`):
  - how a composite model's parameter dictionaries are flattened into free, fixed and independent parameters;
  - the residuals, chi-square and reduced chi-square each backend reports;
  - the bounded `ln_like` / `lnprior` / `lnprob` objective of the `emcee` and `dynesty` backends;
  - the filter that drops out-of-bounds initial walkers;
  - the uniform prior transform;
  - the binned-RMS (`computeRMS`) diagnostic.
* **Stage 4 light-curve generation** (`s4_genLC.py`):
  - the wavelength range defaults and warnings;
  - spectroscopic channel edges, their mid-points and half-widths;
  - which detector columns fall into a channel;
  - the masked per-channel flux and uncertainty of every integration;
  - the per-aperture Stage 3 input directory, the output file names and the aperture loops.
* **MIRI loading in Stage 3** (`miri.py`):
  - the rotation of the four data cubes and of the extraction windows when `DISPAXIS == 2`;
  - the wavelength grid;
  - the 1-based integration slices and the hard-coded time stamps;
  - the NaN padding of the wavelength list to the 416-row subarray.

How values are modelled:

* A float64 is an exact real extended with the two infinities (`Floats.ExtReal`).
* NaN, masked entries and undefined quotients are `None` of an `Option`.
* A raised Python exception is `Err` of a `Result`.
* Transcendental functions and the physical model's evaluation are function parameters, not fixed definitions:
  - the square root;
  - `log(2πσ²)`;
  - `model.eval()` after `model.update(theta)`.

The modules follow the source:

* `Floats`: value types.
* `Arrays`: the NumPy and Python sequence operations used.
* `Likelihood`: residuals, chi-square and the Gaussian log-likelihood.
* `Parameters`: parameter flattening.
* `Objective`: `ln_like`, `lnprior` and `lnprob`.
* `Sampling`: the walker filter and the prior transform.
* `Rms`: `computeRMS`.
* `Channels`: range, edges, membership, flux and error.
* `Naming`: directories, file names and aperture loops.
* `Miri`: MIRI loading.

The three backends (`lsq`, `emcee`, `dynesty`) repeat the same parameter-flattening loop almost verbatim. Only `emcee` and `dynesty` define the objective (`ln_like`, `lnprior`, `lnprob`); `lsq` hands the flattened parameters to `lsq.minimize` (fitters.py:86), which is not part of this model. Each shared piece is modelled once, and the table cites one copy.

## Model

| member | source | states |
|---|---|---|
| Arrays.Linspace | eureka/S4_generate_lightcurves/s4_genLC.py:146-151 | `np.linspace` yields `num` values starting at `start` and, for two or more, ending exactly at `stop` |
| Arrays.LinspaceSteps | eureka/S4_generate_lightcurves/s4_genLC.py:146-151 | consecutive `np.linspace` values are one step `(stop - start) / (num - 1)` apart, so value `i` is `start + i * step` |
| Arrays.PySlice | eureka/S3_data_reduction/miri.py:55 | a Python slice with in-range bounds is exactly the contiguous subsequence between them |
| Arrays.Select | eureka/S5_lightcurve_fitting/fitters.py:282 | boolean-mask indexing keeps as many entries as the mask has `True` values |
| Arrays.SelectMembers | eureka/S5_lightcurve_fitting/fitters.py:282 | a value survives mask indexing if and only if some selected position holds it |
| Arrays.Reverse | eureka/S3_data_reduction/miri.py:53 | `[::-1]` keeps the length and puts entry `n-1-i` at position `i` |
| Arrays.ReverseInvolution | eureka/S3_data_reduction/miri.py:53 | reversing twice restores the array |
| Likelihood.Residuals | eureka/S5_lightcurve_fitting/fitters.py:110-111 | model plus residual gives back the observed flux at every point |
| Likelihood.ChiSquare | eureka/S5_lightcurve_fitting/fitters.py:125 | the chi-square of any residuals is non-negative |
| Likelihood.ChiSquareZero | eureka/S5_lightcurve_fitting/fitters.py:125 | the chi-square is zero if and only if every residual is zero |
| Likelihood.GaussianIsShiftedChiSquare | eureka/S5_lightcurve_fitting/fitters.py:255 | the Gaussian log-likelihood is `-1/2` times the chi-square plus a normalisation that depends only on the uncertainties |
| Likelihood.LikelihoodOrdersByChiSquare | eureka/S5_lightcurve_fitting/fitters.py:450 | with the same uncertainties, a higher log-likelihood means exactly a lower chi-square |
| Likelihood.ReducedChiSquare | eureka/S5_lightcurve_fitting/fitters.py:125-126 | the reduced chi-square is undefined exactly when the degrees of freedom are zero, and otherwise times the degrees of freedom gives the chi-square |
| Likelihood.BackendChi2Red | eureka/S5_lightcurve_fitting/fitters.py:334-336 | a backend's reported value times its degrees of freedom is the chi-square of `flux - model`, and a reported zero means the model matches the flux everywhere |
| Likelihood.ChiSquareAsymmetry | eureka/S5_lightcurve_fitting/fitters.py:542-544 | for the same fit the least-squares reduced chi-square is the samplers' one times `n / (n - k)`, strictly larger when there is misfit and a free parameter |
| Parameters.Flatten | eureka/S5_lightcurve_fitting/fitters.py:51-80 | the flattened view of all components has one entry in each of the four free vectors per free item of any component |
| Parameters.FlattenPlacesFree | eureka/S5_lightcurve_fitting/fitters.py:51-71 | a free item of component `c` lands in the slot counted by the free items of earlier components and earlier items of its own, with its name, value and bounds |
| Parameters.Group | eureka/S5_lightcurve_fitting/fitters.py:55-80 | the four free-parameter vectors all have one entry per free item |
| Parameters.AllParamsOrder | eureka/S5_lightcurve_fitting/fitters.py:51-52 | the concatenated items list component by component, each in dictionary order: item `j` of component `c` sits at the component's offset plus `j` |
| Parameters.GroupPlacesFree | eureka/S5_lightcurve_fitting/fitters.py:63-71 | every free item lands in the slot counted by the free items before it, with its name, value, and its own bounds when it has more than three fields or infinite bounds otherwise |
| Parameters.GroupSlotsAreFree | eureka/S5_lightcurve_fitting/fitters.py:219-221 | conversely every slot of the free vectors comes from a free item in that position of the order |
| Parameters.GroupSkipsFixed | eureka/S5_lightcurve_fitting/fitters.py:72-77 | inserting an item that is neither free nor independent anywhere leaves the whole flattened view unchanged |
| Parameters.GroupIndependentKeys | eureka/S5_lightcurve_fitting/fitters.py:76-77 | the independent-variable dictionary has a key if and only if an independent item carries that name |
| Parameters.GroupIndependentLastWins | eureka/S5_lightcurve_fitting/fitters.py:410-411 | an independent item with no later independent namesake supplies that variable's value |
| Objective.Clip | eureka/S5_lightcurve_fitting/fitters.py:248-251 | clipping keeps in-bounds coordinates, moves low ones to the lower bound and high ones to the upper bound (the upper bound winning when bounds cross), and with ordered bounds always lands in the box |
| Objective.LnLike | eureka/S5_lightcurve_fitting/fitters.py:246-257 | `ln_like` leaves the clipped vector behind and returns minus infinity if and only if the vector was out of bounds, otherwise the Gaussian log-likelihood of the unchanged vector |
| Objective.LnPrior | eureka/S5_lightcurve_fitting/fitters.py:259-265 | `lnprior` is 0 if and only if every coordinate is within its bounds and minus infinity otherwise |
| Objective.LnProb | eureka/S5_lightcurve_fitting/fitters.py:267-270 | `lnprob` is always a finite number or minus infinity, never NaN or plus infinity |
| Objective.PriorTermVanishes | eureka/S5_lightcurve_fitting/fitters.py:462-465 | with ordered bounds the prior in `lnprob` only ever sees the clipped vector and adds 0, so `lnprob` equals `ln_like` and rejects exactly the out-of-bounds draws |
| Objective.PriorRejectsCrossedBounds | eureka/S5_lightcurve_fitting/fitters.py:454-460 | when a lower bound exceeds its upper bound the prior rejects every clipped vector |
| Sampling.FilterWalkers | eureka/S5_lightcurve_fitting/fitters.py:280-284 | the mask is true exactly for in-bounds walkers, the kept walkers are those in original order, all of them in bounds, none in-bounds lost, and `nwalkers` counts them |
| Sampling.InRange | eureka/S5_lightcurve_fitting/fitters.py:280 | a walker's test is true if and only if every coordinate lies within its inclusive bounds |
| Sampling.TransformUniform | eureka/S5_lightcurve_fitting/fitters.py:428-429 | the uniform transform maps 0 to `a`, 1 to `b`, and the unit interval into `[a, b]` |
| Sampling.TransformUniformMonotone | eureka/S5_lightcurve_fitting/fitters.py:428-429 | for `a <= b` the transform preserves order |
| Sampling.TransformUniformRoundTrip | eureka/S5_lightcurve_fitting/fitters.py:428-429 | on a non-degenerate interval the transform and its inverse undo each other in both directions |
| Sampling.PriorTransform | eureka/S5_lightcurve_fitting/fitters.py:434-439 | `ptform` maps unit-cube corners to the bounds and, with ordered bounds, every unit-cube point into the prior box |
| Rms.BinSizesFrom | eureka/S5_lightcurve_fitting/fitters.py:666 | the bin sizes are `start + i * step`, every one below the stop and the next one not |
| Rms.Chunks | eureka/S5_lightcurve_fitting/fitters.py:675-676 | every bin holds exactly `binsz` points |
| Rms.ChunksCount | eureka/S5_lightcurve_fitting/fitters.py:671 | there are `floor(npts / binsz)` bins |
| Rms.NBinsPositive | eureka/S5_lightcurve_fitting/fitters.py:671 | there is at least one bin exactly when the bin size does not exceed the number of points |
| Rms.ChunkAt | eureka/S5_lightcurve_fitting/fitters.py:676 | bin `j` is the slice `data[j*b:(j+1)*b]` |
| Rms.ChunksPartition | eureka/S5_lightcurve_fitting/fitters.py:671-676 | the bins laid end to end followed by the ignored tail (shorter than one bin) give back the data |
| Rms.BinMeans | eureka/S5_lightcurve_fitting/fitters.py:672-676 | one mean per full bin |
| Rms.BinMeansSum | eureka/S5_lightcurve_fitting/fitters.py:675-676 | the bin means times the bin size plus the ignored tail sum to the total of the data |
| Rms.BinSizeOneIsIdentity | eureka/S5_lightcurve_fitting/fitters.py:676 | with bins of one point the bin means are the data themselves |
| Rms.MeanSquare | eureka/S5_lightcurve_fitting/fitters.py:678 | the mean square of the bin means is non-negative |
| Rms.RmsSqAt | eureka/S5_lightcurve_fitting/fitters.py:678 | the squared RMS is defined if and only if the bin size does not exceed the data length, and is then non-negative |
| Rms.RmsErrSqAt | eureka/S5_lightcurve_fitting/fitters.py:679 | the squared RMS error is defined exactly when the RMS is, and times `2 * nbins` gives the squared RMS |
| Rms.StderrSqAt | eureka/S5_lightcurve_fitting/fitters.py:681 | the white-noise expectation is undefined exactly for empty data or a single bin, and zero when there is no full bin |
| Rms.ComputeRms | eureka/S5_lightcurve_fitting/fitters.py:657-685 | the four returned arrays are parallel, the bin sizes are `1, 1+step, …` reaching past `maxnbins`, and each entry is the per-size RMS, RMS error and white-noise expectation |
| Rms.AlternatingExample | eureka/S5_lightcurve_fitting/fitters.py:657-685 | for an alternating ±1 series with `maxnbins = 3` the bin sizes are 1, 2, 3 and the squared RMS drops from 1 to 0 at size 2 |
| Channels.Min | eureka/S4_generate_lightcurves/s4_genLC.py:123 | `np.min` returns an element no larger than any other |
| Channels.Max | eureka/S4_generate_lightcurves/s4_genLC.py:132 | `np.max` returns an element no smaller than any other |
| Channels.DefaultRange | eureka/S4_generate_lightcurves/s4_genLC.py:122-139 | missing bounds default to the extreme wavelengths (an error on an empty wavelength list); a supplied bound is kept and warns exactly when it lies beyond every wavelength |
| Channels.ResolveEdges | eureka/S4_generate_lightcurves/s4_genLC.py:144-160 | without preset edges it fails exactly on a missing or zero channel count; with preset edges a conflicting count is replaced by `len(wave_hi)`, and it fails exactly on a missing or mismatched `wave_low`; resolved edges always pair up |
| Channels.GeneratedIs | eureka/S4_generate_lightcurves/s4_genLC.py:145-151 | generated edges are the two `np.linspace` calls with the configured count |
| Channels.GeneratedSteps | eureka/S4_generate_lightcurves/s4_genLC.py:145-151 | channel `i` starts at `wave_min + i * binsize` and is one bin size wide; the first starts at `wave_min`, the last ends at `wave_max` |
| Channels.GeneratedEdgesContiguous | eureka/S4_generate_lightcurves/s4_genLC.py:146-151 | each generated channel ends where the next begins |
| Channels.GeneratedEdgesAscending | eureka/S4_generate_lightcurves/s4_genLC.py:145-151 | generated channels are all non-negative in width exactly when `wave_min <= wave_max` |
| Channels.BinsizeSign | eureka/S4_generate_lightcurves/s4_genLC.py:145 | the bin size is non-negative exactly when the range is ordered |
| Channels.ResolveEdgesStable | eureka/S4_generate_lightcurves/s4_genLC.py:144-158 | resolving again with the edges a previous aperture pair left on the metadata reproduces them, whatever the new range |
| Channels.CentresRoundTrip | eureka/S4_generate_lightcurves/s4_genLC.py:179-180 | mid-points and half-widths determine the edges and vice versa |
| Channels.HalfWidthSign | eureka/S4_generate_lightcurves/s4_genLC.py:180 | every half-width is non-negative exactly when every channel is ascending |
| Channels.Where | eureka/S4_generate_lightcurves/s4_genLC.py:276-277 | the selected columns are in increasing order and are exactly those with `lo <= wave < hi` |
| Channels.EdgesOrdered | eureka/S4_generate_lightcurves/s4_genLC.py:272-277 | with ascending contiguous edges an earlier channel ends no later than a later one starts |
| Channels.ChannelsDisjoint | eureka/S4_generate_lightcurves/s4_genLC.py:276-277 | with ascending contiguous edges no column belongs to two channels |
| Channels.LastEdgeExcluded | eureka/S4_generate_lightcurves/s4_genLC.py:276-277 | a column exactly at the last upper edge belongs to no channel |
| Channels.ChannelsCover | eureka/S4_generate_lightcurves/s4_genLC.py:272-277 | with contiguous edges every column between the first lower and the last upper edge belongs to some channel |
| Channels.Gather | eureka/S4_generate_lightcurves/s4_genLC.py:280 | every gathered value is an unmasked entry at one of the channel's columns, and every such entry is gathered |
| Channels.GatherSelects | eureka/S4_generate_lightcurves/s4_genLC.py:280 | the gathered values are the masked-array selection `row[index][~mask[index]]`: the same entries, in column-list order, with the same multiplicity, so there are `np.ma.count` of them |
| Channels.GatherCount | eureka/S4_generate_lightcurves/s4_genLC.py:280 | one gathered value per unmasked listed column |
| Channels.GatherNonEmpty | eureka/S4_generate_lightcurves/s4_genLC.py:280 | something is gathered if and only if some channel column is unmasked |
| Channels.GatherUnmasked | eureka/S4_generate_lightcurves/s4_genLC.py:280 | with no masked channel entry the gathered values are the channel's columns in order |
| Channels.RowMean | eureka/S4_generate_lightcurves/s4_genLC.py:280 | the masked mean is masked exactly when all channel entries are; otherwise the unmasked count is positive and the value is the mean of the gathered entries |
| Channels.RowMeanIsSelectionMean | eureka/S4_generate_lightcurves/s4_genLC.py:280 | an unmasked mean is the mean of the selection `row[index][~mask[index]]`, entries in column-list order and with multiplicity |
| Channels.ChannelFlux | eureka/S4_generate_lightcurves/s4_genLC.py:280 | the channel flux has one masked mean per integration |
| Channels.MaskedEntriesIgnored | eureka/S4_generate_lightcurves/s4_genLC.py:193 | changing masked flux values changes no channel flux |
| Channels.ErrMaskedLikeFlux | eureka/S4_generate_lightcurves/s4_genLC.py:257-258 | the channel uncertainty is masked in exactly the integrations where the channel flux is |
| Channels.RowErr | eureka/S4_generate_lightcurves/s4_genLC.py:284-286 | one integration's uncertainty as written: masked exactly when all channel entries are, and otherwise times the divisor gives the quadrature sum of the unmasked uncertainties |
| Channels.ErrAt | eureka/S4_generate_lightcurves/s4_genLC.py:284-286 | as written the divisor is the unmasked count of the whole uncertainty grid, all integrations and columns |
| Channels.ChannelErr | eureka/S4_generate_lightcurves/s4_genLC.py:284-286 | the channel uncertainty as written has one entry per integration, each divided by the whole-grid count |
| Channels.ErrDenominator | eureka/S4_generate_lightcurves/s4_genLC.py:284-286 | whenever a channel has an unmasked entry the whole-grid divisor is positive |
| Channels.ErrScaledFromChannelMean | eureka/S4_generate_lightcurves/s4_genLC.py:282-286 | the value as written is the channel mean's uncertainty scaled by `k / count`, where `k` is the number of gathered entries and equals the channel's unmasked count in that integration |
| Channels.ErrAsWrittenWithUniformErr | eureka/S4_generate_lightcurves/s4_genLC.py:284-286 | with `k` entries of equal uncertainty `σ`, the value as written squares to `k σ² / count²` |
| Channels.ErrDivisorExample | eureka/S4_generate_lightcurves/s4_genLC.py:284-286 | for two integrations of one column with unit uncertainty the code as written reports 1/2 where the error of the mean is 1 |
| Channels.RowErrOfMean | eureka/S4_generate_lightcurves/s4_genLC.py:281-286 | corrected: masked exactly when all channel entries are masked; otherwise the unmasked count `k` of that integration is positive and the value times `k` is the quadrature sum of the gathered entries |
| Channels.ChannelErrOfMean | eureka/S4_generate_lightcurves/s4_genLC.py:281-286 | the corrected channel uncertainty has one such entry per integration |
| Channels.ErrOfMeanMaskedLikeFlux | eureka/S4_generate_lightcurves/s4_genLC.py:280-286 | the corrected uncertainty is masked in exactly the integrations where the channel flux is |
| Channels.ErrOfMeanIsStandardError | eureka/S4_generate_lightcurves/s4_genLC.py:281-286 | with `k` entries of equal uncertainty `σ` the corrected value is the standard error of their mean: non-negative and squaring to `σ² / k` |
| Naming.Split | eureka/S4_generate_lightcurves/s4_genLC.py:340 | `str.split` always yields at least one field |
| Naming.SplitFieldsNoSep | eureka/S4_generate_lightcurves/s4_genLC.py:340 | no field of a split contains the separator |
| Naming.JoinSplit | eureka/S4_generate_lightcurves/s4_genLC.py:340 | joining the fields of a split gives back the string |
| Naming.SplitJoin | eureka/S4_generate_lightcurves/s4_genLC.py:340 | fields without separators survive a join followed by a split |
| Naming.SplitAppend | eureka/S4_generate_lightcurves/s4_genLC.py:340 | splitting at a separator splits the two sides independently |
| Naming.Decimal | eureka/S4_generate_lightcurves/s4_genLC.py:306-307 | `str` of a non-negative integer is a non-empty string of digits |
| Naming.DecimalRoundTrip | eureka/S4_generate_lightcurves/s4_genLC.py:306-307 | reading back a rendered integer gives the integer |
| Naming.DecimalInjective | eureka/S4_generate_lightcurves/s4_genLC.py:306-307 | distinct integers render differently |
| Naming.RewriteInputDir | eureka/S4_generate_lightcurves/s4_genLC.py:340-341 | the rewritten directory ends with the separator and has the form `base/ap{spec}_bg{bg}/` |
| Naming.ReplacesLastField | eureka/S4_generate_lightcurves/s4_genLC.py:340-341 | for a directory `base/field/` the rewrite replaces `field` with the aperture tag and keeps `base` |
| Naming.ApTagNoSep | eureka/S4_generate_lightcurves/s4_genLC.py:341 | the aperture tag contains no path separator, for any separator outside its alphabet |
| Naming.RewriteLatestWins | eureka/S4_generate_lightcurves/s4_genLC.py:339-341 | rewriting for one pair and then another equals rewriting directly for the second pair |
| Naming.ApTagInjective | eureka/S4_generate_lightcurves/s4_genLC.py:341 | different aperture pairs give different tags |
| Naming.OutputNamesDiffer | eureka/S4_generate_lightcurves/s4_genLC.py:309-314 | the spectrum and light-curve files share their stem and never coincide |
| Naming.OutputNamesPerPair | eureka/S4_generate_lightcurves/s4_genLC.py:306-315 | within one output directory and event, distinct aperture pairs write to distinct files |
| Naming.ApertureRanges | eureka/S4_generate_lightcurves/s4_genLC.py:79-83 | without `allapers` both ranges collapse to the configured half-widths, otherwise they are kept |
| Naming.Runs | eureka/S4_generate_lightcurves/s4_genLC.py:92-93 | the nested loops make one visit per pair of half-widths |
| Naming.RunsAt | eureka/S4_generate_lightcurves/s4_genLC.py:92-93 | visit `i * len(bg) + j` processes the `i`-th spectral and `j`-th background half-width |
| Naming.SingleAperture | eureka/S4_generate_lightcurves/s4_genLC.py:79-93 | without `allapers` there is exactly one visit, with the configured pair |
| Miri.RotateFrame | eureka/S3_data_reduction/miri.py:67 | a transposed-then-reversed frame of `A x B` is `B x A` with pixel `(i, j)` taken from `(A-1-j, i)` |
| Miri.Rotate | eureka/S3_data_reduction/miri.py:67-71 | the same on every integration of a cube, which swaps the frame shape |
| Miri.Unrotate | eureka/S3_data_reduction/miri.py:67 | the inverse rotation reads pixel `(k, i)` from `(i, cols-1-k)` |
| Miri.RotateRoundTrip | eureka/S3_data_reduction/miri.py:67-71 | rotation loses nothing: it and its inverse undo each other in both orders |
| Miri.RotateHalfTurn | eureka/S3_data_reduction/miri.py:67-71 | rotating twice turns each frame upside down and left to right |
| Miri.FullTurn | eureka/S3_data_reduction/miri.py:67-71 | four rotations are the identity |
| Miri.RotateKeepsAlignment | eureka/S3_data_reduction/miri.py:67-71 | rotating data, error, quality and variance cubes separately keeps their pixels paired |
| Miri.RemapWindow | eureka/S3_data_reduction/miri.py:74 | the remapped window has the same width and stays on the axis |
| Miri.RemapWindowInvolution | eureka/S3_data_reduction/miri.py:74 | remapping twice with the same axis length restores the window |
| Miri.RemapWindowTracksRows | eureka/S3_data_reduction/miri.py:72-74 | a row is in the old window exactly when its rotated column is in the remapped one |
| Miri.Reorient | eureka/S3_data_reduction/miri.py:66-74 | for any other dispersion axis nothing changes; for `DISPAXIS == 2` the cubes stay aligned with swapped shape, the y window becomes the old x window and the x window keeps its width |
| Miri.ReorientSelectsSamePixels | eureka/S3_data_reduction/miri.py:66-74 | after reorientation each cube's pixel comes from the rotated source position, and it lies in the new windows exactly when the source pixel lay in the old ones |
| Miri.WaveGrid | eureka/S3_data_reduction/miri.py:53 | the wavelength grid has one row per column, each the wavelength list reversed |
| Miri.WaveFollowsRotation | eureka/S3_data_reduction/miri.py:53-71 | with one wavelength per detector row, the rotated pixel and the grid entry at the same position belong to the same detector row |
| Miri.IntegrationSlice | eureka/S3_data_reduction/miri.py:55 | valid 1-based `INTSTART`/`INTEND` select exactly integrations `intstart..intend` inclusive |
| Miri.IntStartZero | eureka/S3_data_reduction/miri.py:55 | an `INTSTART` of 0 wraps to the last entry or yields nothing |
| Miri.SimTimes | eureka/S3_data_reduction/miri.py:62 | the 1680 hard-coded time stamps are evenly spaced from 0 to 17356.2874 |
| Miri.BjdTdb | eureka/S3_data_reduction/miri.py:62 | the time stamps for a valid integration range are the evenly spaced values at those indices |
| Miri.TimesMatchIntTimes | eureka/S3_data_reduction/miri.py:55-62 | the time stamps and a 1680-row time table cut with the same indices have the same length |
| Miri.PadWave | eureka/S3_data_reduction/miri.py:91 | the padded list is `y0` NaNs, the measured values in order, then NaNs up to row 416 |
| Miri.PadWaveValues | eureka/S3_data_reduction/miri.py:91 | padding only adds NaNs: dropping them gives back the measured list |
| Miri.PadWaveFullHeight | eureka/S3_data_reduction/miri.py:88-91 | when the bounding box lies on the detector the list has 416 entries, present exactly on rows `y0..ylast` and holding the measured value there |

## Left out

- File and metadata I/O, FITS headers, WCS queries, logging, plotting, directory creation and the timing of each stage are outside the model. The values they supply become parameters:
  - `DISPAXIS`, `INTSTART` and `INTEND`;
  - the bounding-box rows `y0` and `ylast`, which are already truncated to integers;
  - the integration-time table, taken as a generic sequence.
- The optimisers and samplers themselves (`lsq.minimize`, `emcee.EnsembleSampler`, `dynesty`) are outside the model. So are the random walker start positions, which are an input to the walker filter, and the sampler output statistics.
- The hard-coded `step_size` vector is not modelled.
- The uncertainty defaults and rescaling are not modelled: `lc.unc = sqrt(flux)` when it is missing, and `lc.unc *= sqrt(chi2red)` before sampling.
- Square roots, `log(2πσ²)` and model evaluation are uninterpreted function parameters. Results that need square-root facts assume only that the parameter behaves as a square root on non-negative numbers.
- `transform_normal` (unused by `ptform`), `rmsplot`, `demcfitter` and `lmfitter` are not modelled.
- Stage 4 is not modelled beyond the channel binning: sigma clipping, drift correction, the MAD statistic and the plots are out.
- The mask is taken as the final combined one: the optimal-extraction mask plus masked NaNs and infinities.
- NumPy broadcasting of length-1 arrays is not modelled. All arrays are taken to have their full shapes.
- Likelihood.ChiSquare: requires every uncertainty to be non-zero. With a zero uncertainty NumPy gives an infinite or NaN chi-square, which the real-number model cannot represent. The same requirement (`LightCurve.Valid`) is on every member that uses a light curve.
- Channels.ResolveEdges: does not model the rounding of generated edges to three decimals (`np.round(..., 3)`). The edge lemmas are about the unrounded `np.linspace` values.
- Channels.ResolveEdges: a zero `nspecchan` is modelled as a `ZeroDivisionError`. That is what Python raises when `wave_max` and `wave_min` are plain floats from the configuration file; with NumPy scalars the bin size would be infinite and the channel list empty.
- Channels.ResolveEdges: a negative `nspecchan` is not modelled; the count has type `Option<nat>`. In the source `np.linspace` rejects a negative sample count with a `ValueError`.
- Channels.ResolveEdges: with preset edges and a missing `nspecchan` the result is `Ok` with an unknown count. The later failure of the light-curve array allocation is not modelled.
- Rms.ComputeRms: returns squared RMS, RMS error and white-noise expectation (the square root is not modelled), and requires `binstep >= 1`. With a zero step `np.arange` raises, and with a negative step it returns an empty range.
- Rms.StderrSqAt: a single full bin divides by zero in the source (an infinite or NaN value). It is modelled as `None`.
- Sampling.PriorTransform: requires finite bounds. With an infinite bound the source's transform yields infinities or NaN.
- Likelihood.ReducedChiSquare: a zero number of degrees of freedom gives `None` where NumPy would give an infinity or NaN.
- Miri.PadWave: the source pads with `int(y[0, 0])` NaNs in front and `int(416 - y[-1, 0] - 1)` behind. The model assumes the WCS grid rows `y[0, 0]` and `y[-1, 0]` are integer-valued and takes them as integers `y0` and `ylast`. For a fractional `y[-1, 0]` the two differ: 300.5 gives `int(114.5) = 114` trailing NaNs in the source, where the model would use `416 - 300 - 1 = 115`.

## Findings

| source | as written | input that shows it | evidently intended | confidence | as-written member | corrected member |
|---|---|---|---|---|---|---|
| eureka/S4_generate_lightcurves/s4_genLC.py:284-286 | the quadrature sum of a channel's uncertainties in one integration is divided by `np.ma.MaskedArray.count(opterr_ma)`, the unmasked count of the whole grid (every integration and every column) | two integrations of one unmasked column with unit uncertainty: the channel flux of each integration is that single value, with uncertainty 1, but the code reports 1/2 | divide by the number of unmasked channel entries in that integration, giving the standard error of the channel mean that the comment on the preceding lines describes | medium, not executed | Channels.ErrDivisorExample | Channels.ErrOfMeanIsStandardError |
