/** Stage 4 light-curve generation: the wavelength range, the spectroscopic
    channel edges, which detector columns fall into each channel, and the
    masked per-channel flux and uncertainty of every integration.

    A spectrum is a grid of `n_int` integrations by `subnx` columns; column
    `w` has wavelength `wave1d[w]`. The mask marks entries as bad (`true`); it
    is the mask after NaNs and infinities have been masked too, and the
    uncertainty grid shares it. */
module Channels {
  import opened Floats
  import opened Arrays

  /** `np.min` of a non-empty array. */
  function Min(s: seq<real>): (m: real)
    requires |s| > 0
    ensures m in s && forall i :: 0 <= i < |s| ==> m <= s[i]
  {
    if |s| == 1 then s[0]
    else
      var m := Min(s[..|s| - 1]);
      assert m in s[..|s| - 1];
      if s[|s| - 1] < m then s[|s| - 1] else m
  }

  /** `np.max` of a non-empty array. */
  function Max(s: seq<real>): (m: real)
    requires |s| > 0
    ensures m in s && forall i :: 0 <= i < |s| ==> s[i] <= m
  {
    if |s| == 1 then s[0]
    else
      var m := Max(s[..|s| - 1]);
      assert m in s[..|s| - 1];
      if s[|s| - 1] > m then s[|s| - 1] else m
  }

  /** The wavelength range in use, and whether a supplied bound triggered
      the warning that it lies beyond the data. */
  datatype WaveRange = WaveRange(wmin: real, wmax: real, warnMin: bool, warnMax: bool)

  /** `wave_min` and `wave_max` default to the extreme wavelengths of the
      spectrum when they are not given; a supplied value is kept even outside
      the data, with a warning only. Both branches evaluate `np.min` or
      `np.max`, which raise on an empty wavelength array. */
  function DefaultRange(wmin: Option<real>, wmax: Option<real>, wave1d: seq<real>): (r: Result<WaveRange>)
    ensures r.Err? <==> |wave1d| == 0
    ensures r.Ok? && wmin.Some? ==> r.value.wmin == wmin.value
    ensures r.Ok? && wmax.Some? ==> r.value.wmax == wmax.value
    ensures r.Ok? && wmin.None? ==>
              r.value.wmin in wave1d && forall w :: 0 <= w < |wave1d| ==> r.value.wmin <= wave1d[w]
    ensures r.Ok? && wmax.None? ==>
              r.value.wmax in wave1d && forall w :: 0 <= w < |wave1d| ==> wave1d[w] <= r.value.wmax
    ensures r.Ok? ==> (r.value.warnMin <==> wmin.Some? && forall w :: 0 <= w < |wave1d| ==> wmin.value < wave1d[w])
    ensures r.Ok? ==> (r.value.warnMax <==> wmax.Some? && forall w :: 0 <= w < |wave1d| ==> wave1d[w] < wmax.value)
  {
    if |wave1d| == 0 then Err(ValueError)
    else
      var lo := Min(wave1d);
      var hi := Max(wave1d);
      Ok(WaveRange(if wmin.None? then lo else wmin.value,
                   if wmax.None? then hi else wmax.value,
                   wmin.Some? && wmin.value < lo,
                   wmax.Some? && wmax.value > hi))
  }

  /** The user's channel settings: `nspecchan` (possibly `None`) and the
      optional preset edges `wave_low` and `wave_hi` (absent attributes are
      `None`). */
  datatype EdgeConfig = EdgeConfig(nspecchan: Option<nat>, waveLow: Option<seq<real>>, waveHi: Option<seq<real>>)

  /** The resolved channel count and edges. */
  datatype Edges = Edges(nspecchan: Option<nat>, low: seq<real>, hi: seq<real>)

  /** `binsize = (wave_max - wave_min) / nspecchan`. */
  function Binsize(wmin: real, wmax: real, n: nat): real
    requires n >= 1
  {
    (wmax - wmin) / n as real
  }

  /** The channel edges before rounding. Without preset `wave_hi` they are
      generated with `np.linspace`, which fails on a missing channel count
      (a `TypeError`) and is modelled as failing on a zero one. With preset
      edges a conflicting `nspecchan` is replaced by `len(wave_hi)`; a missing
      `wave_low` is an `AttributeError` and edge arrays of different lengths
      cannot be averaged. */
  function ResolveEdges(cfg: EdgeConfig, wmin: real, wmax: real): (r: Result<Edges>)
    ensures cfg.waveHi.None? ==> (r.Err? <==> cfg.nspecchan.None? || cfg.nspecchan == Some(0))
    ensures cfg.waveHi.None? && r.Ok? ==> r.value.nspecchan == cfg.nspecchan
    ensures cfg.waveHi.Some? ==>
              (r.Err? <==> cfg.waveLow.None? || |cfg.waveLow.value| != |cfg.waveHi.value|)
    ensures cfg.waveHi.Some? && r.Ok? ==>
              r.value.low == cfg.waveLow.value && r.value.hi == cfg.waveHi.value
              && (cfg.nspecchan.Some? ==> r.value.nspecchan == Some(|cfg.waveHi.value|))
              && (cfg.nspecchan.None? ==> r.value.nspecchan.None?)
    ensures r.Ok? ==> |r.value.low| == |r.value.hi|
    ensures r.Ok? && r.value.nspecchan.Some? ==> r.value.nspecchan.value == |r.value.hi|
  {
    if cfg.waveHi.None? then
      if cfg.nspecchan.None? then Err(TypeError)
      else if cfg.nspecchan.value == 0 then Err(ZeroDivisionError)
      else
        var n := cfg.nspecchan.value;
        var bs := Binsize(wmin, wmax, n);
        Ok(Edges(cfg.nspecchan, Linspace(wmin, wmax - bs, n), Linspace(wmin + bs, wmax, n)))
    else
      var hi := cfg.waveHi.value;
      var n := if cfg.nspecchan.Some? && cfg.nspecchan.value != |hi| then Some(|hi|) else cfg.nspecchan;
      if cfg.waveLow.None? then Err(AttributeError)
      else if |cfg.waveLow.value| != |hi| then Err(ValueError)
      else Ok(Edges(n, cfg.waveLow.value, hi))
  }

  /** Without preset edges and with a positive channel count, the edges are
      the two `np.linspace` calls. */
  lemma {:induction false} GeneratedIs(n: nat, wmin: real, wmax: real)
    requires n >= 1
    ensures var bs := Binsize(wmin, wmax, n);
            ResolveEdges(EdgeConfig(Some(n), None, None), wmin, wmax)
            == Ok(Edges(Some(n), Linspace(wmin, wmax - bs, n), Linspace(wmin + bs, wmax, n)))
  {
  }

  /** The generated edges step by one bin size: channel `i` starts at
      `wave_min + i * binsize` and is one bin size wide, the first starts at
      `wave_min` and the last ends at `wave_max`. */
  lemma {:induction false} GeneratedSteps(n: nat, wmin: real, wmax: real)
    requires n >= 1
    ensures var bs := Binsize(wmin, wmax, n);
            var low := Linspace(wmin, wmax - bs, n);
            var hi := Linspace(wmin + bs, wmax, n);
            && (forall i :: 0 <= i < n ==> low[i] == wmin + i as real * bs)
            && (forall i :: 0 <= i < n ==> hi[i] == low[i] + bs)
            && low[0] == wmin && hi[n - 1] == wmax
  {
    var bs := Binsize(wmin, wmax, n);
    if n == 1 {
      BinsizeOne(wmin, wmax);
    } else {
      StepIsBinsize(wmin, wmax, n);
      LinspaceWith(wmin, wmax - bs, n, bs);
      LinspaceWith(wmin + bs, wmax, n, bs);
    }
  }

  /** Each generated channel ends where the next begins. */
  lemma {:induction false} GeneratedEdgesContiguous(n: nat, wmin: real, wmax: real)
    requires n >= 1
    ensures var r := ResolveEdges(EdgeConfig(Some(n), None, None), wmin, wmax);
            r.Ok? && Contiguous(r.value.low, r.value.hi)
  {
    var bs := Binsize(wmin, wmax, n);
    GeneratedIs(n, wmin, wmax);
    GeneratedSteps(n, wmin, wmax);
    GeneratedContiguous(Linspace(wmin, wmax - bs, n), Linspace(wmin + bs, wmax, n), wmin, bs);
  }

  lemma {:induction false} GeneratedContiguous(low: seq<real>, hi: seq<real>, wmin: real, bs: real)
    requires |low| == |hi|
    requires forall i :: 0 <= i < |low| ==> low[i] == wmin + i as real * bs
    requires forall i :: 0 <= i < |low| ==> hi[i] == low[i] + bs
    ensures Contiguous(low, hi)
  {
    forall i | 0 <= i < |hi| - 1
      ensures hi[i] == low[i + 1]
    {
      NextStep(i, bs);
    }
  }

  lemma BinsizeOne(wmin: real, wmax: real)
    ensures Binsize(wmin, wmax, 1) == wmax - wmin
  {
  }

  /** `np.linspace` with a known step lists `start + i * step`. */
  lemma {:induction false} LinspaceWith(start: real, stop: real, n: nat, step: real)
    requires n >= 2 && (stop - start) / (n - 1) as real == step
    ensures forall i :: 0 <= i < n ==> Linspace(start, stop, n)[i] == start + i as real * step
  {
    LinspaceSteps(start, stop, n);
  }

  /** Both generated edge arrays are evenly spaced by exactly one bin size. */
  lemma {:induction false} StepIsBinsize(wmin: real, wmax: real, n: nat)
    requires n >= 2
    ensures (wmax - Binsize(wmin, wmax, n) - wmin) / (n - 1) as real == Binsize(wmin, wmax, n)
    ensures (wmax - (wmin + Binsize(wmin, wmax, n))) / (n - 1) as real == Binsize(wmin, wmax, n)
  {
    var bs := Binsize(wmin, wmax, n);
    assert n as real * bs == wmax - wmin;
    assert wmax - bs - wmin == (n - 1) as real * bs;
  }

  lemma {:induction false} NextStep(i: nat, bs: real)
    ensures i as real * bs + bs == (i + 1) as real * bs
  {
  }

  /** Each channel ends where the next begins. */
  predicate Contiguous(low: seq<real>, hi: seq<real>)
  {
    |low| == |hi| && forall i :: 0 <= i < |hi| - 1 ==> hi[i] == low[i + 1]
  }

  /** No channel ends before it begins. */
  predicate Ascending(low: seq<real>, hi: seq<real>)
  {
    |low| == |hi| && forall i :: 0 <= i < |hi| ==> low[i] <= hi[i]
  }

  /** Generated edges are ascending exactly when the range is. */
  lemma {:induction false} GeneratedEdgesAscending(n: nat, wmin: real, wmax: real)
    requires n >= 1
    ensures var r := ResolveEdges(EdgeConfig(Some(n), None, None), wmin, wmax);
            r.Ok? && (Ascending(r.value.low, r.value.hi) <==> wmin <= wmax)
  {
    GeneratedIs(n, wmin, wmax);
    GeneratedSteps(n, wmin, wmax);
    BinsizeSign(wmin, wmax, n);
    var r := ResolveEdges(EdgeConfig(Some(n), None, None), wmin, wmax);
    assert r.value.hi[0] == r.value.low[0] + Binsize(wmin, wmax, n);
  }

  lemma {:induction false} BinsizeSign(wmin: real, wmax: real, n: nat)
    requires n >= 1
    ensures Binsize(wmin, wmax, n) >= 0.0 <==> wmin <= wmax
  {
    var bs := Binsize(wmin, wmax, n);
    assert n as real * bs == wmax - wmin;
    if bs < 0.0 {
      assert n as real * bs < 0.0;
    }
  }

  /** Resolving again with the edges an earlier aperture pair produced (the
      attributes persist on the metadata) reproduces them. */
  lemma ResolveEdgesStable(cfg: EdgeConfig, wmin: real, wmax: real, wmin': real, wmax': real)
    requires ResolveEdges(cfg, wmin, wmax).Ok?
    ensures var e := ResolveEdges(cfg, wmin, wmax).value;
            ResolveEdges(EdgeConfig(e.nspecchan, Some(e.low), Some(e.hi)), wmin', wmax') == Ok(e)
  {
  }

  /** `wave_mid = (wave_hi + wave_low) / 2` (also `meta.wave`). */
  function Mid(low: seq<real>, hi: seq<real>): (mid: seq<real>)
    requires |low| == |hi|
    ensures |mid| == |low|
  {
    seq(|low|, i requires 0 <= i < |low| && |low| == |hi| => (hi[i] + low[i]) / 2.0)
  }

  /** `wave_err = (wave_hi - wave_low) / 2`. */
  function HalfWidth(low: seq<real>, hi: seq<real>): (err: seq<real>)
    requires |low| == |hi|
    ensures |err| == |low|
  {
    seq(|low|, i requires 0 <= i < |low| && |low| == |hi| => (hi[i] - low[i]) / 2.0)
  }

  /** The edges described by a centre and a half-width. */
  function EdgesOf(mid: seq<real>, err: seq<real>): (e: (seq<real>, seq<real>))
    requires |mid| == |err|
    ensures |e.0| == |mid| && |e.1| == |mid|
  {
    (seq(|mid|, i requires 0 <= i < |mid| && |mid| == |err| => mid[i] - err[i]),
     seq(|mid|, i requires 0 <= i < |mid| && |mid| == |err| => mid[i] + err[i]))
  }

  /** Mid-points and half-widths describe the channels exactly: the edges
      are recovered from them, and they from the edges. */
  lemma CentresRoundTrip(low: seq<real>, hi: seq<real>, mid: seq<real>, err: seq<real>)
    requires |low| == |hi| && |mid| == |err|
    ensures EdgesOf(Mid(low, hi), HalfWidth(low, hi)) == (low, hi)
    ensures var e := EdgesOf(mid, err); Mid(e.0, e.1) == mid && HalfWidth(e.0, e.1) == err
  {
    var e := EdgesOf(Mid(low, hi), HalfWidth(low, hi));
    assert e.0 == low;
    assert e.1 == hi;
    var e' := EdgesOf(mid, err);
    assert Mid(e'.0, e'.1) == mid;
    assert HalfWidth(e'.0, e'.1) == err;
  }

  /** A non-negative half-width exactly for an ascending channel. */
  lemma HalfWidthSign(low: seq<real>, hi: seq<real>)
    requires |low| == |hi|
    ensures Ascending(low, hi) <==> forall i :: 0 <= i < |low| ==> HalfWidth(low, hi)[i] >= 0.0
  {
    var h := HalfWidth(low, hi);
    assert forall i :: 0 <= i < |low| ==> (h[i] >= 0.0 <==> low[i] <= hi[i]);
  }

  /** `np.where((wave_1d >= lo) * (wave_1d < hi))[0]`: the columns whose
      wavelength lies in the half-open interval `[lo, hi)`, in increasing order. */
  function Where(wave1d: seq<real>, lo: real, hi: real): (idx: seq<nat>)
    ensures forall t :: 0 <= t < |idx| ==> idx[t] < |wave1d| && lo <= wave1d[idx[t]] < hi
    ensures forall w :: 0 <= w < |wave1d| && lo <= wave1d[w] < hi ==> w in idx
    ensures forall s, t :: 0 <= s < t < |idx| ==> idx[s] < idx[t]
  {
    if |wave1d| == 0 then []
    else
      var n := |wave1d| - 1;
      var pre := Where(wave1d[..n], lo, hi);
      if lo <= wave1d[n] < hi then pre + [n] else pre
  }

  /** The columns of channel `i`. */
  function ChannelColumns(wave1d: seq<real>, low: seq<real>, hi: seq<real>, i: nat): seq<nat>
    requires |low| == |hi| && i < |hi|
  {
    Where(wave1d, low[i], hi[i])
  }

  /** With ascending, contiguous edges a channel ends no later than any
      later channel begins. */
  lemma {:induction false} EdgesOrdered(low: seq<real>, hi: seq<real>, i: nat, j: nat)
    requires Ascending(low, hi) && Contiguous(low, hi) && i < j < |hi|
    ensures hi[i] <= low[j]
    decreases j - i
  {
    if i + 1 < j {
      EdgesOrdered(low, hi, i + 1, j);
      assert hi[i] == low[i + 1] <= hi[i + 1];
    }
  }

  /** With ascending, contiguous edges no column lands in two channels. */
  lemma ChannelsDisjoint(wave1d: seq<real>, low: seq<real>, hi: seq<real>, i: nat, j: nat, w: nat)
    requires Ascending(low, hi) && Contiguous(low, hi) && i < |hi| && j < |hi| && i != j
    ensures !(w in ChannelColumns(wave1d, low, hi, i) && w in ChannelColumns(wave1d, low, hi, j))
  {
    if i < j {
      EdgesOrdered(low, hi, i, j);
    } else {
      EdgesOrdered(low, hi, j, i);
    }
  }

  /** A column at exactly the last upper edge lands in no channel. */
  lemma LastEdgeExcluded(wave1d: seq<real>, low: seq<real>, hi: seq<real>, w: nat)
    requires Ascending(low, hi) && Contiguous(low, hi) && |hi| > 0
    requires w < |wave1d| && wave1d[w] == hi[|hi| - 1]
    ensures forall i :: 0 <= i < |hi| ==> w !in ChannelColumns(wave1d, low, hi, i)
  {
    forall i | 0 <= i < |hi|
      ensures w !in ChannelColumns(wave1d, low, hi, i)
    {
      if i < |hi| - 1 {
        EdgesOrdered(low, hi, i, |hi| - 1);
      }
    }
  }

  /** With ascending, contiguous edges every column between the first lower
      edge and the last upper edge lands in some channel. */
  lemma {:induction false} ChannelsCover(wave1d: seq<real>, low: seq<real>, hi: seq<real>, w: nat)
    requires Contiguous(low, hi) && |hi| > 0
    requires w < |wave1d| && low[0] <= wave1d[w] < hi[|hi| - 1]
    ensures exists i :: 0 <= i < |hi| && w in ChannelColumns(wave1d, low, hi, i)
    decreases |hi|
  {
    var n := |hi| - 1;
    if wave1d[w] >= low[n] {
      assert w in ChannelColumns(wave1d, low, hi, n);
    } else {
      var low', hi' := low[..n], hi[..n];
      assert hi'[n - 1] == low[n];
      ChannelsCover(wave1d, low', hi', w);
      var i :| 0 <= i < n && w in ChannelColumns(wave1d, low', hi', i);
      assert ChannelColumns(wave1d, low', hi', i) == ChannelColumns(wave1d, low, hi, i);
    }
  }

  /** Fancy indexing `row[index]`: the entries at the listed columns, in
      column-list order. */
  function AtColumns<T>(row: seq<T>, idx: seq<nat>): (v: seq<T>)
    requires forall t :: 0 <= t < |idx| ==> idx[t] < |row|
    ensures |v| == |idx| && forall t :: 0 <= t < |idx| ==> v[t] == row[idx[t]]
  {
    seq(|idx|, t requires 0 <= t < |idx| && (forall t :: 0 <= t < |idx| ==> idx[t] < |row|) => row[idx[t]])
  }

  /** Which listed entries are good (not masked). */
  function GoodAt(mask: seq<bool>, idx: seq<nat>): (v: seq<bool>)
    requires forall t :: 0 <= t < |idx| ==> idx[t] < |mask|
    ensures |v| == |idx| && forall t :: 0 <= t < |idx| ==> v[t] == !mask[idx[t]]
  {
    seq(|idx|, t requires 0 <= t < |idx| && (forall t :: 0 <= t < |idx| ==> idx[t] < |mask|) => !mask[idx[t]])
  }

  /** `np.ma.count` of one integration's channel entries: how many listed
      entries are good, a column listed twice counting twice. */
  function ChannelCount(mask: seq<bool>, idx: seq<nat>): nat
    requires forall t :: 0 <= t < |idx| ==> idx[t] < |mask|
  {
    Count(GoodAt(mask, idx))
  }

  /** The entries of `row` at the listed columns that are not masked, in
      column-list order; `GatherSelects` pins it down as the good entries of
      `row[index]`. */
  function Gather(row: seq<real>, mask: seq<bool>, idx: seq<nat>): (g: seq<real>)
    requires |mask| == |row| && forall t :: 0 <= t < |idx| ==> idx[t] < |row|
    ensures |g| <= |idx|
    ensures forall x :: x in g <==> exists t :: 0 <= t < |idx| && !mask[idx[t]] && row[idx[t]] == x
  {
    if |idx| == 0 then []
    else
      var n := |idx| - 1;
      var pre := Gather(row, mask, idx[..n]);
      assert forall t :: 0 <= t < n ==> idx[..n][t] == idx[t];
      if mask[idx[n]] then pre else pre + [row[idx[n]]]
  }

  /** The gathered entries are exactly the masked-array selection
      `row[index][~mask[index]]`: contents, order and multiplicity, hence one
      entry per good listed column. */
  lemma {:induction false} GatherSelects(row: seq<real>, mask: seq<bool>, idx: seq<nat>)
    requires |mask| == |row| && forall t :: 0 <= t < |idx| ==> idx[t] < |row|
    ensures Gather(row, mask, idx) == Select(AtColumns(row, idx), GoodAt(mask, idx))
    ensures |Gather(row, mask, idx)| == ChannelCount(mask, idx)
  {
    if |idx| > 0 {
      var n := |idx| - 1;
      assert forall t :: 0 <= t < n ==> idx[..n][t] == idx[t];
      GatherSelects(row, mask, idx[..n]);
      assert AtColumns(row, idx)[..n] == AtColumns(row, idx[..n]);
      assert GoodAt(mask, idx)[..n] == GoodAt(mask, idx[..n]);
    }
  }

  /** One gathered entry per good listed column. */
  lemma GatherCount(row: seq<real>, mask: seq<bool>, idx: seq<nat>)
    requires |mask| == |row| && forall t :: 0 <= t < |idx| ==> idx[t] < |row|
    ensures |Gather(row, mask, idx)| == ChannelCount(mask, idx)
  {
    GatherSelects(row, mask, idx);
  }

  /** The number of unmasked entries of one row. */
  function Unmasked(mask: seq<bool>): nat
  {
    if |mask| == 0 then 0 else Unmasked(mask[..|mask| - 1]) + (if mask[|mask| - 1] then 0 else 1)
  }

  /** `np.ma.MaskedArray.count` of a whole grid: its unmasked entries. */
  function TotalUnmasked(mask: seq<seq<bool>>): nat
  {
    if |mask| == 0 then 0 else TotalUnmasked(mask[..|mask| - 1]) + Unmasked(mask[|mask| - 1])
  }

  /** A row with an unmasked entry has a positive unmasked count. */
  lemma {:induction false} UnmaskedPositive(mask: seq<bool>, k: nat)
    requires k < |mask| && !mask[k]
    ensures Unmasked(mask) > 0
  {
    var n := |mask| - 1;
    if k < n {
      assert mask[..n][k] == mask[k];
      UnmaskedPositive(mask[..n], k);
    }
  }

  /** The whole grid counts at least as many unmasked entries as any row. */
  lemma {:induction false} TotalCountsRow(mask: seq<seq<bool>>, r: nat)
    requires r < |mask|
    ensures Unmasked(mask[r]) <= TotalUnmasked(mask)
  {
    var n := |mask| - 1;
    if r < n {
      assert mask[..n][r] == mask[r];
      TotalCountsRow(mask[..n], r);
    }
  }

  /** A grid of `rows` integrations by `cols` columns. */
  predicate Grid<T>(g: seq<seq<T>>, cols: nat)
  {
    forall r :: 0 <= r < |g| ==> |g[r]| == cols
  }

  /** Column lists that stay inside the grid. */
  predicate InColumns(idx: seq<nat>, cols: nat)
  {
    forall t :: 0 <= t < |idx| ==> idx[t] < cols
  }

  /** `np.ma.mean` of one integration's channel entries: the mean of the
      unmasked ones, masked (`None`) when there are none. */
  function RowMean(row: seq<real>, mask: seq<bool>, idx: seq<nat>): (m: Option<real>)
    requires |mask| == |row| && forall t :: 0 <= t < |idx| ==> idx[t] < |row|
    ensures m.None? <==> forall t :: 0 <= t < |idx| ==> mask[idx[t]]
    ensures m.Some? ==> |Gather(row, mask, idx)| > 0 && m.value == Mean(Gather(row, mask, idx))
    ensures m.Some? ==> ChannelCount(mask, idx) > 0
  {
    GatherNonEmpty(row, mask, idx);
    GatherCount(row, mask, idx);
    var g := Gather(row, mask, idx);
    if |g| == 0 then None else Some(Mean(g))
  }

  /** The masked mean is the mean of the selection `row[index][~mask[index]]`:
      the unmasked channel entries in column-list order, each as often as its
      column is listed. */
  lemma RowMeanIsSelectionMean(row: seq<real>, mask: seq<bool>, idx: seq<nat>)
    requires |mask| == |row| && forall t :: 0 <= t < |idx| ==> idx[t] < |row|
    ensures RowMean(row, mask, idx).Some? ==> RowMean(row, mask, idx).value == Mean(Select(AtColumns(row, idx), GoodAt(mask, idx)))
  {
    GatherSelects(row, mask, idx);
  }

  /** `np.ma.mean(optspec_ma[:, index], axis=1)`: the channel flux of every
      integration. */
  function ChannelFlux(flux: seq<seq<real>>, mask: seq<seq<bool>>, idx: seq<nat>, cols: nat): (f: seq<Option<real>>)
    requires |mask| == |flux| && Grid(flux, cols) && Grid(mask, cols) && InColumns(idx, cols)
    ensures |f| == |flux|
    ensures forall r :: 0 <= r < |flux| ==> f[r] == RowMean(flux[r], mask[r], idx)
  {
    seq(|flux|, r requires 0 <= r < |flux| && |mask| == |flux| && Grid(flux, cols) && Grid(mask, cols) && InColumns(idx, cols) =>
          RowMean(flux[r], mask[r], idx))
  }

  /** Something is gathered exactly when some listed column is unmasked. */
  lemma GatherNonEmpty(row: seq<real>, mask: seq<bool>, idx: seq<nat>)
    requires |mask| == |row| && forall t :: 0 <= t < |idx| ==> idx[t] < |row|
    ensures |Gather(row, mask, idx)| > 0 <==> exists t :: 0 <= t < |idx| && !mask[idx[t]]
  {
    var g := Gather(row, mask, idx);
    if exists t :: 0 <= t < |idx| && !mask[idx[t]] {
      var t :| 0 <= t < |idx| && !mask[idx[t]];
      assert row[idx[t]] in g;
    }
    if |g| > 0 {
      assert g[0] in g;
    }
  }

  /** The sum of squares `np.ma.sum(x ** 2)`. */
  function SumSquares(s: seq<real>): (q: real)
    ensures q >= 0.0
  {
    if |s| == 0 then 0.0 else SumSquares(s[..|s| - 1]) + s[|s| - 1] * s[|s| - 1]
  }

  /** One integration's channel uncertainty: the unmasked uncertainties
      added in quadrature and divided by `total`; masked (`None`) when the
      channel has no unmasked entry. `sqrt` is the uninterpreted square root. */
  function RowErr(row: seq<real>, mask: seq<bool>, idx: seq<nat>, total: nat, sqrt: real -> real): (e: Option<real>)
    requires |mask| == |row| && forall t :: 0 <= t < |idx| ==> idx[t] < |row|
    requires (exists t :: 0 <= t < |idx| && !mask[idx[t]]) ==> total > 0
    ensures e.None? <==> forall t :: 0 <= t < |idx| ==> mask[idx[t]]
    ensures e.Some? ==> total > 0 && e.value * total as real == sqrt(SumSquares(Gather(row, mask, idx)))
  {
    GatherNonEmpty(row, mask, idx);
    var g := Gather(row, mask, idx);
    if |g| == 0 then None else Some(sqrt(SumSquares(g)) / total as real)
  }

  /** `np.sqrt(np.ma.sum(opterr_ma[:, index] ** 2, axis=1)) /
      np.ma.MaskedArray.count(opterr_ma)` for integration `r`: the divisor
      is the unmasked count of the WHOLE uncertainty grid (all integrations,
      all columns), not of the channel. */
  function ErrAt(err: seq<seq<real>>, mask: seq<seq<bool>>, idx: seq<nat>, cols: nat, sqrt: real -> real, r: nat)
    : (e: Option<real>)
    requires |mask| == |err| && Grid(err, cols) && Grid(mask, cols) && InColumns(idx, cols) && r < |err|
    ensures e.None? <==> forall t :: 0 <= t < |idx| ==> mask[r][idx[t]]
    ensures e.Some? ==> TotalUnmasked(mask) > 0
                        && e.value * TotalUnmasked(mask) as real == sqrt(SumSquares(Gather(err[r], mask[r], idx)))
  {
    ErrDenominator(err, mask, idx, cols, r);
    RowErr(err[r], mask[r], idx, TotalUnmasked(mask), sqrt)
  }

  /** The channel uncertainty of every integration, as written. */
  function ChannelErr(err: seq<seq<real>>, mask: seq<seq<bool>>, idx: seq<nat>, cols: nat,
                      sqrt: real -> real): (e: seq<Option<real>>)
    requires |mask| == |err| && Grid(err, cols) && Grid(mask, cols) && InColumns(idx, cols)
    ensures |e| == |err|
    ensures forall r :: 0 <= r < |err| ==> e[r] == ErrAt(err, mask, idx, cols, sqrt, r)
  {
    seq(|err|, r requires 0 <= r < |err| && |mask| == |err| && Grid(err, cols) && Grid(mask, cols) && InColumns(idx, cols) =>
          ErrAt(err, mask, idx, cols, sqrt, r))
  }

  /** When a channel has an unmasked entry in some integration, the
      whole-grid count is positive, so the uncertainty's division is defined. */
  lemma ErrDenominator(err: seq<seq<real>>, mask: seq<seq<bool>>, idx: seq<nat>, cols: nat, r: nat)
    requires |mask| == |err| && Grid(err, cols) && Grid(mask, cols) && InColumns(idx, cols) && r < |err|
    ensures |Gather(err[r], mask[r], idx)| > 0 <==> exists t :: 0 <= t < |idx| && !mask[r][idx[t]]
    ensures |Gather(err[r], mask[r], idx)| > 0 ==> TotalUnmasked(mask) > 0
  {
    GatherNonEmpty(err[r], mask[r], idx);
    if |Gather(err[r], mask[r], idx)| > 0 {
      var t :| 0 <= t < |idx| && !mask[r][idx[t]];
      UnmaskedPositive(mask[r], idx[t]);
      TotalCountsRow(mask, r);
    }
  }

  /** The uncertainty is masked in exactly the integrations where the flux is. */
  lemma ErrMaskedLikeFlux(flux: seq<seq<real>>, err: seq<seq<real>>, mask: seq<seq<bool>>, idx: seq<nat>, cols: nat,
                          sqrt: real -> real)
    requires |mask| == |flux| && |err| == |flux| && Grid(flux, cols) && Grid(err, cols) && Grid(mask, cols)
    requires InColumns(idx, cols)
    ensures forall r :: 0 <= r < |flux| ==>
              (ChannelFlux(flux, mask, idx, cols)[r].None? <==> ChannelErr(err, mask, idx, cols, sqrt)[r].None?)
  {
  }

  /** Masked entries do not contribute: two rows that agree on every unmasked
      entry gather the same values. */
  lemma {:induction false} GatherIgnoresMasked(row: seq<real>, row': seq<real>, mask: seq<bool>, idx: seq<nat>)
    requires |mask| == |row| && |row'| == |row| && forall t :: 0 <= t < |idx| ==> idx[t] < |row|
    requires forall k :: 0 <= k < |row| && !mask[k] ==> row[k] == row'[k]
    ensures Gather(row, mask, idx) == Gather(row', mask, idx)
  {
    if |idx| > 0 {
      GatherIgnoresMasked(row, row', mask, idx[..|idx| - 1]);
    }
  }

  /** Changing masked flux values leaves every channel flux unchanged. */
  lemma MaskedEntriesIgnored(flux: seq<seq<real>>, flux': seq<seq<real>>, mask: seq<seq<bool>>, idx: seq<nat>, cols: nat)
    requires |mask| == |flux| && |flux'| == |flux| && Grid(flux, cols) && Grid(flux', cols) && Grid(mask, cols)
    requires InColumns(idx, cols)
    requires forall r, k :: 0 <= r < |flux| && 0 <= k < cols && !mask[r][k] ==> flux[r][k] == flux'[r][k]
    ensures ChannelFlux(flux, mask, idx, cols) == ChannelFlux(flux', mask, idx, cols)
  {
    forall r | 0 <= r < |flux|
      ensures Gather(flux[r], mask[r], idx) == Gather(flux'[r], mask[r], idx)
    {
      GatherIgnoresMasked(flux[r], flux'[r], mask[r], idx);
    }
  }

  /** Without masked entries among the channel's columns the channel flux is
      the plain mean of those columns. */
  lemma {:induction false} GatherUnmasked(row: seq<real>, mask: seq<bool>, idx: seq<nat>)
    requires |mask| == |row| && forall t :: 0 <= t < |idx| ==> idx[t] < |row|
    requires forall t :: 0 <= t < |idx| ==> !mask[idx[t]]
    ensures Gather(row, mask, idx) == seq(|idx|, t requires 0 <= t < |idx| => row[idx[t]])
  {
    if |idx| > 0 {
      GatherUnmasked(row, mask, idx[..|idx| - 1]);
    }
  }

  /** The uncertainty is the quadrature sum divided by the whole-grid count,
      so it is the error of the channel mean, `sqrt(sum) / k` for `k`
      unmasked channel entries, scaled down by `k / count`. */
  lemma {:induction false} ErrScaledFromChannelMean(row: seq<real>, mask: seq<bool>, idx: seq<nat>, total: nat, sqrt: real -> real)
    requires |mask| == |row| && forall t :: 0 <= t < |idx| ==> idx[t] < |row|
    requires (exists t :: 0 <= t < |idx| && !mask[idx[t]]) ==> total > 0
    requires RowErr(row, mask, idx, total, sqrt).Some?
    ensures var g := Gather(row, mask, idx);
            |g| > 0 && total > 0
            && |g| == ChannelCount(mask, idx)
            && RowErr(row, mask, idx, total, sqrt).value
               == (sqrt(SumSquares(g)) / |g| as real) * (|g| as real / total as real)
  {
    var g := Gather(row, mask, idx);
    GatherNonEmpty(row, mask, idx);
    assert |g| == ChannelCount(mask, idx) by {
      GatherCount(row, mask, idx);
    }
    Cancel(RowErr(row, mask, idx, total, sqrt).value, sqrt(SumSquares(g)), |g| as real, total as real);
  }

  /** The evidently intended uncertainty of one integration's channel
      flux: the quadrature sum divided by the channel's OWN unmasked count,
      which is the uncertainty of the mean `RowMean` reports. */
  function RowErrOfMean(row: seq<real>, mask: seq<bool>, idx: seq<nat>, sqrt: real -> real): (e: Option<real>)
    requires |mask| == |row| && forall t :: 0 <= t < |idx| ==> idx[t] < |row|
    ensures e.None? <==> forall t :: 0 <= t < |idx| ==> mask[idx[t]]
    ensures e.Some? ==> |Gather(row, mask, idx)| > 0
                        && e.value * |Gather(row, mask, idx)| as real == sqrt(SumSquares(Gather(row, mask, idx)))
    ensures e.Some? ==> ChannelCount(mask, idx) > 0
                        && e.value * ChannelCount(mask, idx) as real == sqrt(SumSquares(Gather(row, mask, idx)))
  {
    GatherNonEmpty(row, mask, idx);
    GatherCount(row, mask, idx);
    var g := Gather(row, mask, idx);
    if |g| == 0 then None else Some(sqrt(SumSquares(g)) / |g| as real)
  }

  /** The corrected per-channel uncertainty of every integration. */
  function ChannelErrOfMean(err: seq<seq<real>>, mask: seq<seq<bool>>, idx: seq<nat>, cols: nat,
                            sqrt: real -> real): (e: seq<Option<real>>)
    requires |mask| == |err| && Grid(err, cols) && Grid(mask, cols) && InColumns(idx, cols)
    ensures |e| == |err|
    ensures forall r :: 0 <= r < |err| ==> e[r] == RowErrOfMean(err[r], mask[r], idx, sqrt)
  {
    seq(|err|, r requires 0 <= r < |err| && |mask| == |err| && Grid(err, cols) && Grid(mask, cols) && InColumns(idx, cols) =>
          RowErrOfMean(err[r], mask[r], idx, sqrt))
  }

  /** The corrected uncertainty is masked in exactly the integrations where
      the flux is. */
  lemma ErrOfMeanMaskedLikeFlux(flux: seq<seq<real>>, err: seq<seq<real>>, mask: seq<seq<bool>>, idx: seq<nat>,
                                cols: nat, sqrt: real -> real)
    requires |mask| == |flux| && |err| == |flux| && Grid(flux, cols) && Grid(err, cols) && Grid(mask, cols)
    requires InColumns(idx, cols)
    ensures forall r :: 0 <= r < |flux| ==>
              (ChannelFlux(flux, mask, idx, cols)[r].None? <==> ChannelErrOfMean(err, mask, idx, cols, sqrt)[r].None?)
  {
  }

  /** `sqrt` behaves as the square root on non-negative numbers. */
  ghost predicate IsSqrt(sqrt: real -> real)
  {
    forall x :: x >= 0.0 ==> sqrt(x) >= 0.0 && sqrt(x) * sqrt(x) == x
  }

  /** Every unmasked listed entry of `row` equals `sigma`. */
  predicate UniformErr(row: seq<real>, mask: seq<bool>, idx: seq<nat>, sigma: real)
    requires |mask| == |row| && forall t :: 0 <= t < |idx| ==> idx[t] < |row|
  {
    forall t :: 0 <= t < |idx| && !mask[idx[t]] ==> row[idx[t]] == sigma
  }

  /** With `k` unmasked entries of uncertainty `sigma`, the corrected
      uncertainty is that of a mean of `k` independent values: its square
      is `sigma^2 / k` (`k` is `ChannelCount`, by `GatherCount`). */
  lemma {:induction false} ErrOfMeanIsStandardError(row: seq<real>, mask: seq<bool>, idx: seq<nat>, sqrt: real -> real, sigma: real)
    requires |mask| == |row| && forall t :: 0 <= t < |idx| ==> idx[t] < |row|
    requires IsSqrt(sqrt) && UniformErr(row, mask, idx, sigma)
    requires RowErrOfMean(row, mask, idx, sqrt).Some?
    ensures var v := RowErrOfMean(row, mask, idx, sqrt).value;
            v >= 0.0 && v * v * |Gather(row, mask, idx)| as real == sigma * sigma
  {
    var g := Gather(row, mask, idx);
    var v := RowErrOfMean(row, mask, idx, sqrt).value;
    assert |g| > 0 && v * |g| as real == sqrt(SumSquares(g));
    GatheredUniform(row, mask, idx, sigma);
    assert v >= 0.0 && v * v * |g| as real == sigma * sigma by {
      UniformMeanErr(g, v, sqrt, sigma);
    }
  }

  /** The same entries under the divisor as written: the square of the
      uncertainty is `k * sigma^2 / total^2`. */
  lemma {:induction false} ErrAsWrittenWithUniformErr(row: seq<real>, mask: seq<bool>, idx: seq<nat>, total: nat, sqrt: real -> real,
                                   sigma: real)
    requires |mask| == |row| && forall t :: 0 <= t < |idx| ==> idx[t] < |row|
    requires (exists t :: 0 <= t < |idx| && !mask[idx[t]]) ==> total > 0
    requires IsSqrt(sqrt) && UniformErr(row, mask, idx, sigma)
    requires RowErr(row, mask, idx, total, sqrt).Some?
    ensures var v := RowErr(row, mask, idx, total, sqrt).value;
            v >= 0.0 && v * v * (total as real * total as real) == |Gather(row, mask, idx)| as real * (sigma * sigma)
  {
    var g := Gather(row, mask, idx);
    var v := RowErr(row, mask, idx, total, sqrt).value;
    assert total > 0 && v * total as real == sqrt(SumSquares(g));
    GatheredUniform(row, mask, idx, sigma);
    assert v >= 0.0 && v * v * (total as real * total as real) == |g| as real * (sigma * sigma) by {
      UniformWrittenErr(g, v, total, sqrt, sigma);
    }
  }

  /** Two integrations of one unmasked column with unit uncertainty: the
      channel mean of each integration has uncertainty 1, but the divisor as
      written counts both integrations and reports 1/2. */
  lemma {:induction false} ErrDivisorExample(sqrt: real -> real)
    requires IsSqrt(sqrt)
    ensures ChannelErr([[1.0], [1.0]], [[false], [false]], [0], 1, sqrt)[0] == Some(0.5)
    ensures ChannelErrOfMean([[1.0], [1.0]], [[false], [false]], [0], 1, sqrt)[0] == Some(1.0)
  {
    var mask := [[false], [false]];
    assert Gather([1.0], [false], [0]) == [1.0] by {
      assert [0][..0] == [];
    }
    assert SumSquares([1.0]) == 1.0 by {
      assert [1.0][..0] == [];
    }
    SqrtOne(sqrt);
    assert mask[..1] == [[false]];
    assert [[false]][..0] == [];
    assert [false][..0] == [];
    assert TotalUnmasked(mask) == 2;
  }

  lemma SqrtOne(sqrt: real -> real)
    requires IsSqrt(sqrt)
    ensures sqrt(1.0) == 1.0
  {
    RootSquare(sqrt, 1.0);
    UnitRoot(sqrt(1.0));
  }

  lemma RootSquare(sqrt: real -> real, x: real)
    requires IsSqrt(sqrt) && x >= 0.0
    ensures sqrt(x) >= 0.0 && sqrt(x) * sqrt(x) == x
  {
  }

  lemma UnitRoot(q: real)
    requires q >= 0.0 && q * q == 1.0
    ensures q == 1.0
  {
    if q > 1.0 {
      MulStrict(q, 1.0, q);
    } else if 0.0 < q < 1.0 {
      MulStrict(q, q, 1.0);
    }
  }

  lemma MulStrict(a: real, b: real, c: real)
    requires a > 0.0 && b < c
    ensures a * b < a * c
  {
  }

  /** The gathered entries are all `sigma`. */
  lemma {:induction false} GatheredUniform(row: seq<real>, mask: seq<bool>, idx: seq<nat>, sigma: real)
    requires |mask| == |row| && forall t :: 0 <= t < |idx| ==> idx[t] < |row|
    requires UniformErr(row, mask, idx, sigma)
    ensures forall i :: 0 <= i < |Gather(row, mask, idx)| ==> Gather(row, mask, idx)[i] == sigma
  {
    var g := Gather(row, mask, idx);
    forall i | 0 <= i < |g|
      ensures g[i] == sigma
    {
      assert g[i] in g;
      var t :| 0 <= t < |idx| && !mask[idx[t]] && row[idx[t]] == g[i];
    }
  }

  /** `k` copies of `sigma` added in quadrature and divided by `k`. */
  lemma {:induction false} UniformMeanErr(g: seq<real>, v: real, sqrt: real -> real, sigma: real)
    requires IsSqrt(sqrt) && |g| > 0 && forall i :: 0 <= i < |g| ==> g[i] == sigma
    requires v * |g| as real == sqrt(SumSquares(g))
    ensures v >= 0.0 && v * v * |g| as real == sigma * sigma
  {
    SumSquaresConstant(g, sigma);
    RootSquare(sqrt, SumSquares(g));
    MeanErrAlgebra(v, |g| as real, sqrt(SumSquares(g)), SumSquares(g), sigma * sigma);
  }

  /** `k` copies of `sigma` added in quadrature and divided by `total`. */
  lemma {:induction false} UniformWrittenErr(g: seq<real>, v: real, total: nat, sqrt: real -> real, sigma: real)
    requires IsSqrt(sqrt) && total > 0 && forall i :: 0 <= i < |g| ==> g[i] == sigma
    requires v * total as real == sqrt(SumSquares(g))
    ensures v >= 0.0 && v * v * (total as real * total as real) == |g| as real * (sigma * sigma)
  {
    SumSquaresConstant(g, sigma);
    RootSquare(sqrt, SumSquares(g));
    WrittenErrAlgebra(v, total as real, sqrt(SumSquares(g)), SumSquares(g));
  }

  lemma {:induction false} SumSquaresConstant(s: seq<real>, c: real)
    requires forall i :: 0 <= i < |s| ==> s[i] == c
    ensures SumSquares(s) == |s| as real * (c * c)
  {
    if |s| > 0 {
      SumSquaresConstant(s[..|s| - 1], c);
    }
  }

  /** From `v * k == q >= 0` and `q * q == k * c` with `k > 0`:
      `v >= 0` and `v * v * k == c`. */
  lemma MeanErrAlgebra(v: real, k: real, q: real, s: real, c: real)
    requires k > 0.0 && v * k == q && q >= 0.0 && q * q == s && s == k * c
    ensures v >= 0.0 && v * v * k == c
  {
    assert (v * k) * (v * k) == k * c;
    assert k * (v * v * k) == k * c;
  }

  /** From `v * t == q >= 0` with `t > 0`: `v >= 0` and
      `v * v * (t * t) == q * q`. */
  lemma WrittenErrAlgebra(v: real, t: real, q: real, s: real)
    requires t > 0.0 && v * t == q && q >= 0.0 && q * q == s
    ensures v >= 0.0 && v * v * (t * t) == s
  {
    assert (v * t) * (v * t) == q * q;
  }

  lemma Cancel(v: real, q: real, k: real, total: real)
    requires k != 0.0 && total != 0.0 && v * total == q
    ensures v == (q / k) * (k / total)
  {
    assert (q / k) * (k / total) == q / total;
  }
}
