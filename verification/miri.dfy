/** MIRI-specific loading in Stage 3: the integration slices, the hard-coded
    simulated time stamps, the wavelength grid, and the 90-degree rotation
    that turns a MIRI exposure (dispersion along detector rows, DISPAXIS 2)
    into the NIRCam layout (dispersion along columns, wavelength increasing
    left to right), so that the NIRCam extraction code can be reused.

    Arrays are nested sequences carrying their numpy shape explicitly: a
    cube of shape (N, A, B) holds N integrations of A rows of B columns. */
module Miri {
  import opened Floats
  import opened Arrays

  /** Height of the MIRI subarray the wavelength list is padded to. */
  const DETECTOR_ROWS: int := 416
  /** Number of hard-coded integration time stamps of the simulated data. */
  const SIM_INTEGRATIONS: nat := 1680
  /** Last hard-coded time stamp (`1.73562874e+04`). */
  const SIM_LAST_TIME: real := 17356.2874

  /** `f` has `a` rows of `b` columns. */
  predicate IsFrame<T>(f: seq<seq<T>>, a: nat, b: nat)
  {
    |f| == a && forall i :: 0 <= i < a ==> |f[i]| == b
  }

  /** A numpy array of shape (|frames|, rows, cols). */
  datatype Cube<T> = Cube(frames: seq<seq<seq<T>>>, rows: nat, cols: nat)
  {
    predicate Valid()
    {
      forall n :: 0 <= n < |frames| ==> IsFrame(frames[n], rows, cols)
    }

    /** Same number of integrations and the same frame shape. */
    predicate SameShape<U>(other: Cube<U>)
    {
      |frames| == |other.frames| && rows == other.rows && cols == other.cols
    }
  }

  /** One frame of `np.swapaxes(x, 1, 2)[:, :, ::-1]`: transpose, then
      reverse each row. */
  function RotateFrame<T>(f: seq<seq<T>>, a: nat, b: nat): (g: seq<seq<T>>)
    requires IsFrame(f, a, b)
    ensures IsFrame(g, b, a)
    ensures forall i, j :: 0 <= i < b && 0 <= j < a ==> g[i][j] == f[a - 1 - j][i]
  {
    seq(b, i requires 0 <= i < b && IsFrame(f, a, b) =>
      seq(a, j requires 0 <= j < a && 0 <= i < b && IsFrame(f, a, b) => f[a - 1 - j][i]))
  }

  /** `np.swapaxes(x, 1, 2)[:, :, ::-1]` on a whole cube: shape (N, A, B)
      becomes (N, B, A), and the pixel at row `i`, column `j` of the result
      is the pixel at row `A - 1 - j`, column `i` of the input. */
  function Rotate<T>(c: Cube<T>): (r: Cube<T>)
    requires c.Valid()
    ensures r.Valid() && |r.frames| == |c.frames| && r.rows == c.cols && r.cols == c.rows
    ensures forall n, i, j :: 0 <= n < |c.frames| && 0 <= i < c.cols && 0 <= j < c.rows ==>
              r.frames[n][i][j] == c.frames[n][c.rows - 1 - j][i]
  {
    var fs := seq(|c.frames|, n requires 0 <= n < |c.frames| && c.Valid() =>
                RotateFrame(c.frames[n], c.rows, c.cols));
    Cube(fs, c.cols, c.rows)
  }

  /** The inverse rotation: the pixel at row `k`, column `i` is taken from
      row `i`, column `B - 1 - k` of a cube of shape (N, A, B). */
  function Unrotate<T>(c: Cube<T>): (r: Cube<T>)
    requires c.Valid()
    ensures r.Valid() && |r.frames| == |c.frames| && r.rows == c.cols && r.cols == c.rows
    ensures forall n, k, i :: 0 <= n < |c.frames| && 0 <= k < c.cols && 0 <= i < c.rows ==>
              r.frames[n][k][i] == c.frames[n][i][c.cols - 1 - k]
  {
    var fs := seq(|c.frames|, n requires 0 <= n < |c.frames| && c.Valid() =>
                seq(c.cols, k requires 0 <= k < c.cols && 0 <= n < |c.frames| && c.Valid() =>
                  seq(c.rows, i requires 0 <= i < c.rows && 0 <= k < c.cols && 0 <= n < |c.frames| && c.Valid() =>
                    c.frames[n][i][c.cols - 1 - k])));
    Cube(fs, c.cols, c.rows)
  }

  /** Two cubes of the same shape with the same pixels are equal. */
  lemma CubeExt<T>(c: Cube<T>, d: Cube<T>)
    requires c.Valid() && d.Valid() && c.SameShape(d)
    requires forall n, i, j :: 0 <= n < |c.frames| && 0 <= i < c.rows && 0 <= j < c.cols ==>
               c.frames[n][i][j] == d.frames[n][i][j]
    ensures c == d
  {
    forall n | 0 <= n < |c.frames|
      ensures c.frames[n] == d.frames[n]
    {
      forall i | 0 <= i < c.rows
        ensures c.frames[n][i] == d.frames[n][i]
      {
      }
    }
  }

  /** The rotation loses nothing: undoing it gives back the cube, and every
      cube is the rotation of its unrotation. */
  lemma RotateRoundTrip<T>(c: Cube<T>)
    requires c.Valid()
    ensures Unrotate(Rotate(c)) == c
    ensures Rotate(Unrotate(c)) == c
  {
    CubeExt(Unrotate(Rotate(c)), c);
    CubeExt(Rotate(Unrotate(c)), c);
  }

  /** Rotating twice turns the frame upside down and left to right. */
  lemma {:induction false} RotateHalfTurn<T>(c: Cube<T>)
    requires c.Valid()
    ensures var h := Rotate(Rotate(c));
            h.Valid() && c.SameShape(h)
            && forall n, i, j :: 0 <= n < |c.frames| && 0 <= i < c.rows && 0 <= j < c.cols ==>
                 h.frames[n][i][j] == c.frames[n][c.rows - 1 - i][c.cols - 1 - j]
  {
    var r := Rotate(c);
    var h := Rotate(r);
    forall n, i, j | 0 <= n < |c.frames| && 0 <= i < c.rows && 0 <= j < c.cols
      ensures h.frames[n][i][j] == c.frames[n][c.rows - 1 - i][c.cols - 1 - j]
    {
      assert h.frames[n][i][j] == r.frames[n][c.cols - 1 - j][i];
    }
  }

  /** Four rotations are the identity. */
  lemma FullTurn<T>(c: Cube<T>)
    requires c.Valid()
    ensures Rotate(Rotate(Rotate(Rotate(c)))) == c
  {
    var h := Rotate(Rotate(c));
    RotateHalfTurn(c);
    RotateHalfTurn(h);
    var f := Rotate(Rotate(h));
    forall n, i, j | 0 <= n < |c.frames| && 0 <= i < c.rows && 0 <= j < c.cols
      ensures f.frames[n][i][j] == c.frames[n][i][j]
    {
      assert f.frames[n][i][j] == h.frames[n][c.rows - 1 - i][c.cols - 1 - j];
    }
    CubeExt(f, c);
  }

  /** Pixel-wise pairing of two cubes of the same shape. */
  function Zip<T, U>(c: Cube<T>, d: Cube<U>): (z: Cube<(T, U)>)
    requires c.Valid() && d.Valid() && c.SameShape(d)
    ensures z.Valid() && z.SameShape(c)
    ensures forall n, i, j :: 0 <= n < |c.frames| && 0 <= i < c.rows && 0 <= j < c.cols ==>
              z.frames[n][i][j] == (c.frames[n][i][j], d.frames[n][i][j])
  {
    var fs := seq(|c.frames|, n requires 0 <= n < |c.frames| && c.Valid() && d.Valid() && c.SameShape(d) =>
                seq(c.rows, i requires 0 <= i < c.rows && 0 <= n < |c.frames| && c.Valid() && d.Valid() && c.SameShape(d) =>
                  seq(c.cols, j requires 0 <= j < c.cols && 0 <= i < c.rows && 0 <= n < |c.frames| && c.Valid() && d.Valid() && c.SameShape(d) =>
                    (c.frames[n][i][j], d.frames[n][i][j]))));
    Cube(fs, c.rows, c.cols)
  }

  /** Rotating two cubes separately moves their pixels together: the pair
      found at a position of the rotated cubes is the pair that sat together
      in the original cubes. This is what keeps `data`, `err`, `dq` and `v0`
      aligned. */
  lemma RotateKeepsAlignment<T, U>(c: Cube<T>, d: Cube<U>)
    requires c.Valid() && d.Valid() && c.SameShape(d)
    ensures Rotate(Zip(c, d)) == Zip(Rotate(c), Rotate(d))
  {
    CubeExt(Rotate(Zip(c, d)), Zip(Rotate(c), Rotate(d)));
  }

  /** The four cubes a MIRI file provides. */
  datatype Exposure = Exposure(data: Cube<real>, err: Cube<real>, dq: Cube<int>, v0: Cube<real>)
  {
    /** All four are well-formed and share one shape. */
    predicate Aligned()
    {
      data.Valid() && err.Valid() && dq.Valid() && v0.Valid()
      && data.SameShape(err) && data.SameShape(dq) && data.SameShape(v0)
    }
  }

  /** A two-element extraction window `[lo, hi]`; pixels `lo <= p < hi` are
      used downstream. */
  datatype Window = Window(lo: int, hi: int)

  predicate InWindow(w: Window, p: int)
  {
    w.lo <= p < w.hi
  }

  /** `shape - temp[::-1]`: the window on the old row axis expressed on the
      new, reversed column axis of length `a`. */
  function RemapWindow(w: Window, a: int): (r: Window)
    ensures r.hi - r.lo == w.hi - w.lo
    ensures 0 <= w.lo <= w.hi <= a ==> 0 <= r.lo <= r.hi <= a
  {
    Window(a - w.hi, a - w.lo)
  }

  /** Remapping twice with the same axis length gives back the window. */
  lemma RemapWindowInvolution(w: Window, a: int)
    ensures RemapWindow(RemapWindow(w, a), a) == w
  {
  }

  /** A row lies in the old window exactly when its rotated column lies in
      the remapped window. */
  lemma RemapWindowTracksRows(w: Window, a: nat, row: int)
    ensures InWindow(w, row) <==> InWindow(RemapWindow(w, a), a - 1 - row)
  {
  }

  /** The exposure and the extraction windows after the orientation step. */
  datatype Oriented = Oriented(exp: Exposure, ywindow: Window, xwindow: Window)

  /** Lines 66-74 of `read`: when `DISPAXIS == 2` rotate the four cubes
      and move the windows with them (the new `ywindow` is the old
      `xwindow`, the new `xwindow` is the old `ywindow` remapped on the old
      row count); otherwise leave everything as it is. */
  function Reorient(e: Exposure, dispaxis: int, ywindow: Window, xwindow: Window): (o: Oriented)
    requires e.Aligned()
    ensures o.exp.Aligned()
    ensures dispaxis != 2 ==> o == Oriented(e, ywindow, xwindow)
    ensures dispaxis == 2 ==>
              o.exp.data.rows == e.data.cols && o.exp.data.cols == e.data.rows
              && |o.exp.data.frames| == |e.data.frames|
              && o.ywindow == xwindow
              && o.xwindow.hi - o.xwindow.lo == ywindow.hi - ywindow.lo
  {
    if dispaxis == 2 then
      var a := e.data.rows;
      Oriented(Exposure(Rotate(e.data), Rotate(e.err), Rotate(e.dq), Rotate(e.v0)),
               xwindow, RemapWindow(ywindow, a))
    else
      Oriented(e, ywindow, xwindow)
  }

  /** After a rotation, every pixel of the four cubes at `(n, i, j)` comes
      from the same old position `(n, A - 1 - j, i)`, and it lies inside the
      new windows exactly when its old position lay inside the old ones. */
  lemma ReorientSelectsSamePixels(e: Exposure, ywindow: Window, xwindow: Window, n: nat, i: nat, j: nat)
    requires e.Aligned()
    requires n < |e.data.frames| && i < e.data.cols && j < e.data.rows
    ensures var o := Reorient(e, 2, ywindow, xwindow);
            var r := e.data.rows - 1 - j;
            && o.exp.data.frames[n][i][j] == e.data.frames[n][r][i]
            && o.exp.err.frames[n][i][j] == e.err.frames[n][r][i]
            && o.exp.dq.frames[n][i][j] == e.dq.frames[n][r][i]
            && o.exp.v0.frames[n][i][j] == e.v0.frames[n][r][i]
            && (InWindow(o.ywindow, i) && InWindow(o.xwindow, j)
                <==> InWindow(ywindow, r) && InWindow(xwindow, i))
  {
    RemapWindowTracksRows(ywindow, e.data.rows, e.data.rows - 1 - j);
  }

  /** `np.tile(lam, (ncols, 1))[:, ::-1]`: `ncols` rows, each the
      wavelength list reversed. */
  function WaveGrid(lam: seq<Option<real>>, ncols: nat): (w: seq<seq<Option<real>>>)
    ensures |w| == ncols
    ensures forall i :: 0 <= i < ncols ==> Reverse(w[i]) == lam
  {
    ReverseInvolution(lam);
    seq(ncols, i requires 0 <= i < ncols => Reverse(lam))
  }

  /** With one wavelength per detector row, the rotated frame and the
      wavelength grid line up: column `j` of the rotated data, in any row,
      carries the wavelength of the detector row it came from. */
  lemma WaveFollowsRotation(c: Cube<real>, lam: seq<Option<real>>, n: nat, i: nat, j: nat)
    requires c.Valid() && |lam| == c.rows
    requires n < |c.frames| && i < c.cols && j < c.rows
    ensures var w := WaveGrid(lam, c.cols);
            var r := c.rows - 1 - j;
            |w| == Rotate(c).rows && |w[i]| == Rotate(c).cols
            && Rotate(c).frames[n][i][j] == c.frames[n][r][i]
            && w[i][j] == lam[r]
  {
    var w := WaveGrid(lam, c.cols);
    assert w[i] == Reverse(lam);
  }

  /** `x[intstart - 1:intend]`: FITS integration numbers are 1-based and
      inclusive. */
  function IntegrationSlice<T>(s: seq<T>, intstart: int, intend: int): (r: seq<T>)
    ensures 1 <= intstart <= intend <= |s| ==>
              |r| == intend - intstart + 1
              && forall k :: 0 <= k < |r| ==> r[k] == s[intstart - 1 + k]
    ensures |r| <= |s|
  {
    PySlice(s, intstart - 1, intend)
  }

  /** Integration 0 is not a FITS integration number: the start index
      becomes -1, which Python reads as the last entry, so the slice keeps
      at most that one entry. */
  lemma IntStartZero<T>(s: seq<T>, intend: int)
    requires |s| > 0
    ensures intend < |s| ==> IntegrationSlice(s, 0, intend) == []
    ensures intend >= |s| ==> IntegrationSlice(s, 0, intend) == [s[|s| - 1]]
  {
  }

  /** The hard-coded simulated time stamps. */
  function SimTimes(): (t: seq<real>)
    ensures |t| == SIM_INTEGRATIONS
    ensures forall k :: 0 <= k < SIM_INTEGRATIONS ==>
              t[k] == k as real * (SIM_LAST_TIME / (SIM_INTEGRATIONS - 1) as real)
  {
    LinspaceSteps(0.0, SIM_LAST_TIME, SIM_INTEGRATIONS);
    Linspace(0.0, SIM_LAST_TIME, SIM_INTEGRATIONS)
  }

  /** `bjdtdb` for integrations `intstart..intend` (1-based, inclusive). */
  function BjdTdb(intstart: int, intend: int): (t: seq<real>)
    ensures 1 <= intstart <= intend <= SIM_INTEGRATIONS ==>
              |t| == intend - intstart + 1
              && forall k :: 0 <= k < |t| ==>
                   t[k] == (intstart - 1 + k) as real * (SIM_LAST_TIME / (SIM_INTEGRATIONS - 1) as real)
  {
    IntegrationSlice(SimTimes(), intstart, intend)
  }

  /** The time stamps and the integration-time table are cut with the same
      indices, so a full-length table gives one time stamp per kept row. */
  lemma TimesMatchIntTimes<T>(intTimes: seq<T>, intstart: int, intend: int)
    requires |intTimes| == SIM_INTEGRATIONS
    ensures |IntegrationSlice(intTimes, intstart, intend)| == |BjdTdb(intstart, intend)|
  {
  }

  /** `[nan] * k`, which is empty for `k <= 0`. */
  function Nans(k: int): (r: seq<Option<real>>)
    ensures |r| == (if k <= 0 then 0 else k)
    ensures forall i :: 0 <= i < |r| ==> r[i] == None
  {
    if k <= 0 then [] else [None] + Nans(k - 1)
  }

  /** The measured wavelengths as present values. */
  function Present(lamx: seq<real>): (r: seq<Option<real>>)
    ensures |r| == |lamx| && forall i :: 0 <= i < |lamx| ==> r[i] == Some(lamx[i])
  {
    seq(|lamx|, i requires 0 <= i < |lamx| => Some(lamx[i]))
  }

  /** Line 91 of `wave_MIRI`: `y0` NaNs, the measured list, and
      `416 - ylast - 1` NaNs, where `y0` and `ylast` are the first and last
      detector rows of the bounding box (already truncated to integers). */
  function PadWave(lamx: seq<real>, y0: int, ylast: int): (p: seq<Option<real>>)
    ensures |p| == |Nans(y0)| + |lamx| + |Nans(DETECTOR_ROWS - ylast - 1)|
    ensures forall i :: 0 <= i < |Nans(y0)| ==> p[i] == None
    ensures forall i :: 0 <= i < |lamx| ==> p[|Nans(y0)| + i] == Some(lamx[i])
    ensures forall i :: |Nans(y0)| + |lamx| <= i < |p| ==> p[i] == None
  {
    Nans(y0) + Present(lamx) + Nans(DETECTOR_ROWS - ylast - 1)
  }

  /** The values of the entries that are not NaN, in order. */
  function Values(p: seq<Option<real>>): seq<real>
  {
    if |p| == 0 then []
    else (if p[0].Some? then [p[0].value] else []) + Values(p[1..])
  }

  lemma {:induction false} ValuesAppend(p: seq<Option<real>>, q: seq<Option<real>>)
    ensures Values(p + q) == Values(p) + Values(q)
  {
    if |p| > 0 {
      ValuesAppend(p[1..], q);
      assert (p + q)[1..] == p[1..] + q;
    } else {
      assert p + q == q;
    }
  }

  lemma {:induction false} ValuesNans(k: int)
    ensures Values(Nans(k)) == []
  {
    if k > 0 {
      ValuesNans(k - 1);
    }
  }

  lemma {:induction false} ValuesPresent(lamx: seq<real>)
    ensures Values(Present(lamx)) == lamx
  {
    if |lamx| > 0 {
      ValuesPresent(lamx[1..]);
      assert Present(lamx)[1..] == Present(lamx[1..]);
    }
  }

  /** Padding only adds NaNs: dropping them gives back the measured list. */
  lemma PadWaveValues(lamx: seq<real>, y0: int, ylast: int)
    ensures Values(PadWave(lamx, y0, ylast)) == lamx
  {
    var a, b := Nans(y0), Nans(DETECTOR_ROWS - ylast - 1);
    ValuesAppend(a + Present(lamx), b);
    ValuesAppend(a, Present(lamx));
    ValuesNans(y0);
    ValuesNans(DETECTOR_ROWS - ylast - 1);
    ValuesPresent(lamx);
  }

  /** When the bounding box lies on the detector and the measured list has
      one entry per bounding-box row, the padded list has one entry per
      detector row, and row `k` holds a wavelength exactly when it is inside
      the bounding box, namely the one measured for it. */
  lemma PadWaveFullHeight(lamx: seq<real>, y0: int, ylast: int)
    requires 0 <= y0 && ylast < DETECTOR_ROWS && |lamx| == ylast - y0 + 1
    ensures |PadWave(lamx, y0, ylast)| == DETECTOR_ROWS
    ensures forall k :: 0 <= k < DETECTOR_ROWS ==>
              (PadWave(lamx, y0, ylast)[k].Some? <==> y0 <= k <= ylast)
    ensures forall k :: y0 <= k <= ylast ==> PadWave(lamx, y0, ylast)[k] == Some(lamx[k - y0])
  {
    var p := PadWave(lamx, y0, ylast);
    forall k | y0 <= k <= ylast
      ensures p[k] == Some(lamx[k - y0])
    {
      assert p[|Nans(y0)| + (k - y0)] == Some(lamx[k - y0]);
    }
  }
}
