/** `computeRMS`: the binned-RMS ("Allan deviation") diagnostic of fit
    residuals. For every bin size the residuals are cut into consecutive,
    non-overlapping bins (a trailing partial bin is dropped), each bin is
    averaged, and the RMS of the bin means is compared with the white-noise
    expectation `std(data) / sqrt(binsz) * sqrt(nbins / (nbins - 1))`.

    Square roots are transcendental, so the model reports every RMS and
    standard error SQUARED; an entry NumPy would compute as NaN or infinity
    is `None`. */
module Rms {
  import opened Floats
  import opened Arrays
  import opened Likelihood

  /** The three arrays `computeRMS` returns, with the fourth (`rmserr`) that
      it returns when `isrmserr` is set, all squared. */
  datatype RmsTable = RmsTable(rmsSq: seq<Option<real>>, stderrSq: seq<Option<real>>,
                               binsz: seq<nat>, rmserrSq: seq<Option<real>>)

  /** The values `b, b + step, b + 2 step, …` that are below `stop`. */
  function BinSizesFrom(b: nat, stop: real, step: nat): (bs: seq<nat>)
    requires step >= 1
    ensures forall i :: 0 <= i < |bs| ==> bs[i] == b + i * step && (bs[i] as real) < stop
    ensures ((b + |bs| * step) as real) >= stop
    decreases stop.Floor - b
  {
    if (b as real) < stop then
      var rest := BinSizesFrom(b + step, stop, step);
      assert forall i :: 1 <= i < |rest| + 1 ==> b + step + (i - 1) * step == b + i * step;
      assert b + step + |rest| * step == b + (|rest| + 1) * step;
      [b] + rest
    else []
  }

  /** `maxnbins`, defaulting to `npts / 10.` when it is not given. */
  function MaxBins(npts: nat, maxnbins: Option<real>): real
  {
    if maxnbins.None? then npts as real / 10.0 else maxnbins.value
  }

  /** `np.arange(1, maxnbins + binstep, step=binstep, dtype=int)`. */
  function BinSizes(maxnbins: real, binstep: nat): (bs: seq<nat>)
    requires binstep >= 1
  {
    BinSizesFrom(1, maxnbins + binstep as real, binstep)
  }

  /** The number of full bins of size `b`, `int(np.floor(data.size / binsz[i]))`. */
  function NBins(n: nat, b: nat): nat
    requires b >= 1
  {
    n / b
  }

  /** The full bins of size `b`, front to back. */
  function Chunks(data: seq<real>, b: nat): (cs: seq<seq<real>>)
    requires b >= 1
    ensures forall j :: 0 <= j < |cs| ==> |cs[j]| == b
    decreases |data|
  {
    if |data| < b then [] else [data[..b]] + Chunks(data[b..], b)
  }

  /** The trailing partial bin that `computeRMS` ignores. */
  function Dropped(data: seq<real>, b: nat): seq<real>
    requires b >= 1
    decreases |data|
  {
    if |data| < b then data else Dropped(data[b..], b)
  }

  /** The concatenation of a sequence of bins. */
  function Concat(cs: seq<seq<real>>): seq<real>
  {
    if |cs| == 0 then [] else cs[0] + Concat(cs[1..])
  }

  /** There are `floor(n / b)` full bins. */
  lemma {:induction false} ChunksCount(data: seq<real>, b: nat)
    requires b >= 1
    ensures |Chunks(data, b)| == NBins(|data|, b)
    decreases |data|
  {
    if |data| >= b {
      ChunksCount(data[b..], b);
      DivStep(|data|, b);
    }
  }

  lemma DivStep(n: nat, b: nat)
    requires 1 <= b <= n
    ensures (n - b) / b + 1 == n / b
  {
    var q := (n - b) / b;
    var r := (n - b) % b;
    assert n - b == q * b + r && 0 <= r < b;
    assert n == q * b + b + r;
    MulAddOne(q, b);
    DivUnique(n, b, q + 1, r);
  }

  lemma MulAddOne(q: int, b: int)
    ensures q * b + b == (q + 1) * b
  {
  }

  /** Division is determined by quotient and remainder. */
  lemma DivUnique(n: nat, b: nat, k: nat, r: nat)
    requires b >= 1 && r < b && n == k * b + r
    ensures n / b == k
  {
    var q := n / b;
    var s := n % b;
    assert n == q * b + s && 0 <= s < b;
    if q > k {
      MulMono(k + 1, q, b);
      MulAddOne(k, b);
      assert false;
    } else if q < k {
      MulMono(q + 1, k, b);
      MulAddOne(q, b);
      assert false;
    }
  }

  lemma MulMono(x: nat, y: nat, b: nat)
    requires x <= y
    ensures x * b <= y * b
  {
  }

  /** There is at least one full bin exactly when the bin size does not
      exceed the number of points. */
  lemma NBinsPositive(n: nat, b: nat)
    requires b >= 1
    ensures NBins(n, b) >= 1 <==> b <= n
  {
    if b <= n {
      DivStep(n, b);
    }
  }

  /** Bin `j` holds exactly the points `data[j * b:(j + 1) * b]`. */
  lemma {:induction false} ChunkAt(data: seq<real>, b: nat, j: nat)
    requires b >= 1 && j < |Chunks(data, b)|
    ensures j * b + b <= |data|
    ensures Chunks(data, b)[j] == data[j * b..j * b + b]
    decreases j
  {
    if j > 0 {
      ChunkAt(data[b..], b, j - 1);
      assert (j - 1) * b + b == j * b;
    }
  }

  /** The bins are consecutive and non-overlapping: laid end to end and
      followed by the dropped tail they give back the data, and the dropped
      tail is shorter than one bin. */
  lemma {:induction false} ChunksPartition(data: seq<real>, b: nat)
    requires b >= 1
    ensures Concat(Chunks(data, b)) + Dropped(data, b) == data
    ensures |Dropped(data, b)| < b
    decreases |data|
  {
    if |data| >= b {
      ChunksPartition(data[b..], b);
      var cs := Chunks(data, b);
      assert cs[1..] == Chunks(data[b..], b);
      assert data == data[..b] + data[b..];
    }
  }

  /** `bindata`: the mean of every bin of size `b`. */
  function BinMeans(data: seq<real>, b: nat): (m: seq<real>)
    requires b >= 1
    ensures |m| == |Chunks(data, b)|
  {
    MeansOf(Chunks(data, b))
  }

  /** The mean of every bin. */
  function MeansOf(cs: seq<seq<real>>): (m: seq<real>)
    requires forall j :: 0 <= j < |cs| ==> |cs[j]| > 0
    ensures |m| == |cs|
  {
    seq(|cs|, j requires 0 <= j < |cs| && |cs[j]| > 0 => Mean(cs[j]))
  }

  /** `np.mean(bindata ** 2)`, the squared RMS of the bin means. */
  function MeanSquare(s: seq<real>): (ms: real)
    requires |s| > 0
    ensures ms >= 0.0
  {
    var sq := seq(|s|, i requires 0 <= i < |s| => Square(s[i]));
    SumNonNegative(sq);
    Mean(sq)
  }

  lemma {:induction false} SumNonNegative(s: seq<real>)
    requires forall i :: 0 <= i < |s| ==> s[i] >= 0.0
    ensures Sum(s) >= 0.0
  {
    if |s| > 0 {
      SumNonNegative(s[..|s| - 1]);
    }
  }

  /** `data.var()`, the population variance (`data.std()` squared). */
  function Variance(data: seq<real>): real
    requires |data| > 0
  {
    var mu := Mean(data);
    Mean(seq(|data|, i requires 0 <= i < |data| => Square(data[i] - mu)))
  }

  /** `rms[i] ** 2`: the mean square of the bin means, NaN (`None`) when
      there is no full bin. */
  function RmsSqAt(data: seq<real>, b: nat): (r: Option<real>)
    requires b >= 1
    ensures r.Some? <==> b <= |data|
    ensures r.Some? ==> r.value >= 0.0
  {
    NBinsPositive(|data|, b);
    ChunksCount(data, b);
    if NBins(|data|, b) == 0 then None else Some(MeanSquare(BinMeans(data, b)))
  }

  /** `rmserr[i] ** 2 = rms[i] ** 2 / (2 * nbins[i])`. */
  function RmsErrSqAt(data: seq<real>, b: nat): (r: Option<real>)
    requires b >= 1
    ensures r.Some? <==> RmsSqAt(data, b).Some?
    ensures r.Some? ==> r.value * (2 * NBins(|data|, b)) as real == RmsSqAt(data, b).value
  {
    var rms := RmsSqAt(data, b);
    NBinsPositive(|data|, b);
    if rms.None? then None
    else
      var d := (2 * NBins(|data|, b)) as real;
      DivMul(rms.value, d);
      Some(rms.value / d)
  }

  lemma DivMul(x: real, d: real)
    requires d != 0.0
    ensures (x / d) * d == x
  {
  }

  /** `stderr[i] ** 2 = data.var() / binsz[i] * (nbins[i] / (nbins[i] - 1.))`;
      NaN for empty data and infinite for a single bin (`None`). With no full
      bin the factor is `0 / -1`, a zero. */
  function StderrSqAt(data: seq<real>, b: nat): (r: Option<real>)
    requires b >= 1
    ensures r.None? <==> |data| == 0 || NBins(|data|, b) == 1
    ensures r.Some? && NBins(|data|, b) == 0 ==> r.value == 0.0
  {
    var nb := NBins(|data|, b);
    if |data| == 0 || nb == 1 then None
    else Some(Variance(data) / b as real * (nb as real / (nb - 1) as real))
  }

  /** `computeRMS(data, maxnbins, binstep, isrmserr=True)`, squared. */
  function ComputeRms(data: seq<real>, maxnbins: Option<real>, binstep: nat): (t: RmsTable)
    requires binstep >= 1
    ensures |t.rmsSq| == |t.binsz| && |t.stderrSq| == |t.binsz| && |t.rmserrSq| == |t.binsz|
    ensures forall i :: 0 <= i < |t.binsz| ==>
              t.binsz[i] == 1 + i * binstep
              && (t.binsz[i] as real) < MaxBins(|data|, maxnbins) + binstep as real
    ensures ((1 + |t.binsz| * binstep) as real) >= MaxBins(|data|, maxnbins) + binstep as real
    ensures forall i :: 0 <= i < |t.binsz| ==>
              t.binsz[i] >= 1
              && t.rmsSq[i] == RmsSqAt(data, t.binsz[i])
              && t.rmserrSq[i] == RmsErrSqAt(data, t.binsz[i])
              && t.stderrSq[i] == StderrSqAt(data, t.binsz[i])
  {
    var bs := BinSizes(MaxBins(|data|, maxnbins), binstep);
    assert forall i :: 0 <= i < |bs| ==> bs[i] >= 1;
    RmsTable(seq(|bs|, i requires 0 <= i < |bs| => RmsSqAt(data, bs[i])),
             seq(|bs|, i requires 0 <= i < |bs| => StderrSqAt(data, bs[i])),
             bs,
             seq(|bs|, i requires 0 <= i < |bs| => RmsErrSqAt(data, bs[i])))
  }

  /** With bins of size 1 every bin mean is the data point itself. */
  lemma {:induction false} BinSizeOneIsIdentity(data: seq<real>)
    ensures BinMeans(data, 1) == data
  {
    var m := BinMeans(data, 1);
    ChunksCount(data, 1);
    forall j | 0 <= j < |data|
      ensures m[j] == data[j]
    {
      ChunkAt(data, 1, j);
      assert Chunks(data, 1)[j] == [data[j]];
      SumSingleton(data[j]);
    }
  }

  /** The bin means carry the whole kept prefix: their sum times the bin
      size plus the sum of the dropped tail is the sum of the data. */
  lemma {:induction false} BinMeansSum(data: seq<real>, b: nat)
    requires b >= 1
    ensures Sum(BinMeans(data, b)) * b as real + Sum(Dropped(data, b)) == Sum(data)
  {
    KeptSum(data, b);
    KeptScale(data, b);
  }

  lemma {:induction false} KeptSum(data: seq<real>, b: nat)
    requires b >= 1
    ensures Sum(data) == Sum(Concat(Chunks(data, b))) + Sum(Dropped(data, b))
  {
    ChunksPartition(data, b);
    SumAppend(Concat(Chunks(data, b)), Dropped(data, b));
  }

  lemma {:induction false} KeptScale(data: seq<real>, b: nat)
    requires b >= 1
    ensures Sum(Concat(Chunks(data, b))) == Sum(BinMeans(data, b)) * b as real
  {
    ConcatScale(Chunks(data, b), b);
  }

  /** Bins of a common size `b` sum to `b` times the sum of their means. */
  lemma {:induction false} ConcatScale(cs: seq<seq<real>>, b: nat)
    requires b >= 1 && forall j :: 0 <= j < |cs| ==> |cs[j]| == b
    ensures Sum(Concat(cs)) == Sum(MeansOf(cs)) * b as real
  {
    MeansScale(cs, b);
    ConcatSum(cs);
  }

  lemma {:induction false} MeansScale(cs: seq<seq<real>>, b: nat)
    requires b >= 1 && forall j :: 0 <= j < |cs| ==> |cs[j]| == b
    ensures Sum(BinSums(cs)) == Sum(MeansOf(cs)) * b as real
  {
    var sums := BinSums(cs);
    var m := MeansOf(cs);
    forall j | 0 <= j < |m|
      ensures sums[j] == m[j] * b as real
    {
      MeanTimesLength(cs[j]);
    }
    SumScale(m, sums, b as real);
  }

  /** The sum of every bin. */
  function BinSums(cs: seq<seq<real>>): (t: seq<real>)
    ensures |t| == |cs| && forall j :: 0 <= j < |cs| ==> t[j] == Sum(cs[j])
  {
    seq(|cs|, j requires 0 <= j < |cs| => Sum(cs[j]))
  }

  lemma {:induction false} ConcatSum(cs: seq<seq<real>>)
    ensures Sum(Concat(cs)) == Sum(BinSums(cs))
  {
    if |cs| > 0 {
      ConcatSum(cs[1..]);
      SumAppend(cs[0], Concat(cs[1..]));
      assert BinSums(cs) == [Sum(cs[0])] + BinSums(cs[1..]);
      SumAppend([Sum(cs[0])], BinSums(cs[1..]));
      SumSingleton(Sum(cs[0]));
    }
  }

  lemma {:induction false} SumScale(s: seq<real>, t: seq<real>, w: real)
    requires |t| == |s| && forall j :: 0 <= j < |s| ==> t[j] == s[j] * w
    ensures Sum(t) == Sum(s) * w
  {
    if |s| > 0 {
      var n := |s| - 1;
      SumScale(s[..n], t[..n], w);
      Distribute(Sum(s), Sum(s[..n]), s[n], w);
    }
  }

  lemma Distribute(s: real, x: real, y: real, w: real)
    requires s == x + y
    ensures s * w == x * w + y * w
  {
  }

  lemma {:induction false} MeanTimesLength(s: seq<real>)
    requires |s| > 0
    ensures Mean(s) * |s| as real == Sum(s)
  {
    DivMul(Sum(s), |s| as real);
  }

  lemma {:induction false} SumConstant(s: seq<real>, c: real)
    requires forall i :: 0 <= i < |s| ==> s[i] == c
    ensures Sum(s) == |s| as real * c
  {
    if |s| > 0 {
      SumConstant(s[..|s| - 1], c);
    }
  }

  /** The alternating series used by the worked example below. */
  function Alternating(): seq<real>
  {
    [1.0, -1.0, 1.0, -1.0, 1.0, -1.0]
  }

  /** The worked case of an alternating series: bin sizes 1, 2 and 3; unit
      RMS for single points; zero RMS for pairs, which cancel exactly. */
  lemma AlternatingExample()
    ensures var t := ComputeRms(Alternating(), Some(3.0), 1);
            && t.binsz == [1, 2, 3]
            && t.rmsSq[0] == Some(1.0)
            && t.rmsSq[1] == Some(0.0)
  {
    AlternatingBinSizes();
    AlternatingSingles();
    AlternatingPairs();
  }

  lemma AlternatingBinSizes()
    ensures BinSizes(3.0, 1) == [1, 2, 3]
  {
    assert BinSizesFrom(4, 4.0, 1) == [];
    assert BinSizesFrom(3, 4.0, 1) == [3];
    assert BinSizesFrom(2, 4.0, 1) == [2, 3];
  }

  lemma AlternatingSingles()
    ensures RmsSqAt(Alternating(), 1) == Some(1.0)
  {
    var data := Alternating();
    BinSizeOneIsIdentity(data);
    var sq := seq(6, i requires 0 <= i < 6 => Square(data[i]));
    SumConstant(sq, 1.0);
  }

  lemma AlternatingPairs()
    ensures RmsSqAt(Alternating(), 2) == Some(0.0)
  {
    var data := Alternating();
    var m2 := BinMeans(data, 2);
    PairMeans();
    var sq2 := seq(3, i requires 0 <= i < 3 => Square(m2[i]));
    SumConstant(sq2, 0.0);
  }

  lemma PairMeans()
    ensures BinMeans(Alternating(), 2) == [0.0, 0.0, 0.0]
  {
    var data := Alternating();
    var m2 := BinMeans(data, 2);
    var cs := Chunks(data, 2);
    ChunksCount(data, 2);
    forall j | 0 <= j < 3
      ensures m2[j] == 0.0
    {
      ChunkAt(data, 2, j);
      assert cs[j] == [1.0, -1.0];
      SumAppend([1.0], [-1.0]);
      SumSingleton(1.0);
      SumSingleton(-1.0);
    }
  }
}
