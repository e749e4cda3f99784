/** The handful of NumPy and Python sequence operations the pipeline relies
    on, over exact reals: sums and means, `np.linspace`, Python slicing,
    boolean-mask indexing and reversal. */
module Arrays {

  /** `np.sum` of a one-dimensional array. */
  function Sum(s: seq<real>): real
  {
    if |s| == 0 then 0.0 else Sum(s[..|s| - 1]) + s[|s| - 1]
  }

  /** `np.mean` of a non-empty array (the mean of an empty array is NaN). */
  function Mean(s: seq<real>): real
    requires |s| > 0
  {
    Sum(s) / |s| as real
  }

  lemma {:induction false} SumAppend(a: seq<real>, b: seq<real>)
    ensures Sum(a + b) == Sum(a) + Sum(b)
    decreases |b|
  {
    if |b| == 0 {
      assert a + b == a;
    } else {
      var b' := b[..|b| - 1];
      assert (a + b)[..|a + b| - 1] == a + b';
      SumAppend(a, b');
    }
  }

  lemma SumSingleton(x: real)
    ensures Sum([x]) == x
  {
    assert [x][..0] == [];
  }

  /** `np.linspace(start, stop, num)` with its default `endpoint=True`: `num`
      evenly spaced values, the first equal to `start` and, when there are at
      least two, the last equal to `stop`. */
  function Linspace(start: real, stop: real, num: nat): (r: seq<real>)
    ensures |r| == num
    ensures num >= 1 ==> r[0] == start
    ensures num >= 2 ==> r[num - 1] == stop
  {
    if num == 0 then []
    else if num == 1 then [start]
    else
      var step := (stop - start) / (num - 1) as real;
      var r := seq(num, i => start + i as real * step);
      assert r[num - 1] == stop by {
        assert (num - 1) as real * step == stop - start;
      }
      r
  }

  /** With at least two values, consecutive values differ by one step
      `(stop - start) / (num - 1)`, so value `i` is `start + i * step`. */
  lemma LinspaceSteps(start: real, stop: real, num: nat)
    requires num >= 2
    ensures var step := (stop - start) / (num - 1) as real;
            && (forall i :: 0 <= i < num ==> Linspace(start, stop, num)[i] == start + i as real * step)
            && (forall i :: 0 <= i < num - 1 ==> Linspace(start, stop, num)[i + 1] - Linspace(start, stop, num)[i] == step)
  {
    var step := (stop - start) / (num - 1) as real;
    forall i | 0 <= i < num - 1
      ensures Linspace(start, stop, num)[i + 1] - Linspace(start, stop, num)[i] == step
    {
      assert (i + 1) as real * step == i as real * step + step;
    }
  }

  /** A Python slice bound `i` of a sequence of length `n`, after negative
      indices are counted from the end and the result is clamped to `[0, n]`. */
  function SliceBound(i: int, n: nat): (k: nat)
    ensures k <= n
  {
    if i < 0 then (if i + n < 0 then 0 else i + n)
    else if i > n then n
    else i
  }

  /** The Python slice `s[start:stop]`. */
  function PySlice<T>(s: seq<T>, start: int, stop: int): (r: seq<T>)
    ensures 0 <= start <= stop <= |s| ==> r == s[start..stop]
  {
    var a := SliceBound(start, |s|);
    var b := SliceBound(stop, |s|);
    if a <= b then s[a..b] else []
  }

  /** The number of `true` entries of a boolean array (`sum(mask)`). */
  function Count(m: seq<bool>): nat
  {
    if |m| == 0 then 0 else Count(m[..|m| - 1]) + (if m[|m| - 1] then 1 else 0)
  }

  /** Boolean-mask indexing `s[m]`: the entries of `s` whose mask entry is
      `true`, in their original order. */
  function Select<T>(s: seq<T>, m: seq<bool>): (r: seq<T>)
    requires |m| == |s|
    ensures |r| == Count(m)
  {
    if |s| == 0 then []
    else Select(s[..|s| - 1], m[..|m| - 1]) + (if m[|m| - 1] then [s[|s| - 1]] else [])
  }

  /** An entry is kept by a mask exactly when some position holding it is selected. */
  lemma {:induction false} SelectMembers<T>(s: seq<T>, m: seq<bool>, x: T)
    requires |m| == |s|
    ensures x in Select(s, m) <==> exists k :: 0 <= k < |s| && m[k] && s[k] == x
  {
    if |s| > 0 {
      var n := |s| - 1;
      SelectMembers(s[..n], m[..n], x);
      if exists k :: 0 <= k < n && m[..n][k] && s[..n][k] == x {
        var k :| 0 <= k < n && m[..n][k] && s[..n][k] == x;
        assert m[k] && s[k] == x;
      }
      if exists k :: 0 <= k < |s| && m[k] && s[k] == x {
        var k :| 0 <= k < |s| && m[k] && s[k] == x;
        if k < n {
          assert m[..n][k] && s[..n][k] == x;
        }
      }
    }
  }

  /** The reversal `s[::-1]`. */
  function Reverse<T>(s: seq<T>): (r: seq<T>)
    ensures |r| == |s|
    ensures forall i :: 0 <= i < |s| ==> r[i] == s[|s| - 1 - i]
  {
    seq(|s|, i requires 0 <= i < |s| => s[|s| - 1 - i])
  }

  /** Reversing twice gives back the original array. */
  lemma ReverseInvolution<T>(s: seq<T>)
    ensures Reverse(Reverse(s)) == s
  {
  }
}
