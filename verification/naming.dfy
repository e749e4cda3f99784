/** Stage 4 naming: the Stage 3 input directory of one aperture pair, the
    two output file names, and the aperture pairs the stage loops over.

    Paths are strings split on the platform separator `sep` (`os.sep`). The
    half-widths are non-negative integers rendered with `str`. */
module Naming {
  import opened Arrays

  /** Python `s.split(sep)` for a one-character separator: always at least
      one field, empty fields kept. */
  function Split(s: string, sep: char): (parts: seq<string>)
    ensures |parts| >= 1
  {
    if |s| == 0 then [""]
    else
      var rest := Split(s[1..], sep);
      if s[0] == sep then [""] + rest
      else [[s[0]] + rest[0]] + rest[1..]
  }

  /** No field of a split contains the separator. */
  lemma {:induction false} SplitFieldsNoSep(s: string, sep: char)
    ensures forall k :: 0 <= k < |Split(s, sep)| ==> sep !in Split(s, sep)[k]
  {
    if |s| > 0 {
      SplitFieldsNoSep(s[1..], sep);
    }
  }

  /** Python `sep.join(parts)`. */
  function Join(parts: seq<string>, sep: char): string
  {
    if |parts| == 0 then ""
    else if |parts| == 1 then parts[0]
    else parts[0] + [sep] + Join(parts[1..], sep)
  }

  /** Joining the fields of a split gives back the string. */
  lemma {:induction false} JoinSplit(s: string, sep: char)
    ensures Join(Split(s, sep), sep) == s
  {
    if |s| > 0 {
      var rest := Split(s[1..], sep);
      JoinSplit(s[1..], sep);
      if s[0] == sep {
        assert ([""] + rest)[1..] == rest;
      } else if |rest| > 1 {
        assert ([[s[0]] + rest[0]] + rest[1..])[1..] == rest[1..];
      }
      assert s == [s[0]] + s[1..];
    }
  }

  /** A string without the separator is one field. */
  lemma {:induction false} SplitNoSep(s: string, sep: char)
    requires sep !in s
    ensures Split(s, sep) == [s]
  {
    if |s| > 0 {
      SplitNoSep(s[1..], sep);
      assert s == [s[0]] + s[1..];
    }
  }

  /** Splitting at a separator splits the two sides independently. */
  lemma {:induction false} SplitAppend(a: string, b: string, sep: char)
    ensures Split(a + [sep] + b, sep) == Split(a, sep) + Split(b, sep)
  {
    if |a| == 0 {
      assert a + [sep] + b == [sep] + b;
      SplitCons(sep, b, sep);
    } else {
      var a' := a[1..];
      SplitAppend(a', b, sep);
      assert a + [sep] + b == [a[0]] + (a' + [sep] + b);
      assert a == [a[0]] + a';
      SplitAppendStep(a[0], a', a' + [sep] + b, b, sep);
    }
  }

  /** One step of `SplitAppend`: a character in front of both sides. */
  lemma SplitAppendStep(c: char, a: string, t: string, b: string, sep: char)
    requires Split(t, sep) == Split(a, sep) + Split(b, sep)
    ensures Split([c] + t, sep) == Split([c] + a, sep) + Split(b, sep)
  {
    SplitCons(c, t, sep);
    SplitCons(c, a, sep);
    if c != sep {
      JoinFirst(c, Split(a, sep), Split(b, sep));
    }
  }

  /** How `Split` treats its first character. */
  lemma SplitCons(c: char, t: string, sep: char)
    ensures Split([c] + t, sep)
            == if c == sep then [""] + Split(t, sep)
               else [[c] + Split(t, sep)[0]] + Split(t, sep)[1..]
  {
    assert ([c] + t)[1..] == t;
  }

  /** Prepending to the first field commutes with appending more fields. */
  lemma JoinFirst(c: char, p: seq<string>, q: seq<string>)
    requires |p| >= 1
    ensures [[c] + (p + q)[0]] + (p + q)[1..] == [[c] + p[0]] + p[1..] + q
  {
    assert (p + q)[1..] == p[1..] + q;
  }

  /** Fields without separators survive a join and a split. */
  lemma {:induction false} SplitJoin(parts: seq<string>, sep: char)
    requires |parts| >= 1 && forall k :: 0 <= k < |parts| ==> sep !in parts[k]
    ensures Split(Join(parts, sep), sep) == parts
  {
    if |parts| == 1 {
      SplitNoSep(parts[0], sep);
    } else {
      SplitJoin(parts[1..], sep);
      SplitNoSep(parts[0], sep);
      SplitAppend(parts[0], Join(parts[1..], sep), sep);
    }
  }

  /** The decimal digit of `d`. */
  function Digit(d: nat): char
    requires d < 10
  {
    "0123456789"[d]
  }

  /** `str(n)` for a non-negative integer. */
  function Decimal(n: nat): (s: string)
    ensures |s| >= 1
    ensures forall k :: 0 <= k < |s| ==> '0' <= s[k] <= '9'
  {
    if n < 10 then [Digit(n)] else Decimal(n / 10) + [Digit(n % 10)]
  }

  /** The value of a string of decimal digits. */
  function ParseDecimal(s: string): nat
    requires forall k :: 0 <= k < |s| ==> '0' <= s[k] <= '9'
  {
    if |s| == 0 then 0
    else ParseDecimal(s[..|s| - 1]) * 10 + ((s[|s| - 1] as int) - ('0' as int))
  }

  /** Reading back a rendered integer gives the integer. */
  lemma {:induction false} DecimalRoundTrip(n: nat)
    ensures ParseDecimal(Decimal(n)) == n
  {
    var s := Decimal(n);
    if n >= 10 {
      DecimalRoundTrip(n / 10);
      assert s[..|s| - 1] == Decimal(n / 10);
    }
  }

  /** Distinct integers render differently. */
  lemma DecimalInjective(m: nat, n: nat)
    requires Decimal(m) == Decimal(n)
    ensures m == n
  {
    DecimalRoundTrip(m);
    DecimalRoundTrip(n);
  }

  /** The aperture-pair directory name `f'ap{spec_hw}_bg{bg_hw}'`. */
  function ApTag(specHw: nat, bgHw: nat): string
  {
    "ap" + Decimal(specHw) + "_bg" + Decimal(bgHw)
  }

  /** `load_specific_s3_meta_info`: drop the last two separator-delimited
      fields of the input directory (`split(os.sep)[:-2]`), rejoin, and append
      `os.sep + 'ap{spec_hw}_bg{bg_hw}' + os.sep`. */
  function RewriteInputDir(inputdir: string, sep: char, specHw: nat, bgHw: nat): (d: string)
    ensures |d| > 0 && d[|d| - 1] == sep
    ensures exists base :: d == base + [sep] + ApTag(specHw, bgHw) + [sep]
  {
    var parts := Split(inputdir, sep);
    var base := Join(PySlice(parts, 0, -2), sep);
    base + [sep] + ApTag(specHw, bgHw) + [sep]
  }

  /** A directory of the form `base/field/` has its `field` replaced by the
      new aperture tag and keeps its `base`. */
  lemma ReplacesLastField(base: string, field: string, sep: char, specHw: nat, bgHw: nat)
    requires sep !in field
    ensures RewriteInputDir(base + [sep] + field + [sep], sep, specHw, bgHw)
            == base + [sep] + ApTag(specHw, bgHw) + [sep]
  {
    var dir := base + [sep] + field + [sep];
    assert dir == base + [sep] + (field + [sep] + "");
    SplitAppend(base, field + [sep] + "", sep);
    SplitAppend(field, "", sep);
    SplitNoSep(field, sep);
    var parts := Split(dir, sep);
    assert parts == Split(base, sep) + [field, ""];
    assert PySlice(parts, 0, -2) == Split(base, sep);
    JoinSplit(base, sep);
  }

  /** The tag is free of separators for any separator that is not one of
      its letters, digits or the underscore. */
  lemma ApTagNoSep(specHw: nat, bgHw: nat, sep: char)
    requires sep !in "apbg_" && !('0' <= sep <= '9')
    ensures sep !in ApTag(specHw, bgHw)
  {
    var t := ApTag(specHw, bgHw);
    forall k | 0 <= k < |t|
      ensures t[k] != sep
    {
      var a, b := Decimal(specHw), Decimal(bgHw);
      assert t == "ap" + a + "_bg" + b;
      if k < 2 {
      } else if k < 2 + |a| {
        assert t[k] == a[k - 2];
      } else if k < 2 + |a| + 3 {
      } else {
        assert t[k] == b[k - 5 - |a|];
      }
    }
  }

  /** Rewriting for one aperture pair and then another gives the directory
      of the second pair: the loop over aperture pairs does not accumulate
      tags, provided the directory handed back for the next pair is the
      rewritten one. */
  lemma RewriteLatestWins(inputdir: string, sep: char, s1: nat, b1: nat, s2: nat, b2: nat)
    requires sep !in "apbg_" && !('0' <= sep <= '9')
    ensures RewriteInputDir(RewriteInputDir(inputdir, sep, s1, b1), sep, s2, b2)
            == RewriteInputDir(inputdir, sep, s2, b2)
  {
    var base := Join(PySlice(Split(inputdir, sep), 0, -2), sep);
    ApTagNoSep(s1, b1, sep);
    ReplacesLastField(base, ApTag(s1, b1), sep, s2, b2);
  }

  /** `event_ap_bg = eventlabel + '_ap' + str(spec_hw) + '_bg' + str(bg_hw)`. */
  function EventApBg(eventlabel: string, specHw: nat, bgHw: nat): string
  {
    eventlabel + "_" + ApTag(specHw, bgHw)
  }

  /** `outputdir + 'S4_' + event_ap_bg + '_SpecData.h5'`. */
  function SpecDataName(outputdir: string, eventlabel: string, specHw: nat, bgHw: nat): string
  {
    outputdir + "S4_" + EventApBg(eventlabel, specHw, bgHw) + "_SpecData.h5"
  }

  /** `outputdir + 'S4_' + event_ap_bg + '_LCData.h5'`. */
  function LCDataName(outputdir: string, eventlabel: string, specHw: nat, bgHw: nat): string
  {
    outputdir + "S4_" + EventApBg(eventlabel, specHw, bgHw) + "_LCData.h5"
  }

  /** The two output files share everything up to their suffix and are
      never the same file. */
  lemma OutputNamesDiffer(outputdir: string, eventlabel: string, specHw: nat, bgHw: nat)
    ensures var stem := outputdir + "S4_" + EventApBg(eventlabel, specHw, bgHw);
            && SpecDataName(outputdir, eventlabel, specHw, bgHw) == stem + "_SpecData.h5"
            && LCDataName(outputdir, eventlabel, specHw, bgHw) == stem + "_LCData.h5"
            && SpecDataName(outputdir, eventlabel, specHw, bgHw) != LCDataName(outputdir, eventlabel, specHw, bgHw)
  {
    var stem := outputdir + "S4_" + EventApBg(eventlabel, specHw, bgHw);
    assert |stem + "_SpecData.h5"| != |stem + "_LCData.h5"|;
  }

  /** Different aperture pairs give different tags. */
  lemma ApTagInjective(s1: nat, b1: nat, s2: nat, b2: nat)
    requires ApTag(s1, b1) == ApTag(s2, b2)
    ensures s1 == s2 && b1 == b2
  {
    var d1, d2 := Decimal(s1), Decimal(s2);
    var e1, e2 := Decimal(b1), Decimal(b2);
    assert ApTag(s1, b1) == "ap" + (d1 + "_bg" + e1);
    assert ApTag(s2, b2) == "ap" + (d2 + "_bg" + e2);
    StripPrefix("ap", d1 + "_bg" + e1, d2 + "_bg" + e2);
    FirstUnderscore(d1, e1, d2, e2);
    DecimalInjective(s1, s2);
    DecimalInjective(b1, b2);
  }

  /** Two digit strings followed by `_bg` and more digits split the same way. */
  lemma FirstUnderscore(d1: string, e1: string, d2: string, e2: string)
    requires forall k :: 0 <= k < |d1| ==> '0' <= d1[k] <= '9'
    requires forall k :: 0 <= k < |d2| ==> '0' <= d2[k] <= '9'
    requires d1 + "_bg" + e1 == d2 + "_bg" + e2
    ensures d1 == d2 && e1 == e2
  {
    var t := d1 + "_bg" + e1;
    assert t[|d1|] == '_';
    assert (d2 + "_bg" + e2)[|d2|] == '_';
    assert |d1| == |d2|;
    assert d1 == t[..|d1|] == d2;
    assert e1 == t[|d1| + 3..] == e2;
  }

  /** Within one output directory and event, distinct aperture pairs write
      distinct files. */
  lemma OutputNamesPerPair(outputdir: string, eventlabel: string, s1: nat, b1: nat, s2: nat, b2: nat)
    requires (s1, b1) != (s2, b2)
    ensures SpecDataName(outputdir, eventlabel, s1, b1) != SpecDataName(outputdir, eventlabel, s2, b2)
    ensures LCDataName(outputdir, eventlabel, s1, b1) != LCDataName(outputdir, eventlabel, s2, b2)
  {
    var p := outputdir + "S4_" + eventlabel + "_";
    StemIsPrefixedTag(outputdir, eventlabel, s1, b1);
    StemIsPrefixedTag(outputdir, eventlabel, s2, b2);
    if SpecDataName(outputdir, eventlabel, s1, b1) == SpecDataName(outputdir, eventlabel, s2, b2) {
      StripAffixes(p, ApTag(s1, b1), ApTag(s2, b2), "_SpecData.h5");
      ApTagInjective(s1, b1, s2, b2);
    }
    if LCDataName(outputdir, eventlabel, s1, b1) == LCDataName(outputdir, eventlabel, s2, b2) {
      StripAffixes(p, ApTag(s1, b1), ApTag(s2, b2), "_LCData.h5");
      ApTagInjective(s1, b1, s2, b2);
    }
  }

  lemma StripPrefix(p: string, x: string, y: string)
    requires p + x == p + y
    ensures x == y
  {
    assert x == (p + x)[|p|..];
  }

  /** The stem of both output names is a fixed prefix followed by the tag. */
  lemma StemIsPrefixedTag(outputdir: string, eventlabel: string, specHw: nat, bgHw: nat)
    ensures outputdir + "S4_" + EventApBg(eventlabel, specHw, bgHw)
            == (outputdir + "S4_" + eventlabel + "_") + ApTag(specHw, bgHw)
  {
  }

  lemma StripAffixes(p: string, x: string, y: string, q: string)
    requires p + x + q == p + y + q
    ensures x == y
  {
    assert |x| == |y|;
    assert x == (p + x + q)[|p|..|p| + |x|];
    assert y == (p + y + q)[|p|..|p| + |y|];
  }

  /** `spec_hw_range` and `bg_hw_range`: collapsed to the single configured
      half-widths when `allapers` is false. */
  function ApertureRanges(allapers: bool, specHw: nat, bgHw: nat, specRange: seq<nat>, bgRange: seq<nat>)
    : (r: (seq<nat>, seq<nat>))
    ensures !allapers ==> r == ([specHw], [bgHw])
    ensures allapers ==> r == (specRange, bgRange)
  {
    if allapers then (specRange, bgRange) else ([specHw], [bgHw])
  }

  /** The pairs visited by the nested loops, spectral half-width outermost. */
  function Runs(specRange: seq<nat>, bgRange: seq<nat>): (runs: seq<(nat, nat)>)
    ensures |runs| == |specRange| * |bgRange|
  {
    if |specRange| == 0 then []
    else
      var row := seq(|bgRange|, j requires 0 <= j < |bgRange| => (specRange[0], bgRange[j]));
      row + Runs(specRange[1..], bgRange)
  }

  /** Visit `i * |bg| + j` is the pair of the `i`-th spectral and `j`-th
      background half-width. */
  lemma {:induction false} RunsAt(specRange: seq<nat>, bgRange: seq<nat>, i: nat, j: nat)
    requires i < |specRange| && j < |bgRange|
    ensures i * |bgRange| + j < |Runs(specRange, bgRange)|
    ensures Runs(specRange, bgRange)[i * |bgRange| + j] == (specRange[i], bgRange[j])
  {
    MulBound(i, j, |specRange|, |bgRange|);
    if i > 0 {
      RunsAt(specRange[1..], bgRange, i - 1, j);
      MulShift(i, |bgRange|);
    }
  }

  lemma MulBound(i: nat, j: nat, n: nat, m: nat)
    requires i < n && j < m
    ensures i * m + j < n * m
  {
    assert (i + 1) * m <= n * m;
  }

  lemma MulShift(i: nat, m: nat)
    requires i > 0
    ensures i * m == m + (i - 1) * m
  {
  }

  /** Without `allapers` there is exactly one visit, with the configured pair. */
  lemma SingleAperture(specHw: nat, bgHw: nat, specRange: seq<nat>, bgRange: seq<nat>)
    ensures var r := ApertureRanges(false, specHw, bgHw, specRange, bgRange);
            Runs(r.0, r.1) == [(specHw, bgHw)]
  {
  }
}
