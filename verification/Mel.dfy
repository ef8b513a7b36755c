/** The mel filterbank (crates/stackchan-audio-features/src/mel.rs) over the reals: overlapping
    triangles between neighbouring centres, and the matrix product that pools a spectrum. The
    mel-to-hertz curve is a parameter, of which only its rise matters. */
module Mel {
  const MEL_BIN_COUNT: nat := 40
  const FFT_BIN_COUNT: nat := 257

  function BinHz(bin: nat): real { bin as real * 16000.0 / 512.0 }

  /** One triangle: zero outside (left, right), rising to one at `centre` and falling from it. */
  function Triangle(left: real, centre: real, right: real, f: real): real
    requires left < centre < right
  {
    if f <= left || f >= right then 0.0
    else if f <= centre then (f - left) / (centre - left)
    else (right - f) / (right - centre)
  }

  ghost predicate Increasing(c: seq<real>) { forall i, j :: 0 <= i < j < |c| ==> c[i] < c[j] }

  /** Filter `m` of the bank over centres `c`; its peak is at `c[m + 1]`. */
  function Weight(c: seq<real>, m: nat, f: real): real
    requires m + 2 < |c| && c[m] < c[m + 1] < c[m + 2]
  {
    Triangle(c[m], c[m + 1], c[m + 2], f)
  }

  // ---- Partition of unity ----

  lemma Ratio(a: real, b: real)
    requires 0.0 <= a <= b && 0.0 < b
    ensures 0.0 <= a / b <= 1.0
    ensures a / b == 0.0 <==> a == 0.0
    ensures a / b == 1.0 <==> a == b
  {
  }

  lemma RatiosSumToOne(a: real, b: real, d: real)
    requires 0.0 < d && a + b == d
    ensures a / d + b / d == 1.0
  {
  }

  lemma WeightBounds(c: seq<real>, m: nat, f: real)
    requires Increasing(c) && m + 2 < |c|
    ensures 0.0 <= Weight(c, m, f) <= 1.0
    ensures Weight(c, m, f) != 0.0 <==> c[m] < f < c[m + 2]
    ensures Weight(c, m, f) == 1.0 <==> f == c[m + 1]
  {
    if c[m] < f <= c[m + 1] {
      Ratio(f - c[m], c[m + 1] - c[m]);
    } else if c[m + 1] < f < c[m + 2] {
      Ratio(c[m + 2] - f, c[m + 2] - c[m + 1]);
    }
  }

  /** No frequency is in the band of two filters that are not neighbours. */
  lemma AtMostTwoNeighbours(c: seq<real>, m: nat, n: nat, f: real)
    requires Increasing(c) && m <= n && n + 2 < |c|
    requires Weight(c, m, f) != 0.0 && Weight(c, n, f) != 0.0
    ensures n <= m + 1
  {
    WeightBounds(c, m, f);
    WeightBounds(c, n, f);
  }

  /** The first `m` filters' total weight at `f`. */
  function Coverage(c: seq<real>, m: nat, f: real): real
    requires Increasing(c) && m + 1 < |c|
  {
    if m == 0 then 0.0 else Coverage(c, m - 1, f) + Weight(c, m - 1, f)
  }

  /** In closed form: a trapezoid that is one from the first centre to the last. */
  lemma {:induction false} CoverageTrapezoid(c: seq<real>, m: nat, f: real)
    requires Increasing(c) && 1 <= m && m + 1 < |c|
    ensures Coverage(c, m, f) ==
            if f <= c[0] || c[m + 1] <= f then 0.0
            else if f < c[1] then (f - c[0]) / (c[1] - c[0])
            else if f <= c[m] then 1.0
            else (c[m + 1] - f) / (c[m + 1] - c[m])
  {
    WeightBounds(c, m - 1, f);
    if m > 1 {
      CoverageTrapezoid(c, m - 1, f);
      if c[m - 1] < f < c[m] {
        RatiosSumToOne(c[m] - f, f - c[m - 1], c[m] - c[m - 1]);
      }
    } else {
      assert Coverage(c, 1, f) == Coverage(c, 0, f) + Weight(c, 0, f) == Weight(c, 0, f);
    }
  }

  /** The weights at `f` never sum above one, and sum to one exactly between the first filter's
      centre and the last filter's. */
  lemma PartitionOfUnity(c: seq<real>, f: real)
    requires Increasing(c) && 3 <= |c|
    ensures 0.0 <= Coverage(c, |c| - 2, f) <= 1.0
    ensures Coverage(c, |c| - 2, f) == 1.0 <==> c[1] <= f <= c[|c| - 2]
  {
    var m := |c| - 2;
    CoverageTrapezoid(c, m, f);
    if c[0] < f < c[1] {
      Ratio(f - c[0], c[1] - c[0]);
    } else if c[m] < f < c[m + 1] {
      Ratio(c[m + 1] - f, c[m + 1] - c[m]);
    }
  }

  // ---- Pooling a spectrum ----

  function Total(xs: seq<real>): real {
    if xs == [] then 0.0 else Total(xs[..|xs| - 1]) + xs[|xs| - 1]
  }

  /** What filter `m` takes of a magnitude `g` at `f`. */
  function Part(c: seq<real>, m: nat, f: real, g: real): real
    requires Increasing(c) && m + 2 < |c|
  {
    Weight(c, m, f) * g
  }

  /** Filter `m` applied to the spectrum `mag`, whose bin `b` sits at `BinHz(b)`. */
  function Band(c: seq<real>, m: nat, mag: seq<real>): real
    requires Increasing(c) && m + 2 < |c|
  {
    if mag == [] then 0.0 else
      var b := |mag| - 1;
      Band(c, m, mag[..b]) + Part(c, m, BinHz(b), mag[b])
  }

  function Bands(c: seq<real>, mag: seq<real>): (out: seq<real>)
    requires Increasing(c) && 2 <= |c|
    ensures |out| == |c| - 2 && forall m :: 0 <= m < |out| ==> out[m] == Band(c, m, mag)
  {
    seq(|c| - 2, m requires 0 <= m < |c| - 2 => Band(c, m, mag))
  }

  /** What the first `m` filters together take of a magnitude `g` at `f`. */
  function Share(c: seq<real>, m: nat, f: real, g: real): real
    requires Increasing(c) && m + 1 < |c|
  {
    Coverage(c, m, f) * g
  }

  /** What bin by bin the first `m` filters collect together. */
  function Collected(c: seq<real>, m: nat, mag: seq<real>): real
    requires Increasing(c) && m + 1 < |c|
  {
    if mag == [] then 0.0 else
      var b := |mag| - 1;
      Collected(c, m, mag[..b]) + Share(c, m, BinHz(b), mag[b])
  }

  lemma ShareStep(c: seq<real>, m: nat, f: real, g: real)
    requires Increasing(c) && m + 2 < |c|
    ensures Share(c, m + 1, f, g) == Share(c, m, f, g) + Part(c, m, f, g)
  {
    Distribute(Coverage(c, m, f), Weight(c, m, f), g);
  }

  lemma Distribute(x: real, y: real, g: real)
    ensures (x + y) * g == x * g + y * g
  {
  }

  lemma {:induction false} CollectedStep(c: seq<real>, m: nat, mag: seq<real>)
    requires Increasing(c) && m + 2 < |c|
    ensures Collected(c, m + 1, mag) == Collected(c, m, mag) + Band(c, m, mag)
  {
    if mag == [] {
    } else {
      hide Share, Part, BinHz;
      var b := |mag| - 1;
      CollectedStep(c, m, mag[..b]);
      ShareStep(c, m, BinHz(b), mag[b]);
    }
  }

  lemma {:induction false} CollectedNone(c: seq<real>, mag: seq<real>)
    requires Increasing(c) && 1 < |c|
    ensures Collected(c, 0, mag) == 0.0
  {
    if mag == [] {
    } else {
      CollectedNone(c, mag[..|mag| - 1]);
      assert 0.0 * mag[|mag| - 1] == 0.0;
    }
  }

  /** Summing over filters first or over bins first is the same. */
  lemma {:induction false} BandsTotal(c: seq<real>, m: nat, mag: seq<real>)
    requires Increasing(c) && m + 1 < |c|
    ensures Total(Bands(c, mag)[..m]) == Collected(c, m, mag)
  {
    if m == 0 {
      CollectedNone(c, mag);
    } else {
      BandsTotal(c, m - 1, mag);
      CollectedStep(c, m - 1, mag);
      assert Bands(c, mag)[..m][..m - 1] == Bands(c, mag)[..m - 1];
    }
  }

  /** Bin `b` of the spectrum is empty or sits between the first and the last filter's centre. */
  predicate BinCovered(c: seq<real>, mag: seq<real>, b: nat)
    requires 3 <= |c| && b < |mag|
  {
    mag[b] != 0.0 ==> c[1] <= BinHz(b) <= c[|c| - 2]
  }

  ghost predicate Supported(c: seq<real>, mag: seq<real>)
    requires 3 <= |c|
  {
    forall b :: 0 <= b < |mag| ==> BinCovered(c, mag, b)
  }

  lemma CoveredBinKept(c: seq<real>, f: real, g: real)
    requires Increasing(c) && 3 <= |c|
    ensures (g != 0.0 ==> c[1] <= f <= c[|c| - 2]) ==> Share(c, |c| - 2, f, g) == g
    ensures 0.0 <= g ==> 0.0 <= Share(c, |c| - 2, f, g) <= g
    ensures 0.0 < g && !(c[1] <= f <= c[|c| - 2]) ==> Share(c, |c| - 2, f, g) < g
  {
    PartitionOfUnity(c, f);
    ScaleBounds(Coverage(c, |c| - 2, f), g, Share(c, |c| - 2, f, g));
    hide Share, Coverage;
  }

  lemma ScaleBounds(x: real, g: real, kept: real)
    requires 0.0 <= x <= 1.0 && kept == x * g
    ensures x == 1.0 || g == 0.0 ==> kept == g
    ensures 0.0 <= g ==> 0.0 <= kept <= g
    ensures 0.0 < g && x < 1.0 ==> kept < g
  {
    if 0.0 < g && x < 1.0 {
      assert g - kept == (1.0 - x) * g;
    }
  }

  lemma SupportedSplit(c: seq<real>, mag: seq<real>)
    requires 3 <= |c| && mag != []
    ensures Supported(c, mag) <==> Supported(c, mag[..|mag| - 1]) && BinCovered(c, mag, |mag| - 1)
  {
    var b := |mag| - 1;
    forall k | 0 <= k < b ensures BinCovered(c, mag[..b], k) <==> BinCovered(c, mag, k) {
    }
    if Supported(c, mag) {
      forall k | 0 <= k < b ensures BinCovered(c, mag[..b], k) {
        assert BinCovered(c, mag, k);
      }
    }
  }

  lemma {:induction false} SupportedKept(c: seq<real>, mag: seq<real>)
    requires Increasing(c) && 3 <= |c| && Supported(c, mag)
    ensures Collected(c, |c| - 2, mag) == Total(mag)
  {
    if mag == [] {
    } else {
      var b := |mag| - 1;
      SupportedSplit(c, mag);
      SupportedKept(c, mag[..b]);
      CoveredBinKept(c, BinHz(b), mag[b]);
    }
  }

  /** What the last bin adds to both sides of the comparison. */
  lemma LastBin(c: seq<real>, mag: seq<real>)
    requires Increasing(c) && 3 <= |c| && mag != [] && 0.0 <= mag[|mag| - 1]
    ensures var b, m := |mag| - 1, |c| - 2;
            && Collected(c, m, mag) - Collected(c, m, mag[..b]) <= Total(mag) - Total(mag[..b])
            && (!BinCovered(c, mag, b) ==>
                  Collected(c, m, mag) - Collected(c, m, mag[..b]) < Total(mag) - Total(mag[..b]))
  {
    var b, m := |mag| - 1, |c| - 2;
    CoveredBinKept(c, BinHz(b), mag[b]);
    hide Share;
  }

  lemma {:induction false} NonNegativeLoses(c: seq<real>, mag: seq<real>)
    requires Increasing(c) && 3 <= |c| && forall b :: 0 <= b < |mag| ==> 0.0 <= mag[b]
    ensures Collected(c, |c| - 2, mag) <= Total(mag)
    ensures !Supported(c, mag) ==> Collected(c, |c| - 2, mag) < Total(mag)
  {
    if mag == [] {
    } else {
      SupportedSplit(c, mag);
      NonNegativeLoses(c, mag[..|mag| - 1]);
      LastBin(c, mag);
      hide Collected, Total, BinCovered;
    }
  }

  /** The filterbank conserves the total of every spectrum, of either sign, that is empty outside
      the span of the filter centres. */
  lemma EnergyConserved(c: seq<real>, mag: seq<real>)
    requires Increasing(c) && 3 <= |c| && Supported(c, mag)
    ensures Total(Bands(c, mag)) == Total(mag)
  {
    BandsTotal(c, |c| - 2, mag);
    assert Bands(c, mag)[..|c| - 2] == Bands(c, mag);
    SupportedKept(c, mag);
  }

  /** For magnitudes that support is also necessary: anything outside it is partly lost. */
  lemma EnergyConservedIff(c: seq<real>, mag: seq<real>)
    requires Increasing(c) && 3 <= |c| && forall b :: 0 <= b < |mag| ==> 0.0 <= mag[b]
    ensures Total(Bands(c, mag)) <= Total(mag)
    ensures Total(Bands(c, mag)) == Total(mag) <==> Supported(c, mag)
  {
    BandsTotal(c, |c| - 2, mag);
    assert Bands(c, mag)[..|c| - 2] == Bands(c, mag);
    NonNegativeLoses(c, mag);
    if Supported(c, mag) {
      SupportedKept(c, mag);
    }
  }

  // ---- Building and applying the bank ----

  ghost predicate StrictlyRising(f: real -> real) { forall x, y :: x < y ==> f(x) < f(y) }

  function CentreAt(melToHz: real -> real, lower: real, step: real, i: nat): real {
    melToHz(lower + i as real * step)
  }

  function MelStep(lower: real, upper: real): real { (upper - lower) / (MEL_BIN_COUNT + 1) as real }

  function Centres(melToHz: real -> real, lower: real, upper: real): (c: seq<real>)
    ensures |c| == MEL_BIN_COUNT + 2
    ensures forall i :: 0 <= i < |c| ==> c[i] == CentreAt(melToHz, lower, MelStep(lower, upper), i)
  {
    var step := MelStep(lower, upper);
    seq(MEL_BIN_COUNT + 2, i requires 0 <= i < MEL_BIN_COUNT + 2 => CentreAt(melToHz, lower, step, i))
  }

  /** Evenly spaced points on a rising mel scale give strictly increasing centres. */
  lemma CentresIncreasing(melToHz: real -> real, lower: real, upper: real)
    requires StrictlyRising(melToHz) && lower < upper
    ensures Increasing(Centres(melToHz, lower, upper))
  {
    var step := MelStep(lower, upper);
    Positive(upper - lower, (MEL_BIN_COUNT + 1) as real);
    forall i: nat, j: nat | i < j < MEL_BIN_COUNT + 2
      ensures CentreAt(melToHz, lower, step, i) < CentreAt(melToHz, lower, step, j)
    {
      CentreRises(melToHz, lower, step, i, j);
    }
    hide CentreAt;
  }

  lemma Positive(a: real, b: real)
    requires 0.0 < a && 0.0 < b
    ensures 0.0 < a / b
  {
  }

  lemma CentreRises(melToHz: real -> real, lower: real, step: real, i: nat, j: nat)
    requires StrictlyRising(melToHz) && 0.0 < step && i < j
    ensures CentreAt(melToHz, lower, step, i) < CentreAt(melToHz, lower, step, j)
  {
    Stretch(i as real, j as real, step);
    var x, y := lower + i as real * step, lower + j as real * step;
    assert x < y;
    assert melToHz(x) < melToHz(y);
  }

  /** The centres in numbers: 42 points a 41st of the band apart on the mel scale, from its lower
      edge to its upper. */
  lemma CentresSpan(melToHz: real -> real, lower: real, upper: real)
    ensures var c := Centres(melToHz, lower, upper);
            && |c| == 42 && c[0] == melToHz(lower) && c[41] == melToHz(upper)
            && forall i :: 0 <= i < 42 ==> c[i] == melToHz(OnScale(lower, upper, i))
  {
    hide OnScale, CentreAt, Centres;
    var c := Centres(melToHz, lower, upper);
    forall i: nat | i < 42 ensures c[i] == melToHz(OnScale(lower, upper, i)) {
      CentreByIndex(melToHz, lower, upper, i);
      CentreOnScale(melToHz, lower, upper, i);
    }
    ScaleEnds(lower, upper);
    assert c[0] == melToHz(OnScale(lower, upper, 0)) && c[41] == melToHz(OnScale(lower, upper, 41));
  }

  lemma CentreByIndex(melToHz: real -> real, lower: real, upper: real, i: nat)
    requires i < 42
    ensures Centres(melToHz, lower, upper)[i] == CentreAt(melToHz, lower, (upper - lower) / 41.0, i)
  {
    assert MelStep(lower, upper) == (upper - lower) / 41.0;
    hide CentreAt, MelStep, Centres;
  }

  lemma CentreOnScale(melToHz: real -> real, lower: real, upper: real, i: nat)
    ensures CentreAt(melToHz, lower, (upper - lower) / 41.0, i) == melToHz(OnScale(lower, upper, i))
  {
    SameStep(lower, upper, i);
    hide OnScale;
  }

  /** The point `i` 41sts of the way from `lower` to `upper`. */
  function OnScale(lower: real, upper: real, i: nat): real { lower + (upper - lower) * (i as real) / 41.0 }

  lemma ScaleEnds(lower: real, upper: real)
    ensures OnScale(lower, upper, 0) == lower && OnScale(lower, upper, 41) == upper
  {
    var band := upper - lower;
    assert band * 0.0 == 0.0 && band * 41.0 / 41.0 == band;
    assert OnScale(lower, upper, 0) == lower + band * 0.0 / 41.0;
    assert OnScale(lower, upper, 41) == lower + band * 41.0 / 41.0;
  }

  lemma SameStep(lower: real, upper: real, i: nat)
    ensures lower + i as real * ((upper - lower) / 41.0) == OnScale(lower, upper, i)
  {
    var band, x := upper - lower, i as real;
    EvenSteps(band, x);
    assert OnScale(lower, upper, i) == lower + band * x / 41.0;
  }

  lemma EvenSteps(band: real, i: real)
    ensures i * (band / 41.0) == band * i / 41.0
  {
  }

  /** The bins in numbers: from 0 Hz to 8000 Hz, 31.25 Hz apart. */
  lemma BinsSpan(bin: nat)
    ensures BinHz(0) == 0.0 && BinHz(FFT_BIN_COUNT - 1) == 8000.0
    ensures BinHz(bin + 1) - BinHz(bin) == 31.25 && BinHz(bin) == 31.25 * (bin as real)
  {
  }

  /** A spectrum of `n` bins that is empty but for `g` in bin `b`. */
  function Spike(n: nat, b: nat, g: real): (mag: seq<real>)
    requires b < n
    ensures |mag| == n && forall k :: 0 <= k < n ==> mag[k] == if k == b then g else 0.0
  {
    seq(n, k => if k == b then g else 0.0)
  }

  lemma {:induction false} BandOfZeros(c: seq<real>, m: nat, mag: seq<real>)
    requires Increasing(c) && m + 2 < |c| && forall k :: 0 <= k < |mag| ==> mag[k] == 0.0
    ensures Band(c, m, mag) == 0.0
  {
    if mag == [] {
    } else {
      var b := |mag| - 1;
      BandOfZeros(c, m, mag[..b]);
      assert Part(c, m, BinHz(b), mag[b]) == Weight(c, m, BinHz(b)) * 0.0 == 0.0;
    }
  }

  /** What one bin contributes to one band: its magnitude times the triangle at its frequency. */
  lemma {:induction false} BandOfSpike(c: seq<real>, m: nat, n: nat, b: nat, g: real)
    requires Increasing(c) && m + 2 < |c| && b < n
    ensures Band(c, m, Spike(n, b, g)) == Triangle(c[m], c[m + 1], c[m + 2], 31.25 * (b as real)) * g
  {
    BinsSpan(b);
    var mag := Spike(n, b, g);
    if b == n - 1 {
      BandOfZeros(c, m, mag[..n - 1]);
    } else {
      BandOfSpike(c, m, n - 1, b, g);
      assert mag[..n - 1] == Spike(n - 1, b, g);
      assert Part(c, m, BinHz(n - 1), 0.0) == Weight(c, m, BinHz(n - 1)) * 0.0 == 0.0;
    }
  }

  lemma Stretch(x: real, y: real, k: real)
    requires x < y && 0.0 < k
    ensures x * k < y * k
  {
    assert (y - x) * k > 0.0;
  }

  class MelFilterbank {
    const weights: seq<seq<real>>  // [mel bin][fft bin]
    ghost const centres: seq<real>

    ghost predicate Valid() {
      && |centres| == MEL_BIN_COUNT + 2 && Increasing(centres) && |weights| == MEL_BIN_COUNT
      && (forall m :: 0 <= m < MEL_BIN_COUNT ==> |weights[m]| == FFT_BIN_COUNT)
      && (forall m, bin :: 0 <= m < MEL_BIN_COUNT && 0 <= bin < FFT_BIN_COUNT ==>
            weights[m][bin] == Weight(centres, m, BinHz(bin)))
    }

    constructor (melToHz: real -> real, lower: real, upper: real)
      requires StrictlyRising(melToHz) && lower < upper
      ensures Valid() && centres == Centres(melToHz, lower, upper)
    {
      var c := Centres(melToHz, lower, upper);
      CentresIncreasing(melToHz, lower, upper);
      var rows: seq<seq<real>> := [];
      for m := 0 to MEL_BIN_COUNT
        invariant |rows| == m
        invariant forall k :: 0 <= k < m ==> |rows[k]| == FFT_BIN_COUNT
        invariant forall k, bin :: 0 <= k < m && 0 <= bin < FFT_BIN_COUNT ==> rows[k][bin] == Weight(c, k, BinHz(bin))
      {
        var row := BuildRow(c, m);
        rows := rows + [row];
      }
      weights := rows;
      centres := c;
    }

    /** One iteration of the constructor's outer loop: fill the row of filter `m`. */
    static method BuildRow(c: seq<real>, m: nat) returns (weights: seq<real>)
      requires Increasing(c) && m + 2 < |c|
      ensures |weights| == FFT_BIN_COUNT
      ensures forall bin :: 0 <= bin < FFT_BIN_COUNT ==> weights[bin] == Weight(c, m, BinHz(bin))
    {
      var left, centre, right := c[m], c[m + 1], c[m + 2];
      var row := new real[FFT_BIN_COUNT](_ => 0.0);
      for bin := 0 to FFT_BIN_COUNT
        invariant forall k :: 0 <= k < bin ==> row[k] == Weight(c, m, BinHz(k))
      {
        var f := BinHz(bin);
        row[bin] := if f <= left || f >= right then 0.0
                    else if f <= centre then (f - left) / (centre - left)
                    else (right - f) / (right - centre);
      }
      weights := row[..];
    }

    method Apply(magnitude: seq<real>) returns (out: array<real>)
      requires Valid() && |magnitude| == FFT_BIN_COUNT
      ensures fresh(out) && out[..] == Bands(centres, magnitude)
    {
      out := new real[MEL_BIN_COUNT](_ => 0.0);
      for m := 0 to MEL_BIN_COUNT
        invariant forall k :: 0 <= k < m ==> out[k] == Band(centres, k, magnitude)
      {
        var acc := 0.0;
        for bin := 0 to FFT_BIN_COUNT
          invariant acc == Band(centres, m, magnitude[..bin])
        {
          acc := acc + weights[m][bin] * magnitude[bin];
          assert magnitude[..bin + 1][..bin] == magnitude[..bin];
        }
        assert magnitude[..FFT_BIN_COUNT] == magnitude;
        out[m] := acc;
      }
    }
  }
}
