/** The lip statistic of a face, its rolling history and the speaking test's
    arithmetic: GetStatistics, the deque update of ProcessScene and the means and
    variance of IsActiveSpeaker. */
module LipStatistics {
  import opened Config

  /** kFaceMeshLandmarks: a landmark list shorter than this is skipped. */
  const FaceMeshLandmarks: nat := 468
  /** The size of kLipUpperIdx and of kLipLowerIdx. */
  const LipPairCount: nat := 3

  /** One face's landmark list, reduced to what GetStatistics reads from it: the
      number of landmarks, the pixel distance between the inner mouth corners
      (landmarks 78 and 308) and the pixel distances of the upper/lower lip pairs
      (82/87, 13/14, 312/317), in that order. */
  datatype FaceMesh = FaceMesh(landmarkCount: nat, cornerDistance: real, lipGaps: seq<real>)

  predicate IsMeasured(f: FaceMesh)
  {
    f.landmarkCount >= FaceMeshLandmarks
  }

  /** A full face mesh has all three lip pairs and two distinct mouth corners
      (with coinciding corners the float division would give an infinity). */
  predicate WellFormed(f: FaceMesh)
  {
    IsMeasured(f) ==> |f.lipGaps| == LipPairCount && f.cornerDistance != 0.0
  }

  predicate AllWellFormed(faces: seq<FaceMesh>)
  {
    forall i :: 0 <= i < |faces| ==> WellFormed(faces[i])
  }

  function Sum(s: seq<real>): real
  {
    if |s| == 0 then 0.0 else Sum(s[..|s| - 1]) + s[|s| - 1]
  }

  /** The value of mouth_height once the loop of GetStatistics has visited
      `faces`: it is declared once, before the loop, and never reset, so each
      measured face adds its lip gaps to what the previous face left. */
  function CarriedHeight(faces: seq<FaceMesh>): real
    requires AllWellFormed(faces)
  {
    if |faces| == 0 then 0.0
    else
      var h := CarriedHeight(faces[..|faces| - 1]);
      var f := faces[|faces| - 1];
      if IsMeasured(f) then (h + Sum(f.lipGaps)) / (LipPairCount as real) else h
  }

  /** The statistics GetStatistics pushes for `faces`: one per measured face, in
      order, nothing for a skipped face. */
  function Statistics(faces: seq<FaceMesh>): seq<real>
    requires AllWellFormed(faces)
  {
    if |faces| == 0 then []
    else
      var f := faces[|faces| - 1];
      Statistics(faces[..|faces| - 1]) +
        (if IsMeasured(f) then [CarriedHeight(faces) / f.cornerDistance] else [])
  }

  function MeasuredCount(faces: seq<FaceMesh>): nat
  {
    if |faces| == 0 then 0
    else MeasuredCount(faces[..|faces| - 1]) + (if IsMeasured(faces[|faces| - 1]) then 1 else 0)
  }

  /** GetStatistics, with the pixel distances given. */
  method GetStatistics(faces: seq<FaceMesh>) returns (stats: seq<real>)
    requires AllWellFormed(faces)
    ensures stats == Statistics(faces)
  {
    var mouthWidth, mouthHeight := 0.0, 0.0;
    stats := [];
    var k := 0;
    while k < |faces|
      invariant 0 <= k <= |faces|
      invariant stats == Statistics(faces[..k])
      invariant mouthHeight == CarriedHeight(faces[..k])
    {
      var f := faces[k];
      assert faces[..k + 1][..k] == faces[..k];
      if f.landmarkCount < FaceMeshLandmarks {
        k := k + 1;
        continue;
      }
      mouthWidth := f.cornerDistance;
      var i := 0;
      while i < LipPairCount
        invariant 0 <= i <= LipPairCount
        invariant mouthHeight == CarriedHeight(faces[..k]) + Sum(f.lipGaps[..i])
      {
        assert f.lipGaps[..i + 1][..i] == f.lipGaps[..i];
        mouthHeight := mouthHeight + f.lipGaps[i];
        i := i + 1;
      }
      assert f.lipGaps[..LipPairCount] == f.lipGaps;
      mouthHeight := mouthHeight / (LipPairCount as real);
      stats := stats + [mouthHeight / mouthWidth];
      k := k + 1;
    }
    assert faces[..|faces|] == faces;
  }

  /** One statistic per face that is not skipped. */
  lemma {:induction false} StatisticsCount(faces: seq<FaceMesh>)
    requires AllWellFormed(faces)
    ensures |Statistics(faces)| == MeasuredCount(faces)
  {
    if |faces| > 0 {
      StatisticsCount(faces[..|faces| - 1]);
    }
  }

  /** A lone full face gets its mouth aspect ratio: the mean lip gap over the
      corner distance. */
  lemma LoneFaceStatistic(f: FaceMesh)
    requires WellFormed(f) && IsMeasured(f)
    ensures Statistics([f]) == [(Sum(f.lipGaps) / 3.0) / f.cornerDistance]
  {
    assert [f][..0] == [];
  }

  /** The second of two full faces does not get its own aspect ratio: a third of
      the first face's mean lip gap is added into its mouth height. */
  lemma SecondFaceCarriesHeight(f: FaceMesh, g: FaceMesh)
    requires WellFormed(f) && IsMeasured(f) && WellFormed(g) && IsMeasured(g)
    ensures Statistics([f, g]) ==
      [(Sum(f.lipGaps) / 3.0) / f.cornerDistance,
       ((Sum(f.lipGaps) / 3.0 + Sum(g.lipGaps)) / 3.0) / g.cornerDistance]
  {
    assert [f, g][..1] == [f];
    assert [f][..0] == [];
    assert CarriedHeight([f]) == Sum(f.lipGaps) / 3.0;
    assert Statistics([f]) == [(Sum(f.lipGaps) / 3.0) / f.cornerDistance];
    assert CarriedHeight([f, g]) == (Sum(f.lipGaps) / 3.0 + Sum(g.lipGaps)) / 3.0;
  }

  function Mean(s: seq<real>): real
    requires |s| > 0
  {
    Sum(s) / (|s| as real)
  }

  function SquaredDeviation(s: seq<real>, m: real): real
  {
    if |s| == 0 then 0.0
    else SquaredDeviation(s[..|s| - 1], m) + (s[|s| - 1] - m) * (s[|s| - 1] - m)
  }

  /** The accumulation loop `for (auto& value : ...) total += value`. */
  method SumOf(s: seq<real>) returns (total: real)
    ensures total == Sum(s)
  {
    total := 0.0;
    var k := 0;
    while k < |s|
      invariant 0 <= k <= |s|
      invariant total == Sum(s[..k])
    {
      assert s[..k + 1][..k] == s[..k];
      total := total + s[k];
      k := k + 1;
    }
    assert s[..|s|] == s;
  }

  /** The accumulation loop `variance += std::pow(value - mean, 2)`. */
  method SquaredDeviationOf(s: seq<real>, m: real) returns (total: real)
    ensures total == SquaredDeviation(s, m)
  {
    total := 0.0;
    var k := 0;
    while k < |s|
      invariant 0 <= k <= |s|
      invariant total == SquaredDeviation(s[..k], m)
    {
      assert s[..k + 1][..k] == s[..k];
      total := total + (s[k] - m) * (s[k] - m);
      k := k + 1;
    }
    assert s[..|s|] == s;
  }

  /** The population variance: divided by the length, not by the length - 1. */
  function Variance(s: seq<real>): real
    requires |s| > 0
  {
    SquaredDeviation(s, Mean(s)) / (|s| as real)
  }

  /** mean_short: the mean of the last meanHistory values, or, for a shorter
      history, its first (oldest) value. */
  function MeanShort(s: seq<real>, meanHistory: nat): real
    requires |s| > 0 && meanHistory > 0
  {
    if |s| < meanHistory then s[0] else Sum(s[|s| - meanHistory..]) / (meanHistory as real)
  }

  /** The decision IsActiveSpeaker makes about a history `h`, with `bestMean` and
      `bestVariance` the values of speaker_mean_ and speaker_variance_. A zero
      mean_history makes mean_short the NaN of 0/0, and every comparison with it
      false. */
  predicate Speaks(h: seq<real>, o: Options, bestMean: real, bestVariance: real)
  {
    |h| > o.varianceHistory / 2 && o.meanHistory > 0 &&
    var ms, v := MeanShort(h, o.meanHistory), Variance(h);
    (ms >= o.lipMeanThresholdBigMouth && v >= o.lipVarianceThresholdBigMouth && ms > bestMean) ||
    (ms >= o.lipMeanThresholdSmallMouth && v >= o.lipVarianceThresholdSmallMouth && v > bestVariance)
  }

  /** speaker_mean_ and speaker_variance_ after IsActiveSpeaker has been asked,
      in order, about each history of `hists`, starting from the given pair: a
      face judged active becomes the incumbent the next faces must beat. */
  function RatchetAfter(hists: seq<seq<real>>, o: Options, bestMean: real, bestVariance: real): (real, real)
  {
    if |hists| == 0 then (bestMean, bestVariance)
    else
      var before := RatchetAfter(hists[..|hists| - 1], o, bestMean, bestVariance);
      var h := hists[|hists| - 1];
      if Speaks(h, o, before.0, before.1) then (MeanShort(h, o.meanHistory), Variance(h)) else before
  }

  /** Whether IsActiveSpeaker answers true for the k-th face of a frame whose
      faces have the histories `hists`; the two fields are 0 when a frame starts. */
  predicate Flagged(hists: seq<seq<real>>, o: Options, k: nat)
    requires k < |hists|
  {
    var before := RatchetAfter(hists[..k], o, 0.0, 0.0);
    Speaks(hists[k], o, before.0, before.1)
  }

  lemma FlaggedOnPrefix(hists: seq<seq<real>>, o: Options, n: nat)
    requires n <= |hists|
    ensures forall k :: 0 <= k < n ==> Flagged(hists[..n], o, k) == Flagged(hists, o, k)
  {
    forall k | 0 <= k < n
      ensures Flagged(hists[..n], o, k) == Flagged(hists, o, k)
    {
      assert hists[..n][..k] == hists[..k];
    }
  }

  /** cur_speaker_id: the last face of the frame for which IsActiveSpeaker
      answered true, or -1. */
  function LastFlagged(hists: seq<seq<real>>, o: Options): (r: int)
    ensures -1 <= r < |hists|
    ensures r != -1 ==> Flagged(hists, o, r)
    ensures forall k :: r < k < |hists| ==> !Flagged(hists, o, k)
  {
    if |hists| == 0 then -1
    else if Flagged(hists, o, |hists| - 1) then |hists| - 1
    else
      FlaggedOnPrefix(hists, o, |hists| - 1);
      LastFlagged(hists[..|hists| - 1], o)
  }


  lemma {:induction false} SquaredDeviationNonNegative(s: seq<real>, m: real)
    ensures SquaredDeviation(s, m) >= 0.0
  {
    if |s| > 0 {
      SquaredDeviationNonNegative(s[..|s| - 1], m);
      var d := s[|s| - 1] - m;
      assert d * d >= 0.0;
    }
  }

  lemma VarianceNonNegative(s: seq<real>)
    requires |s| > 0
    ensures Variance(s) >= 0.0
  {
    SquaredDeviationNonNegative(s, Mean(s));
  }

  predicate Constant(s: seq<real>, c: real)
  {
    forall i :: 0 <= i < |s| ==> s[i] == c
  }

  lemma {:induction false} SumOfConstant(s: seq<real>, c: real)
    requires Constant(s, c)
    ensures Sum(s) == (|s| as real) * c
  {
    if |s| > 0 {
      SumOfConstant(s[..|s| - 1], c);
    }
  }

  lemma {:induction false} SquaredDeviationOfConstant(s: seq<real>, c: real)
    requires Constant(s, c)
    ensures SquaredDeviation(s, c) == 0.0
  {
    if |s| > 0 {
      SquaredDeviationOfConstant(s[..|s| - 1], c);
    }
  }

  /** A face whose lips do not move has mean_short equal to its statistic and
      variance 0. */
  lemma ConstantHistoryStatistics(s: seq<real>, c: real, meanHistory: nat)
    requires |s| > 0 && meanHistory > 0 && Constant(s, c)
    ensures Mean(s) == c && Variance(s) == 0.0 && MeanShort(s, meanHistory) == c
  {
    SumOfConstant(s, c);
    SquaredDeviationOfConstant(s, c);
    if |s| >= meanHistory {
      SumOfConstant(s[|s| - meanHistory..], c);
    }
  }

  /** A still mouth is never an active speaker when each of the two criteria is
      out of reach: its mean threshold exceeds the statistic or its variance
      threshold is positive. */
  lemma ConstantHistoryIsSilent(s: seq<real>, c: real, o: Options, bestMean: real, bestVariance: real)
    requires Constant(s, c)
    requires c < o.lipMeanThresholdBigMouth || o.lipVarianceThresholdBigMouth > 0.0
    requires c < o.lipMeanThresholdSmallMouth || o.lipVarianceThresholdSmallMouth > 0.0
    ensures !Speaks(s, o, bestMean, bestVariance)
  {
    if |s| > o.varianceHistory / 2 && o.meanHistory > 0 {
      ConstantHistoryStatistics(s, c, o.meanHistory);
    }
  }

  /** The history a matched face gets: its previous history with the new value
      appended, cut down to its last varianceHistory values. */
  function Rolled(prev: seq<real>, x: real, varianceHistory: nat): seq<real>
  {
    var s := prev + [x];
    if |s| <= varianceHistory then s else s[|s| - varianceHistory..]
  }

  /** The copy of the matched face's history into the new face's deque. */
  method CopyHistory(prev: seq<real>) returns (h: seq<real>)
    ensures h == prev
  {
    h := [];
    var i := 0;
    while i < |prev|
      invariant 0 <= i <= |prev|
      invariant h == prev[..i]
    {
      h := h + [prev[i]];
      i := i + 1;
    }
    assert prev[..|prev|] == prev;
  }

  /** The deque update of ProcessScene for a matched face: copy the matched face's
      history, push the new value, pop from the front while it is too long. */
  method RollHistory(prev: seq<real>, x: real, varianceHistory: nat) returns (h: seq<real>)
    ensures |h| == if |prev| + 1 <= varianceHistory then |prev| + 1 else varianceHistory
    ensures h == (prev + [x])[|prev| + 1 - |h|..]
    ensures h == Rolled(prev, x, varianceHistory)
  {
    h := CopyHistory(prev);
    h := h + [x];
    while |h| > varianceHistory
      invariant |h| <= |prev| + 1
      invariant |h| >= varianceHistory || |h| == |prev| + 1
      invariant h == (prev + [x])[|prev| + 1 - |h|..]
    {
      h := h[1..];
    }
  }

  /** A rolled history is never longer than the bound and, unless the bound is 0,
      its newest value is the one just pushed. */
  lemma RolledEndsWithNewValue(prev: seq<real>, x: real, varianceHistory: nat)
    requires varianceHistory > 0
    ensures var h := Rolled(prev, x, varianceHistory);
      0 < |h| <= varianceHistory && h[|h| - 1] == x
  {
  }
}
