/** Face association across consecutive frames: MatchFace. */
module Association {
  import opened Wrappers
  import opened Geometry

  /** A previous box may be matched when its IOU with `box` is a number, at least
      the threshold, and above 0 (the initial maxi_iou). */
  predicate Eligible(prev: Detection, box: Detection, threshold: real)
  {
    var iou := GetIou(prev, box);
    iou.Some? && iou.value >= threshold && iou.value > 0.0
  }

  /** `r` is what MatchFace answers for `box` against the previous frame's boxes:
      -1 when no box is eligible, otherwise the eligible box of largest IOU, the
      first one among equals. */
  ghost predicate IsBestMatch(prev: seq<Detection>, box: Detection, threshold: real, r: int)
  {
    if r == -1 then
      forall j :: 0 <= j < |prev| ==> !Eligible(prev[j], box, threshold)
    else
      0 <= r < |prev| && Eligible(prev[r], box, threshold) &&
      forall j :: 0 <= j < |prev| && Eligible(prev[j], box, threshold) ==>
        GetIou(prev[j], box).value <= GetIou(prev[r], box).value &&
        (j < r ==> GetIou(prev[j], box).value < GetIou(prev[r], box).value)
  }

  /** MatchFace, with face_bbox_ as `prev` and iou_threshold as `threshold`. */
  method MatchFace(prev: seq<Detection>, box: Detection, threshold: real) returns (idx: int)
    ensures idx == -1 || 0 <= idx < |prev|
    ensures IsBestMatch(prev, box, threshold, idx)
  {
    idx := -1;
    var maxIou := 0.0;
    var i := 0;
    while i < |prev|
      invariant 0 <= i <= |prev|
      invariant idx == -1 || 0 <= idx < i
      invariant idx == -1 ==> maxIou == 0.0
      invariant idx != -1 ==> GetIou(prev[idx], box).Some? && maxIou == GetIou(prev[idx], box).value
      invariant IsBestMatch(prev[..i], box, threshold, idx)
    {
      var iou := GetIou(prev[i], box);
      if Less(iou, threshold) {
        i := i + 1;
        continue;
      }
      if Greater(iou, maxIou) {
        maxIou := iou.value;
        idx := i;
      }
      i := i + 1;
    }
    assert prev[..|prev|] == prev;
  }

  /** The answer is determined: at most one index satisfies IsBestMatch. */
  lemma BestMatchIsUnique(prev: seq<Detection>, box: Detection, threshold: real, r1: int, r2: int)
    requires IsBestMatch(prev, box, threshold, r1) && IsBestMatch(prev, box, threshold, r2)
    ensures r1 == r2
  {
  }

  /** `matches` holds, in order, what MatchFace answers for the first boxes of
      `boxes`. */
  ghost predicate AllBestMatches(prev: seq<Detection>, boxes: seq<Detection>, threshold: real, matches: seq<int>)
  {
    |matches| <= |boxes| &&
    (|matches| == 0 ||
     (AllBestMatches(prev, boxes, threshold, matches[..|matches| - 1]) &&
      IsBestMatch(prev, boxes[|matches| - 1], threshold, matches[|matches| - 1])))
  }

  lemma {:induction false} AllBestMatchesAt(prev: seq<Detection>, boxes: seq<Detection>, threshold: real,
                                            matches: seq<int>, k: nat)
    requires AllBestMatches(prev, boxes, threshold, matches) && k < |matches|
    ensures IsBestMatch(prev, boxes[k], threshold, matches[k])
  {
    var n := |matches| - 1;
    if k < n {
      AllBestMatchesAt(prev, boxes, threshold, matches[..n], k);
    }
  }

  /** Handling one more box extends the answers by MatchFace's answer for it. */
  lemma AllBestMatchesAppend(prev: seq<Detection>, boxes: seq<Detection>, threshold: real,
                             matches: seq<int>, r: int)
    requires AllBestMatches(prev, boxes, threshold, matches) && |matches| < |boxes|
    requires IsBestMatch(prev, boxes[|matches|], threshold, r)
    ensures AllBestMatches(prev, boxes, threshold, matches + [r])
  {
    assert (matches + [r])[..|matches|] == matches;
  }

  /** A face that sits exactly where a previous face was is matched, as long as the
      threshold is at most 1; the match need not be that face, if an earlier box
      is identical to it. */
  lemma IdenticalBoxIsMatched(prev: seq<Detection>, k: nat, threshold: real, r: int)
    requires k < |prev| && prev[k].width > 0.0 && prev[k].height > 0.0
    requires threshold <= 1.0
    requires IsBestMatch(prev, prev[k], threshold, r)
    ensures 0 <= r <= k && GetIou(prev[r], prev[k]) == Some(1.0)
  {
    IouOfItself(prev[k]);
    assert Eligible(prev[k], prev[k], threshold);
    IouInUnitRange(prev[r], prev[k]);
  }
}
