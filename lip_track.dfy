/** LipTrackCalculator: the state carried between calls and the operations that
    update it. */
module LipTrack {
  import opened Wrappers
  import opened Config
  import opened Geometry
  import opened LipStatistics
  import opened Association
  import opened Window

  /** The frame Process buffers: landmarks and detections are kept only when both
      input packets are present. */
  function MakeSignal(landmarks: Option<seq<FaceMesh>>, detections: Option<seq<Detection>>, ts: int): (s: LipSignal)
    ensures s.timestamp == ts
    ensures landmarks.Some? && detections.Some? ==>
      s.landmarkLists == landmarks.value && s.detections == detections.value
    ensures landmarks.None? || detections.None? ==> IsSkipped(s)
  {
    if landmarks.Some? && detections.Some? then LipSignal(landmarks.value, detections.value, ts)
    else LipSignal([], [], ts)
  }

  /** The shot-signal step of a window with a dominant speaker (lines 380-396):
      None when nothing is decided (a previous speaker id but no stored box),
      otherwise the decision before the debounce. */
  function ShotDecision(preId: int, preDetection: seq<Detection>, first: Detection, o: Options): Option<bool>
  {
    if preId == -1 then Some(true)
    else if preDetection == [] then None
    else Some(SpeakerChange(preDetection[0], first, o.iouThreshold))
  }

  /** `dominant` is what lines 327-334 pick: -1 when no meta-face below `count`
      has a hit, otherwise the meta-face with the most hits, the lowest id among
      equals. */
  ghost predicate IsDominant(count: nat, speakers: seq<int>, metaOf: seq<seq<int>>, dominant: int)
  {
    |speakers| == |metaOf| &&
    (dominant == -1 <==> forall m :: 0 <= m < count ==> HitCount(speakers, metaOf, m) == 0) &&
    (dominant != -1 ==>
      0 <= dominant < count && HitCount(speakers, metaOf, dominant) > 0 &&
      (forall m :: 0 <= m < count ==> HitCount(speakers, metaOf, m) <= HitCount(speakers, metaOf, dominant)) &&
      (forall m :: 0 <= m < dominant ==> HitCount(speakers, metaOf, m) < HitCount(speakers, metaOf, dominant)))
  }

  /** The packets of a window `buff` with meta-face table `table` and dominant
      speaker `dominant` (lines 336-431), given the speaker id, speaker box and
      last shot time of the window before: one ROI packet per frame, empty
      without a dominant speaker, otherwise the dominant face's box or, where it
      is missing, its latest earlier box (its first box before it appears); the
      shot packets; and the new speaker box and last shot time. */
  ghost predicate SceneOutput(buff: seq<LipSignal>, o: Options, table: map<int, seq<int>>, dominant: int,
                              preId: int, preDet: seq<Detection>, lastShot0: int,
                              roi: seq<(int, seq<Detection>)>, shots: seq<(int, bool)>,
                              last: seq<Detection>, lastShot: int)
  {
    |buff| > 0 && |roi| == |buff| && |last| <= 1 &&
    (dominant == -1 ==>
      (forall b :: 0 <= b < |roi| ==> roi[b] == (buff[b].timestamp, [])) &&
      last == [] && lastShot == lastShot0 &&
      shots == if o.hasShotStream && o.outputShotBoundary
               then ShotPackets(false, buff[0].timestamp, lastShot0, o) else []) &&
    (dominant != -1 ==>
      dominant in table &&
      var row := table[dominant];
      IsRow(buff, row) && FirstPresent(row) != -1 &&
      var first := Appearance(buff, row, FirstPresent(row));
      (forall b :: 0 <= b < |roi| ==> roi[b] == (buff[b].timestamp, [RoiBox(buff, row, first, b)])) &&
      last == [roi[|roi| - 1].1[0]] &&
      var d := if o.hasShotStream && o.outputShotBoundary
               then ShotDecision(preId, preDet, first, o) else None;
      shots == (if d.None? then [] else ShotPackets(d.value, buff[0].timestamp, lastShot0, o)) &&
      lastShot == if d == Some(true) then buff[0].timestamp else lastShot0)
  }

  /** What a caller of ProcessScene sees of its ROI packets: one per frame, with
      the frame's time and at most one box, all empty exactly when there is no
      dominant speaker. */
  lemma SceneOutputShape(buff: seq<LipSignal>, o: Options, table: map<int, seq<int>>, dominant: int,
                         preId: int, preDet: seq<Detection>, lastShot0: int,
                         roi: seq<(int, seq<Detection>)>, shots: seq<(int, bool)>,
                         last: seq<Detection>, lastShot: int)
    requires SceneOutput(buff, o, table, dominant, preId, preDet, lastShot0, roi, shots, last, lastShot)
    ensures |roi| == |buff|
    ensures forall b :: 0 <= b < |roi| ==> roi[b].0 == buff[b].timestamp && |roi[b].1| <= 1
    ensures dominant == -1 <==> forall b :: 0 <= b < |roi| ==> roi[b].1 == []
  {
    if dominant != -1 {
      assert roi[0].1 != [];
    }
  }

  /** What processing one window states: the table, trace and dominant speaker
      are those of the buffered frames `buff`, and the packets, the box kept and
      the new last shot time are one SceneOutput step from the carried state. */
  ghost predicate WindowProcessed(buff: seq<LipSignal>, o: Options, table: map<int, seq<int>>, count: nat,
                                  dominant: int, speakers: seq<int>, metaOf: seq<seq<int>>,
                                  matchesOf: seq<seq<int>>, after: seq<FrameState>,
                                  preId: int, preDet: seq<Detection>, lastShot0: int,
                                  roi: seq<(int, seq<Detection>)>, shots: seq<(int, bool)>,
                                  last: seq<Detection>, lastShot: int)
  {
    |metaOf| == |buff| && IsWindowTable(buff, table, count, speakers, metaOf) &&
    FramesJudged(buff, o, speakers, metaOf, matchesOf, after) &&
    IsDominant(count, speakers, metaOf, dominant) &&
    SceneOutput(buff, o, table, dominant, preId, preDet, lastShot0, roi, shots, last, lastShot)
  }

  /** The box a window with a dominant speaker compares with the previous
      speaker's box: the dominant face's first appearance. */
  ghost function FirstSpeakerBox(buff: seq<LipSignal>, table: map<int, seq<int>>, dominant: int): Detection
    requires dominant in table && IsRow(buff, table[dominant]) && FirstPresent(table[dominant]) != -1
  {
    Appearance(buff, table[dominant], FirstPresent(table[dominant]))
  }

  /** The same face in two consecutive windows: when the new dominant speaker's
      first box overlaps the previous speaker's box by more than iou_threshold,
      the window signals no change and keeps last_shot_timestamp_. Meta-face ids
      restart in every window, so this holds whatever ids the two speakers had. */
  lemma OverlappingSpeakerIsNoChange(buff: seq<LipSignal>, o: Options, table: map<int, seq<int>>, dominant: int,
                                     preId: int, preDet: seq<Detection>, lastShot0: int,
                                     roi: seq<(int, seq<Detection>)>, shots: seq<(int, bool)>,
                                     last: seq<Detection>, lastShot: int)
    requires SceneOutput(buff, o, table, dominant, preId, preDet, lastShot0, roi, shots, last, lastShot)
    requires dominant != -1 && preId != -1 && preDet != []
    requires Greater(GetIou(preDet[0], FirstSpeakerBox(buff, table, dominant)), o.iouThreshold)
    ensures o.hasShotStream && o.outputShotBoundary ==>
      shots == (if o.outputShotBoundaryOnlyOnChange then [] else [(buff[0].timestamp, false)])
    ensures !(o.hasShotStream && o.outputShotBoundary) ==> shots == []
    ensures lastShot == lastShot0
  {
  }

  /** A dominant speaker whose first box overlaps the previous speaker's box by
      at most iou_threshold is a change: it is signalled when min_shot_span has
      passed since the last shot, and it moves last_shot_timestamp_ either way. */
  lemma MovedSpeakerIsChange(buff: seq<LipSignal>, o: Options, table: map<int, seq<int>>, dominant: int,
                             preId: int, preDet: seq<Detection>, lastShot0: int,
                             roi: seq<(int, seq<Detection>)>, shots: seq<(int, bool)>,
                             last: seq<Detection>, lastShot: int)
    requires SceneOutput(buff, o, table, dominant, preId, preDet, lastShot0, roi, shots, last, lastShot)
    requires dominant != -1 && preId != -1 && preDet != []
    requires !Greater(GetIou(preDet[0], FirstSpeakerBox(buff, table, dominant)), o.iouThreshold)
    requires o.hasShotStream && o.outputShotBoundary
    ensures buff[0].timestamp - lastShot0 >= o.minShotSpan ==> shots == [(buff[0].timestamp, true)]
    ensures buff[0].timestamp - lastShot0 < o.minShotSpan ==>
      shots == (if o.outputShotBoundaryOnlyOnChange then [] else [(buff[0].timestamp, false)])
    ensures lastShot == buff[0].timestamp
  {
  }

  /** One window processed by a run of Process calls (and a final Close): its
      buffer, its meta-face table and dominant speaker, and its ROI and shot
      packets. */
  datatype Scene = Scene(buff: seq<LipSignal>, table: map<int, seq<int>>, dominant: int,
                         roi: seq<(int, seq<Detection>)>, shots: seq<(int, bool)>)

  /** Successive processed windows: window i starts from the speaker id
      `ids[i]`, the speaker box `boxes[i]` and the last shot time `lastShots[i]`
      that window i - 1 left, as the postconditions of Process and Close state of
      one processed window. */
  ghost predicate ScenesChained(o: Options, scenes: seq<Scene>, ids: seq<int>, boxes: seq<seq<Detection>>,
                                lastShots: seq<int>)
  {
    |ids| == |boxes| == |lastShots| == |scenes| + 1 &&
    (forall i :: 0 <= i < |scenes| ==> |scenes[i].buff| > 0) &&
    forall i :: 0 <= i < |scenes| ==>
      ids[i + 1] == scenes[i].dominant &&
      SceneOutput(scenes[i].buff, o, scenes[i].table, scenes[i].dominant, ids[i], boxes[i], lastShots[i],
                  scenes[i].roi, scenes[i].shots, boxes[i + 1], lastShots[i + 1])
  }

  /** One more ProcessScene call extends the run. */
  lemma ScenesChainedExtend(o: Options, scenes: seq<Scene>, ids: seq<int>, boxes: seq<seq<Detection>>,
                            lastShots: seq<int>, next: Scene, box: seq<Detection>, lastShot: int)
    requires ScenesChained(o, scenes, ids, boxes, lastShots)
    requires SceneOutput(next.buff, o, next.table, next.dominant, ids[|scenes|], boxes[|scenes|],
                         lastShots[|scenes|], next.roi, next.shots, box, lastShot)
    ensures ScenesChained(o, scenes + [next], ids + [next.dominant], boxes + [box], lastShots + [lastShot])
  {
    var scenes' := scenes + [next];
    forall i | 0 <= i < |scenes'|
      ensures (ids + [next.dominant])[i + 1] == scenes'[i].dominant
      ensures SceneOutput(scenes'[i].buff, o, scenes'[i].table, scenes'[i].dominant, (ids + [next.dominant])[i],
                          (boxes + [box])[i], (lastShots + [lastShot])[i], scenes'[i].roi, scenes'[i].shots,
                          (boxes + [box])[i + 1], (lastShots + [lastShot])[i + 1])
    {
      if i < |scenes| {
        assert scenes'[i] == scenes[i];
      }
    }
  }

  /** The shot decision of a window before the debounce, with the window's first
      timestamp: true exactly when the window moves last_shot_timestamp_. */
  ghost function SceneDecision(scene: Scene, o: Options, preId: int, preDet: seq<Detection>): (int, bool)
    requires |scene.buff| > 0
  {
    (scene.buff[0].timestamp,
     o.hasShotStream && o.outputShotBoundary && scene.dominant != -1 && scene.dominant in scene.table &&
     IsRow(scene.buff, scene.table[scene.dominant]) && FirstPresent(scene.table[scene.dominant]) != -1 &&
     ShotDecision(preId, preDet, FirstSpeakerBox(scene.buff, scene.table, scene.dominant), o) == Some(true))
  }

  /** The decisions of the windows of a run, in order. */
  ghost function SceneDecisions(o: Options, scenes: seq<Scene>, ids: seq<int>, boxes: seq<seq<Detection>>)
    : (ds: seq<(int, bool)>)
    requires |scenes| <= |ids| && |scenes| <= |boxes|
    requires forall i :: 0 <= i < |scenes| ==> |scenes[i].buff| > 0
    ensures |ds| == |scenes|
  {
    seq(|scenes|, i requires 0 <= i < |scenes| => SceneDecision(scenes[i], o, ids[i], boxes[i]))
  }

  /** Across a run, last_shot_timestamp_ before window n is LastShotAfter the
      decisions of the first n windows. */
  lemma {:induction false} ScenesLastShot(o: Options, scenes: seq<Scene>, ids: seq<int>, boxes: seq<seq<Detection>>,
                                          lastShots: seq<int>, n: nat)
    requires ScenesChained(o, scenes, ids, boxes, lastShots) && n <= |scenes|
    ensures lastShots[n] == LastShotAfter(SceneDecisions(o, scenes, ids, boxes)[..n], lastShots[0])
  {
    if n > 0 {
      ScenesLastShot(o, scenes, ids, boxes, lastShots, n - 1);
      var ds := SceneDecisions(o, scenes, ids, boxes);
      assert ds[..n][..n - 1] == ds[..n - 1];
      assert ds[..n][n - 1] == SceneDecision(scenes[n - 1], o, ids[n - 1], boxes[n - 1]);
    }
  }

  /** Window i of a run signals a change exactly when EmitsChange says so of the
      run's decisions. */
  lemma ScenesSignalChange(o: Options, scenes: seq<Scene>, ids: seq<int>, boxes: seq<seq<Detection>>,
                           lastShots: seq<int>, i: nat)
    requires ScenesChained(o, scenes, ids, boxes, lastShots) && i < |scenes|
    ensures scenes[i].shots == [(scenes[i].buff[0].timestamp, true)] <==>
      EmitsChange(SceneDecisions(o, scenes, ids, boxes), lastShots[0], o.minShotSpan, i)
  {
    ScenesLastShot(o, scenes, ids, boxes, lastShots, i);
    var scene, ds := scenes[i], SceneDecisions(o, scenes, ids, boxes);
    var ts := scene.buff[0].timestamp;
    assert SceneOutput(scene.buff, o, scene.table, scene.dominant, ids[i], boxes[i], lastShots[i],
                       scene.roi, scene.shots, boxes[i + 1], lastShots[i + 1]);
    assert ds[i] == SceneDecision(scene, o, ids[i], boxes[i]);
    assert [(ts, false)] != [(ts, true)] by {
      assert [(ts, false)][0] != [(ts, true)][0];
    }
    if scene.dominant != -1 {
      var first := FirstSpeakerBox(scene.buff, scene.table, scene.dominant);
      var d := if o.hasShotStream && o.outputShotBoundary then ShotDecision(ids[i], boxes[i], first, o) else None;
      assert scene.shots == (if d.None? then [] else ShotPackets(d.value, ts, lastShots[i], o));
      assert ds[i].1 == (d == Some(true));
    }
  }

  /** With windows in time order, two windows of a run that signal a change
      start at least min_shot_span apart. */
  lemma ScenesChangesAreSpaced(o: Options, scenes: seq<Scene>, ids: seq<int>, boxes: seq<seq<Detection>>,
                               lastShots: seq<int>, i: nat, j: nat)
    requires ScenesChained(o, scenes, ids, boxes, lastShots) && i < j < |scenes|
    requires forall a, b :: 0 <= a < b < |scenes| ==> scenes[a].buff[0].timestamp <= scenes[b].buff[0].timestamp
    requires scenes[i].shots == [(scenes[i].buff[0].timestamp, true)]
    requires scenes[j].shots == [(scenes[j].buff[0].timestamp, true)]
    ensures scenes[j].buff[0].timestamp - scenes[i].buff[0].timestamp >= o.minShotSpan
  {
    var ds := SceneDecisions(o, scenes, ids, boxes);
    ScenesSignalChange(o, scenes, ids, boxes, lastShots, i);
    ScenesSignalChange(o, scenes, ids, boxes, lastShots, j);
    EmittedChangesAreSpaced(ds, lastShots[0], o.minShotSpan, i, j);
  }

  /** The state the per-frame loop leaves for the next frame (face_bbox_ and
      meta_face_indices_): one meta-face id below `count` per detection. */
  ghost predicate IsPreviousFrame(boxes: seq<Detection>, meta: seq<int>, count: nat)
  {
    |meta| == |boxes| && IdsBelow(meta, count)
  }

  predicate IdsBelow(ids: seq<int>, count: nat)
  {
    forall k :: 0 <= k < |ids| ==> 0 <= ids[k] < count
  }

  /** The table a frame at position `b` of `n` starts from: its slots for that
      frame are still -1. */
  ghost predicate IsFrameStart(metaFaces0: map<int, seq<int>>, count0: nat, n: nat, b: nat)
  {
    IsTable(metaFaces0, count0, n) && b < n && forall m :: m in metaFaces0 ==> metaFaces0[m][b] == -1
  }

  /** Every MatchFace answer is -1 or a face of the previous frame. */
  predicate InRange(matches: seq<int>, bound: nat)
  {
    forall k :: 0 <= k < |matches| ==> -1 <= matches[k] < bound
  }

  /** The history of a face with lip statistic x whose MatchFace answer is r:
      the matched face's history rolled forward, or x alone. */
  function FaceHistory(prevStats: map<int, seq<real>>, r: int, x: real, varianceHistory: nat): seq<real>
  {
    if r == -1 then [x] else Rolled(HistoryOf(prevStats, r), x, varianceHistory)
  }

  /** `face_statistics_[k]`: the history of face k, and an empty one (which the map
      then inserts) for a key it does not hold. */
  function HistoryOf(stats: map<int, seq<real>>, k: int): seq<real>
  {
    if k in stats then stats[k] else []
  }

  /** The histories (cur_face_statistics) of a frame whose faces got the MatchFace
      answers `matches` and the lip statistics `stats`: a matched face rolls its
      previous face's history forward, an unmatched one starts afresh. */
  function NewHistories(matches: seq<int>, stats: seq<real>, prevStats: map<int, seq<real>>, varianceHistory: nat)
    : (hs: seq<seq<real>>)
    requires |matches| <= |stats|
    ensures |hs| == |matches|
  {
    if |matches| == 0 then []
    else
      var n := |matches| - 1;
      NewHistories(matches[..n], stats, prevStats, varianceHistory) +
        [FaceHistory(prevStats, matches[n], stats[n], varianceHistory)]
  }

  lemma {:induction false} NewHistoryOfFace(matches: seq<int>, stats: seq<real>, prevStats: map<int, seq<real>>,
                                            varianceHistory: nat, k: nat)
    requires k < |matches| <= |stats|
    ensures NewHistories(matches, stats, prevStats, varianceHistory)[k] ==
      FaceHistory(prevStats, matches[k], stats[k], varianceHistory)
  {
    var n := |matches| - 1;
    var before := NewHistories(matches[..n], stats, prevStats, varianceHistory);
    assert NewHistories(matches, stats, prevStats, varianceHistory)[k] ==
      if k < n then before[k]
      else FaceHistory(prevStats, matches[n], stats[n], varianceHistory);
    if k < n {
      NewHistoryOfFace(matches[..n], stats, prevStats, varianceHistory, k);
      assert matches[..n][k] == matches[k];
    }
  }

  /** One more face: a fresh history, or its previous face's history rolled forward. */
  lemma NewHistoriesAppend(matches: seq<int>, stats: seq<real>, prevStats: map<int, seq<real>>,
                           varianceHistory: nat, r: int)
    requires |matches| < |stats|
    ensures NewHistories(matches + [r], stats, prevStats, varianceHistory) ==
      NewHistories(matches, stats, prevStats, varianceHistory) +
        [FaceHistory(prevStats, r, stats[|matches|], varianceHistory)]
  {
    assert (matches + [r])[..|matches|] == matches;
  }

  /** cur_face_statistics keyed by face index: face k's history is `hists[k]`, and
      there is no other key. */
  ghost predicate HoldsHistories(cur: map<int, seq<real>>, hists: seq<seq<real>>)
  {
    (forall k :: k in cur ==> 0 <= k < |hists|) &&
    (forall k :: 0 <= k < |hists| ==> k in cur && cur[k] == hists[k])
  }

  /** The table part of the per-frame loop's locals: meta_faces, meta_face_count
      and cur_meta_face_indices. */
  datatype FrameSlots = FrameSlots(metaFaces: map<int, seq<int>>, metaFaceCount: nat, metaIds: seq<int>)

  /** The judging part: cur_face_statistics and cur_speaker_id, together with
      speaker_mean_ and speaker_variance_. */
  datatype FrameJudgement = FrameJudgement(histories: map<int, seq<real>>, speaker: int,
                                           speakerMean: real, speakerVariance: real)

  /** What the per-frame loop (lines 286-302) has made of the table for the first
      |matches| faces of frame b, given the MatchFace answers `matches` and the
      previous frame's meta-face ids: face k inherits the matched face's id, or
      mints the next id with a new row, and takes its slot in frame b. */
  function SlotFaces(prevMeta: seq<int>, metaFaces0: map<int, seq<int>>, count0: nat, n: nat, b: nat,
                     matches: seq<int>): (t: FrameSlots)
    requires InRange(matches, |prevMeta|)
    requires IdsBelow(prevMeta, count0) && IsFrameStart(metaFaces0, count0, n, b)
    ensures |t.metaIds| == |matches| && count0 <= t.metaFaceCount && IsTable(t.metaFaces, t.metaFaceCount, n)
  {
    if |matches| == 0 then
      FrameSlots(metaFaces0, count0, [])
    else
      var k := |matches| - 1;
      var t := SlotFaces(prevMeta, metaFaces0, count0, n, b, matches[..k]);
      var r := matches[k];
      if r == -1 then
        FrameSlots(t.metaFaces[t.metaFaceCount := Absent(n)[b := k]], t.metaFaceCount + 1,
                   t.metaIds + [t.metaFaceCount])
      else
        var id := prevMeta[r];
        FrameSlots(t.metaFaces[id := t.metaFaces[id][b := k]], t.metaFaceCount, t.metaIds + [id])
  }

  /** The table SlotFaces arrives at differs from the window's table only in
      frame b, where meta-face m holds the last face of the frame with id m, and
      every face's id is below the new count. */
  lemma {:induction false} SlotFacesTable(prevMeta: seq<int>, metaFaces0: map<int, seq<int>>, count0: nat,
                                          n: nat, b: nat, matches: seq<int>)
    requires InRange(matches, |prevMeta|)
    requires IdsBelow(prevMeta, count0) && IsFrameStart(metaFaces0, count0, n, b)
    ensures var t := SlotFaces(prevMeta, metaFaces0, count0, n, b, matches);
      IsFrameTable(metaFaces0, count0, t.metaFaces, t.metaFaceCount, n, b, t.metaIds)
  {
    if |matches| == 0 {
      FrameTableStart(metaFaces0, count0, n, b);
    } else {
      var k := |matches| - 1;
      SlotFacesTable(prevMeta, metaFaces0, count0, n, b, matches[..k]);
      var t := SlotFaces(prevMeta, metaFaces0, count0, n, b, matches[..k]);
      if matches[k] == -1 {
        FrameTableMint(metaFaces0, count0, t.metaFaces, t.metaFaceCount, n, b, t.metaIds, Absent(n));
      } else {
        FrameTableReuse(metaFaces0, count0, t.metaFaces, t.metaFaceCount, n, b, t.metaIds, prevMeta[matches[k]]);
      }
    }
  }

  /** What the per-frame loop (lines 270-306) has made of the histories and the
      speaker for the first |matches| faces of a frame with lip statistics
      `stats`: face k rolls its matched face's history forward or starts one, and
      IsActiveSpeaker is asked about that history. */
  function JudgeFaces(prevStats: map<int, seq<real>>, o: Options, stats: seq<real>, matches: seq<int>)
    : (j: FrameJudgement)
    requires |matches| <= |stats|
    ensures -1 <= j.speaker < |matches|
  {
    if |matches| == 0 then FrameJudgement(map[], -1, 0.0, 0.0)
    else
      var k := |matches| - 1;
      JudgeFace(JudgeFaces(prevStats, o, stats, matches[..k]), k,
                FaceHistory(prevStats, matches[k], stats[k], o.varianceHistory), o)
  }

  /** Face k with history h joins cur_face_statistics and is judged against the
      incumbent; if IsActiveSpeaker says yes, it becomes the frame's speaker
      and the incumbent. */
  function JudgeFace(j: FrameJudgement, k: int, h: seq<real>, o: Options): (j': FrameJudgement)
    ensures j'.histories == j.histories[k := h]
    ensures j'.speaker == k || j'.speaker == j.speaker
  {
    if Speaks(h, o, j.speakerMean, j.speakerVariance) then
      FrameJudgement(j.histories[k := h], k, MeanShort(h, o.meanHistory), Variance(h))
    else
      FrameJudgement(j.histories[k := h], j.speaker, j.speakerMean, j.speakerVariance)
  }

  /** The meta-face ids and the id count SlotFaces arrives at are MetaIds's and
      Unmatched's. */
  lemma {:induction false} SlotFacesIds(prevMeta: seq<int>, metaFaces0: map<int, seq<int>>, count0: nat,
                                        n: nat, b: nat, matches: seq<int>)
    requires InRange(matches, |prevMeta|)
    requires IdsBelow(prevMeta, count0) && IsFrameStart(metaFaces0, count0, n, b)
    ensures var t := SlotFaces(prevMeta, metaFaces0, count0, n, b, matches);
      t.metaIds == MetaIds(matches, prevMeta, count0) && t.metaFaceCount == count0 + Unmatched(matches)
  {
    if |matches| > 0 {
      var k := |matches| - 1;
      SlotFacesIds(prevMeta, metaFaces0, count0, n, b, matches[..k]);
    }
  }

  /** cur_face_statistics holds, under each face index, the history NewHistories
      gives that face, and nothing else. */
  lemma {:induction false} JudgeFacesHistories(prevStats: map<int, seq<real>>, o: Options, stats: seq<real>,
                                               matches: seq<int>)
    requires |matches| <= |stats|
    ensures HoldsHistories(JudgeFaces(prevStats, o, stats, matches).histories,
                           NewHistories(matches, stats, prevStats, o.varianceHistory))
  {
    if |matches| > 0 {
      var k := |matches| - 1;
      JudgeFacesHistories(prevStats, o, stats, matches[..k]);
    }
  }

  /** cur_speaker_id is the last face for which IsActiveSpeaker answered true, and
      speaker_mean_ and speaker_variance_ are those of the last face judged
      active, when the faces are judged in order from (0, 0). */
  lemma {:induction false} JudgeFacesSpeaker(prevStats: map<int, seq<real>>, o: Options, stats: seq<real>,
                                             matches: seq<int>)
    requires |matches| <= |stats|
    ensures var j := JudgeFaces(prevStats, o, stats, matches);
      var hs := NewHistories(matches, stats, prevStats, o.varianceHistory);
      (j.speakerMean, j.speakerVariance) == RatchetAfter(hs, o, 0.0, 0.0) && j.speaker == LastFlagged(hs, o)
  {
    if |matches| > 0 {
      var k := |matches| - 1;
      JudgeFacesSpeaker(prevStats, o, stats, matches[..k]);
      var hs := NewHistories(matches, stats, prevStats, o.varianceHistory);
      assert hs[..k] == NewHistories(matches[..k], stats, prevStats, o.varianceHistory);
    }
  }

  /** What the per-frame loop carries from one handled frame to the next:
      face_bbox_, face_statistics_, meta_face_indices_ and meta_face_count. */
  datatype FrameState = FrameState(boxes: seq<Detection>, histories: map<int, seq<real>>,
                                   metaIds: seq<int>, count: nat)

  /** The state a window starts from: nothing carried over. */
  const InitialFrame := FrameState([], map[], [], 0)

  /** The state before frame b, given the states `after` each earlier frame. */
  function Before(after: seq<FrameState>, b: nat): FrameState
    requires b <= |after|
  {
    if b == 0 then InitialFrame else after[b - 1]
  }

  /** Frame b of the window, with MatchFace answers `matches`, speaker candidate
      `speaker` and meta-face ids `ids`, turns the state `prev` into `next`: a
      skipped frame changes nothing; any other frame matches each detection
      against the previous boxes, judges the faces with their histories, and
      gives each face its previous face's id or a fresh one. */
  ghost predicate FrameStep(s: LipSignal, o: Options, prev: FrameState, matches: seq<int>,
                            speaker: int, ids: seq<int>, next: FrameState)
  {
    if IsSkipped(s) then next == prev
    else
      IsAdmissible(s) && |matches| == |s.detections| &&
      AllBestMatches(prev.boxes, s.detections, o.iouThreshold, matches) &&
      InRange(matches, |prev.metaIds|) &&
      var j := JudgeFaces(prev.histories, o, Statistics(s.landmarkLists), matches);
      speaker == j.speaker && ids == MetaIds(matches, prev.metaIds, prev.count) &&
      next == FrameState(s.detections, j.histories, ids, prev.count + Unmatched(matches))
  }

  /** A frame that TrackFrame handled is one FrameStep. */
  lemma TrackedFrameStep(s: LipSignal, o: Options, prev: FrameState, matches: seq<int>,
                         speaker: int, ids: seq<int>, next: FrameState)
    requires !IsSkipped(s) && IsAdmissible(s) && |matches| == |s.detections|
    requires AllBestMatches(prev.boxes, s.detections, o.iouThreshold, matches) && InRange(matches, |prev.metaIds|)
    requires var j := JudgeFaces(prev.histories, o, Statistics(s.landmarkLists), matches);
      speaker == j.speaker && ids == MetaIds(matches, prev.metaIds, prev.count) &&
      next == FrameState(s.detections, j.histories, ids, prev.count + Unmatched(matches))
    ensures FrameStep(s, o, prev, matches, speaker, ids, next)
  {
  }

  /** The first |after| frames of `buff` were handled in turn from InitialFrame. */
  ghost predicate FramesJudged(buff: seq<LipSignal>, o: Options, speakers: seq<int>, metaOf: seq<seq<int>>,
                               matchesOf: seq<seq<int>>, after: seq<FrameState>)
    decreases |after|
  {
    |speakers| == |metaOf| == |matchesOf| == |after| <= |buff| &&
    (|after| == 0 ||
     var n := |after| - 1;
     FramesJudged(buff, o, speakers[..n], metaOf[..n], matchesOf[..n], after[..n]) &&
     FrameStep(buff[n], o, Before(after, n), matchesOf[n], speakers[n], metaOf[n], after[n]))
  }

  /** One more frame handled. */
  lemma FramesJudgedExtend(buff: seq<LipSignal>, o: Options, speakers: seq<int>, metaOf: seq<seq<int>>,
                           matchesOf: seq<seq<int>>, after: seq<FrameState>,
                           matches: seq<int>, speaker: int, ids: seq<int>, next: FrameState)
    requires FramesJudged(buff, o, speakers, metaOf, matchesOf, after) && |after| < |buff|
    requires FrameStep(buff[|after|], o, Before(after, |after|), matches, speaker, ids, next)
    ensures FramesJudged(buff, o, speakers + [speaker], metaOf + [ids], matchesOf + [matches], after + [next])
  {
    var n := |after|;
    var speakers', metaOf', matchesOf', after' := speakers + [speaker], metaOf + [ids], matchesOf + [matches], after + [next];
    assert speakers'[..n] == speakers && metaOf'[..n] == metaOf;
    assert matchesOf'[..n] == matchesOf && after'[..n] == after;
    assert Before(after', n) == Before(after, n);
    assert speakers'[n] == speaker && metaOf'[n] == ids && matchesOf'[n] == matches && after'[n] == next;
    FramesJudgedCons(buff, o, speakers', metaOf', matchesOf', after');
  }

  /** The definition of FramesJudged for a trace of at least one frame. */
  lemma FramesJudgedCons(buff: seq<LipSignal>, o: Options, speakers: seq<int>, metaOf: seq<seq<int>>,
                         matchesOf: seq<seq<int>>, after: seq<FrameState>)
    requires |speakers| == |metaOf| == |matchesOf| == |after| && 0 < |after| <= |buff|
    requires var n := |after| - 1;
      FramesJudged(buff, o, speakers[..n], metaOf[..n], matchesOf[..n], after[..n]) &&
      FrameStep(buff[n], o, Before(after, n), matchesOf[n], speakers[n], metaOf[n], after[n])
    ensures FramesJudged(buff, o, speakers, metaOf, matchesOf, after)
  {
  }

  /** Each handled frame b is one FrameStep from the state after frame b - 1. */
  lemma {:induction false} FramesJudgedAt(buff: seq<LipSignal>, o: Options, speakers: seq<int>, metaOf: seq<seq<int>>,
                                          matchesOf: seq<seq<int>>, after: seq<FrameState>, b: nat)
    requires FramesJudged(buff, o, speakers, metaOf, matchesOf, after) && b < |after|
    ensures FrameStep(buff[b], o, Before(after, b), matchesOf[b], speakers[b], metaOf[b], after[b])
    decreases |after|
  {
    var n := |after| - 1;
    if b < n {
      FramesJudgedAt(buff, o, speakers[..n], metaOf[..n], matchesOf[..n], after[..n], b);
      assert Before(after[..n], b) == Before(after, b);
    }
  }

  /** Across the window: the speaker candidate of a handled frame is the last of
      its faces that IsActiveSpeaker flags, each face judged on the history it
      carries over from the frame handled before, and each face takes its
      previous face's meta-face id or a fresh one. */
  lemma WindowSpeakers(buff: seq<LipSignal>, o: Options, speakers: seq<int>, metaOf: seq<seq<int>>,
                       matchesOf: seq<seq<int>>, after: seq<FrameState>, b: nat)
    requires FramesJudged(buff, o, speakers, metaOf, matchesOf, after) && b < |after| && !IsSkipped(buff[b])
    ensures IsAdmissible(buff[b])
    ensures var prev, stats := Before(after, b), Statistics(buff[b].landmarkLists);
      |matchesOf[b]| == |buff[b].detections| <= |stats| && InRange(matchesOf[b], |prev.metaIds|) &&
      speakers[b] == LastFlagged(NewHistories(matchesOf[b], stats, prev.histories, o.varianceHistory), o) &&
      metaOf[b] == MetaIds(matchesOf[b], prev.metaIds, prev.count)
  {
    FramesJudgedAt(buff, o, speakers, metaOf, matchesOf, after, b);
    JudgeFacesSpeaker(Before(after, b).histories, o, Statistics(buff[b].landmarkLists), matchesOf[b]);
  }

  /** When the frames strictly between b and c are skipped, frame c starts from
      the state frame b left. */
  lemma {:induction false} SkippedFramesKeepState(buff: seq<LipSignal>, o: Options, speakers: seq<int>,
                                                  metaOf: seq<seq<int>>, matchesOf: seq<seq<int>>,
                                                  after: seq<FrameState>, b: nat, c: nat)
    requires FramesJudged(buff, o, speakers, metaOf, matchesOf, after) && b < c <= |after|
    requires forall j :: b < j < c ==> IsSkipped(buff[j])
    ensures Before(after, c) == after[b]
    decreases c
  {
    if c > b + 1 {
      SkippedFramesKeepState(buff, o, speakers, metaOf, matchesOf, after, b, c - 1);
      FramesJudgedAt(buff, o, speakers, metaOf, matchesOf, after, c - 1);
    }
  }

  /** Every box has positive width and height. */
  predicate AllSolid(boxes: seq<Detection>)
  {
    forall k :: 0 <= k < |boxes| ==> boxes[k].width > 0.0 && boxes[k].height > 0.0
  }

  /** No box occurs twice. */
  predicate AllDistinct(boxes: seq<Detection>)
  {
    forall i, j :: 0 <= i < j < |boxes| ==> boxes[i] != boxes[j]
  }

  /** A face that has not moved keeps its meta-face id: when handled frame c
      shows exactly the boxes of handled frame b, the last frame handled before
      it, and those boxes are non-degenerate and pairwise distinct, then with
      iou_threshold at most 1 each face of frame c is matched to the face at its
      own index in frame b and takes that face's meta-face id. */
  lemma UnmovedFacesKeepIds(buff: seq<LipSignal>, o: Options, speakers: seq<int>, metaOf: seq<seq<int>>,
                            matchesOf: seq<seq<int>>, after: seq<FrameState>, b: nat, c: nat, k: nat)
    requires FramesJudged(buff, o, speakers, metaOf, matchesOf, after) && b < c < |after|
    requires !IsSkipped(buff[b]) && !IsSkipped(buff[c]) && forall j :: b < j < c ==> IsSkipped(buff[j])
    requires buff[c].detections == buff[b].detections
    requires AllSolid(buff[b].detections) && AllDistinct(buff[b].detections)
    requires o.iouThreshold <= 1.0 && k < |buff[c].detections|
    ensures |matchesOf[c]| == |metaOf[c]| == |metaOf[b]| == |buff[b].detections|
    ensures matchesOf[c][k] == k && metaOf[c][k] == metaOf[b][k]
  {
    SkippedFramesKeepState(buff, o, speakers, metaOf, matchesOf, after, b, c);
    FramesJudgedAt(buff, o, speakers, metaOf, matchesOf, after, b);
    FramesJudgedAt(buff, o, speakers, metaOf, matchesOf, after, c);
    var prev := buff[b].detections;
    assert after[b].boxes == prev && after[b].metaIds == metaOf[b];
    AllBestMatchesAt(prev, buff[c].detections, o.iouThreshold, matchesOf[c], k);
    var r := matchesOf[c][k];
    IdenticalBoxIsMatched(prev, k, o.iouThreshold, r);
    IouOneMeansSameBox(prev[r], prev[k]);
    MetaIdsOfFaces(matchesOf[c], metaOf[b], after[b].count, k);
  }

  /** Two identical boxes of one frame get the same MatchFace answer; when it is
      a face of the previous frame, both faces carry that face's meta-face id, and
      the table's slot for the frame keeps only the later of them. */
  lemma DuplicateBoxesShareId(buff: seq<LipSignal>, o: Options, speakers: seq<int>, metaOf: seq<seq<int>>,
                              matchesOf: seq<seq<int>>, after: seq<FrameState>, b: nat, k1: nat, k2: nat)
    requires FramesJudged(buff, o, speakers, metaOf, matchesOf, after) && b < |after| && !IsSkipped(buff[b])
    requires k1 < k2 < |buff[b].detections| && buff[b].detections[k1] == buff[b].detections[k2]
    ensures |matchesOf[b]| == |metaOf[b]| == |buff[b].detections|
    ensures matchesOf[b][k1] == matchesOf[b][k2]
    ensures matchesOf[b][k1] != -1 ==> metaOf[b][k1] == metaOf[b][k2]
  {
    FramesJudgedAt(buff, o, speakers, metaOf, matchesOf, after, b);
    var prev := Before(after, b);
    AllBestMatchesAt(prev.boxes, buff[b].detections, o.iouThreshold, matchesOf[b], k1);
    AllBestMatchesAt(prev.boxes, buff[b].detections, o.iouThreshold, matchesOf[b], k2);
    BestMatchIsUnique(prev.boxes, buff[b].detections[k1], o.iouThreshold, matchesOf[b][k1], matchesOf[b][k2]);
    MetaIdsOfFaces(matchesOf[b], prev.metaIds, prev.count, k1);
    MetaIdsOfFaces(matchesOf[b], prev.metaIds, prev.count, k2);
  }

  /** The first b frames of `buff` were handled in turn, the window's meta-face
      table and id count describe them, and `cur` is the state after frame b - 1. */
  ghost predicate TrackedSoFar(buff: seq<LipSignal>, o: Options, b: nat, metaFaces: map<int, seq<int>>,
                               speakers: seq<int>, metaOf: seq<seq<int>>,
                               matchesOf: seq<seq<int>>, after: seq<FrameState>, cur: FrameState)
  {
    b <= |buff| && |metaOf| == b &&
    IsWindowTable(buff, metaFaces, cur.count, speakers, metaOf) &&
    FramesJudged(buff, o, speakers, metaOf, matchesOf, after) &&
    Before(after, b) == cur && IsPreviousFrame(cur.boxes, cur.metaIds, cur.count)
  }

  lemma SkippedSoFar(buff: seq<LipSignal>, o: Options, b: nat, metaFaces: map<int, seq<int>>,
                     speakers: seq<int>, metaOf: seq<seq<int>>,
                     matchesOf: seq<seq<int>>, after: seq<FrameState>, cur: FrameState)
    requires TrackedSoFar(buff, o, b, metaFaces, speakers, metaOf, matchesOf, after, cur)
    requires b < |buff| && IsSkipped(buff[b])
    ensures TrackedSoFar(buff, o, b + 1, metaFaces, speakers + [-1], metaOf + [[]], matchesOf + [[]],
                         after + [cur], cur)
  {
    WindowTableSkip(buff, metaFaces, cur.count, speakers, metaOf);
    FramesJudgedExtend(buff, o, speakers, metaOf, matchesOf, after, [], -1, [], cur);
    assert Before(after + [cur], b + 1) == cur;
  }

  /** What TrackFrame promises about frame b makes the window one frame longer. */
  lemma TrackedFrameSoFar(buff: seq<LipSignal>, o: Options, b: nat, metaFaces: map<int, seq<int>>,
                          speakers: seq<int>, metaOf: seq<seq<int>>,
                          matchesOf: seq<seq<int>>, after: seq<FrameState>, cur: FrameState,
                          metaFaces': map<int, seq<int>>, matches: seq<int>, speaker: int, next: FrameState)
    requires TrackedSoFar(buff, o, b, metaFaces, speakers, metaOf, matchesOf, after, cur)
    requires b < |buff| && !IsSkipped(buff[b]) && IsAdmissible(buff[b]) && next.boxes == buff[b].detections
    requires |matches| == |buff[b].detections| && InRange(matches, |cur.boxes|)
    requires AllBestMatches(cur.boxes, buff[b].detections, o.iouThreshold, matches)
    requires FrameSlots(metaFaces', next.count, next.metaIds) ==
             SlotFaces(cur.metaIds, metaFaces, cur.count, |buff|, b, matches)
    requires IsFrameTable(metaFaces, cur.count, metaFaces', next.count, |buff|, b, next.metaIds)
    requires var j := JudgeFaces(cur.histories, o, Statistics(buff[b].landmarkLists), matches);
      speaker == j.speaker && next.histories == j.histories
    ensures TrackedSoFar(buff, o, b + 1, metaFaces', speakers + [speaker], metaOf + [next.metaIds],
                         matchesOf + [matches], after + [next], next)
    ensures -1 <= speaker < |next.metaIds| && forall k :: 0 <= k < |next.metaIds| ==> 0 <= next.metaIds[k] < next.count
  {
    SlotFacesIds(cur.metaIds, metaFaces, cur.count, |buff|, b, matches);
    WindowTableExtend(buff, metaFaces, cur.count, speakers, metaOf, metaFaces', next.count, next.metaIds, speaker);
    TrackedFrameStep(buff[b], o, cur, matches, speaker, next.metaIds, next);
    FramesJudgedExtend(buff, o, speakers, metaOf, matchesOf, after, matches, speaker, next.metaIds, next);
    assert Before(after + [next], b + 1) == next;
  }

  /** The table update for face i = |matches| of frame b (lines 286-302), whose
      MatchFace answer is `r`: reuse the matched face's meta-face id, or mint the
      next one with a new row of -1, and put i in that row's slot for frame b. */
  method SlotFace(prevMeta: seq<int>, metaFaces0: map<int, seq<int>>, count0: nat, n: nat, b: nat,
                  ghost matches: seq<int>, r: int, metaFaces: map<int, seq<int>>, count: nat, cur: seq<int>)
    returns (metaFaces': map<int, seq<int>>, count': nat, cur': seq<int>)
    requires InRange(matches, |prevMeta|) && -1 <= r < |prevMeta|
    requires IdsBelow(prevMeta, count0) && IsFrameStart(metaFaces0, count0, n, b)
    requires FrameSlots(metaFaces, count, cur) == SlotFaces(prevMeta, metaFaces0, count0, n, b, matches)
    ensures InRange(matches + [r], |prevMeta|)
    ensures FrameSlots(metaFaces', count', cur') == SlotFaces(prevMeta, metaFaces0, count0, n, b, matches + [r])
  {
    var i := |cur|;
    assert (matches + [r])[..i] == matches;
    count' := count;
    if r != -1 {
      var metaFaceIdx := prevMeta[r];
      metaFaces' := metaFaces[metaFaceIdx := metaFaces[metaFaceIdx][b := i]];
      cur' := cur + [metaFaceIdx];
    } else {
      var row := AbsentRow(n);
      metaFaces' := metaFaces[count := row[b := i]];
      cur' := cur + [count];
      count' := count + 1;
    }
  }

  /** The deque of a new face with lip statistic x whose MatchFace answer is r
      (lines 274-285, 294). */
  method StartHistory(prevStats: map<int, seq<real>>, r: int, x: real, varianceHistory: nat) returns (h: seq<real>)
    ensures h == FaceHistory(prevStats, r, x, varianceHistory)
  {
    if r != -1 {
      h := RollHistory(HistoryOf(prevStats, r), x, varianceHistory);
    } else {
      h := [x];
    }
  }

  class LipTrackCalculator {
    const options: Options
    // face_bbox_: the detections of the last frame handled by the per-frame loop
    var faceBoxes: seq<Detection>
    // face_statistics_: the history of each face of that frame, by face index
    var faceStatistics: map<int, seq<real>>
    // meta_face_indices_: the meta-face id of each face of that frame
    var metaFaceIndices: seq<int>
    // speaker_mean_, speaker_variance_: the incumbent speaker's strength
    var speakerMean: real
    var speakerVariance: real
    // pre_dominate_speaker_id_, pre_dominate_speaker_detection_
    var preDominantSpeakerId: int
    var preDominantSpeakerDetection: seq<Detection>
    // last_shot_timestamp_
    var lastShotTimestamp: int
    // signal_buff_
    var signalBuff: seq<LipSignal>

    /** What ProcessScene starts from: the per-frame state is clear and every
        buffered frame can be processed. */
    ghost predicate Ready()
      reads this
    {
      faceBoxes == [] && faceStatistics == map[] && metaFaceIndices == [] &&
      speakerMean == 0.0 && speakerVariance == 0.0 &&
      |preDominantSpeakerDetection| <= 1 &&
      (forall b :: 0 <= b < |signalBuff| ==> IsAdmissible(signalBuff[b]))
    }

    /** Between calls: as Ready, and the buffer has not yet spanned
        min_speaker_span. */
    ghost predicate Valid()
      reads this
    {
      Ready() &&
      (forall b :: 0 <= b < |signalBuff| ==>
        signalBuff[b].timestamp - signalBuff[0].timestamp < options.minSpeakerSpan)
    }

    /** The calculator after Open: Timestamp(0) as the last shot. */
    constructor (o: Options)
      ensures Valid() && options == o
      ensures signalBuff == [] && preDominantSpeakerId == -1 && preDominantSpeakerDetection == []
      ensures lastShotTimestamp == 0
    {
      options := o;
      faceBoxes, faceStatistics, metaFaceIndices := [], map[], [];
      speakerMean, speakerVariance := 0.0, 0.0;
      preDominantSpeakerId, preDominantSpeakerDetection := -1, [];
      lastShotTimestamp := 0;
      signalBuff := [];
    }

    /** IsActiveSpeaker: judges a history against the thresholds and the incumbent,
        and makes a face judged active the new incumbent. */
    method IsActiveSpeaker(h: seq<real>) returns (active: bool)
      modifies this`speakerMean, this`speakerVariance
      ensures active == Speaks(h, options, old(speakerMean), old(speakerVariance))
      ensures |h| <= options.varianceHistory / 2 ==> !active
      ensures active ==> speakerMean == MeanShort(h, options.meanHistory) && speakerVariance == Variance(h)
      ensures !active ==> speakerMean == old(speakerMean) && speakerVariance == old(speakerVariance)
    {
      if |h| <= options.varianceHistory / 2 {
        return false;
      }
      var meanShort: real;
      if |h| < options.meanHistory {
        meanShort := h[0];
      } else if options.meanHistory == 0 {
        // mean_short is 0/0, a NaN, and every comparison with it is false
        return false;
      } else {
        var recent := SumOf(h[|h| - options.meanHistory..]);
        meanShort := recent / (options.meanHistory as real);
      }
      assert meanShort == MeanShort(h, options.meanHistory);
      var total := SumOf(h);
      var mean := total / (|h| as real);
      assert mean == Mean(h);
      var deviation := SquaredDeviationOf(h, mean);
      var variance := deviation / (|h| as real);
      assert variance == Variance(h);
      if (meanShort >= options.lipMeanThresholdBigMouth &&
          variance >= options.lipVarianceThresholdBigMouth &&
          meanShort > speakerMean) ||
         (meanShort >= options.lipMeanThresholdSmallMouth &&
          variance >= options.lipVarianceThresholdSmallMouth &&
          variance > speakerVariance) {
        speakerMean := meanShort;
        speakerVariance := variance;
        return true;
      }
      return false;
    }

    /** Transmit: the packets for one shot decision after the debounce. */
    method Transmit(isSpeakerChange: bool, ts: int) returns (packets: seq<(int, bool)>)
      ensures packets == ShotPackets(isSpeakerChange, ts, lastShotTimestamp, options)
      ensures packets == [(ts, true)] <==> isSpeakerChange && ts - lastShotTimestamp >= options.minShotSpan
      ensures packets == [] <==>
        options.outputShotBoundaryOnlyOnChange && !(isSpeakerChange && ts - lastShotTimestamp >= options.minShotSpan)
    {
      var change := isSpeakerChange;
      if ts - lastShotTimestamp < options.minShotSpan {
        change := false;
      }
      if change {
        packets := [(ts, true)];
      } else if !options.outputShotBoundaryOnlyOnChange {
        packets := [(ts, false)];
      } else {
        packets := [];
      }
    }

    /** The handling of face i = |matches| of a frame (lines 268-306), whose
        MatchFace answer is `r`, from the loop state SlotFaces and JudgeFaces
        describe for the faces before it. */
    method TrackFace(prevBoxes: seq<Detection>, prevStats: map<int, seq<real>>, prevMeta: seq<int>,
                     detections: seq<Detection>, statistics: seq<real>,
                     metaFaces0: map<int, seq<int>>, count0: nat, n: nat, b: nat, ghost matches: seq<int>,
                     metaFaces: map<int, seq<int>>, count: nat, cur: seq<int>, curStatistics: map<int, seq<real>>,
                     curSpeaker: int)
      returns (metaFaces': map<int, seq<int>>, count': nat, cur': seq<int>, curStatistics': map<int, seq<real>>,
               curSpeaker': int, r: int)
      requires |matches| < |detections| <= |statistics| && |prevMeta| == |prevBoxes|
      requires InRange(matches, |prevMeta|) && AllBestMatches(prevBoxes, detections, options.iouThreshold, matches)
      requires IdsBelow(prevMeta, count0) && IsFrameStart(metaFaces0, count0, n, b)
      requires FrameSlots(metaFaces, count, cur) == SlotFaces(prevMeta, metaFaces0, count0, n, b, matches)
      requires FrameJudgement(curStatistics, curSpeaker, speakerMean, speakerVariance)
        == JudgeFaces(prevStats, options, statistics, matches)
      modifies this`speakerMean, this`speakerVariance
      ensures InRange(matches + [r], |prevMeta|)
      ensures AllBestMatches(prevBoxes, detections, options.iouThreshold, matches + [r])
      ensures FrameSlots(metaFaces', count', cur') == SlotFaces(prevMeta, metaFaces0, count0, n, b, matches + [r])
      ensures FrameJudgement(curStatistics', curSpeaker', speakerMean, speakerVariance)
        == JudgeFaces(prevStats, options, statistics, matches + [r])
    {
      var i := |cur|;
      r := MatchFace(prevBoxes, detections[i], options.iouThreshold);
      AllBestMatchesAppend(prevBoxes, detections, options.iouThreshold, matches, r);
      var h := StartHistory(prevStats, r, statistics[i], options.varianceHistory);
      metaFaces', count', cur' := SlotFace(prevMeta, metaFaces0, count0, n, b, matches, r, metaFaces, count, cur);
      curStatistics', curSpeaker' := JudgeNewFace(prevStats, statistics, matches, i, r, h, curStatistics, curSpeaker);
    }

    /** The judging of face i = |matches| (lines 274-285, 294, 304-305), whose
        history is h: it joins cur_face_statistics and is asked IsActiveSpeaker. */
    method JudgeNewFace(prevStats: map<int, seq<real>>, statistics: seq<real>, ghost matches: seq<int>, i: nat,
                        r: int, h: seq<real>, curStatistics: map<int, seq<real>>, curSpeaker: int)
      returns (curStatistics': map<int, seq<real>>, curSpeaker': int)
      requires i == |matches| < |statistics|
      requires h == FaceHistory(prevStats, r, statistics[i], options.varianceHistory)
      requires FrameJudgement(curStatistics, curSpeaker, speakerMean, speakerVariance)
        == JudgeFaces(prevStats, options, statistics, matches)
      modifies this`speakerMean, this`speakerVariance
      ensures FrameJudgement(curStatistics', curSpeaker', speakerMean, speakerVariance)
        == JudgeFaces(prevStats, options, statistics, matches + [r])
    {
      ghost var before := JudgeFaces(prevStats, options, statistics, matches);
      curStatistics' := curStatistics[i := h];
      var active := IsActiveSpeaker(h);
      curSpeaker' := if active then i else curSpeaker;
      assert FrameJudgement(curStatistics', curSpeaker', speakerMean, speakerVariance) == JudgeFace(before, i, h, options);
      assert (matches + [r])[..i] == matches;
    }

    /** One iteration of ProcessScene's per-frame loop (lines 256-323) on a frame
        `sig` at buffer position `b` of `n`, that is not skipped, whose table
        so far is `metaFaces0` with `count0` ids. `matches` are the MatchFace
        answers, by face index. */
    method TrackFrame(sig: LipSignal, b: nat, n: nat, metaFaces0: map<int, seq<int>>, count0: nat)
      returns (metaFaces: map<int, seq<int>>, count: nat, curSpeaker: int, ghost matches: seq<int>)
      requires !IsSkipped(sig) && IsAdmissible(sig)
      requires IsFrameStart(metaFaces0, count0, n, b)
      requires IsPreviousFrame(faceBoxes, metaFaceIndices, count0)
      requires speakerMean == 0.0 && speakerVariance == 0.0
      modifies this`faceBoxes, this`faceStatistics, this`metaFaceIndices, this`speakerMean, this`speakerVariance
      ensures faceBoxes == sig.detections && speakerMean == 0.0 && speakerVariance == 0.0
      ensures |matches| == |sig.detections| && InRange(matches, |old(faceBoxes)|)
      ensures AllBestMatches(old(faceBoxes), sig.detections, options.iouThreshold, matches)
      ensures FrameSlots(metaFaces, count, metaFaceIndices) == SlotFaces(old(metaFaceIndices), metaFaces0, count0, n, b, matches)
      ensures IsFrameTable(metaFaces0, count0, metaFaces, count, n, b, metaFaceIndices)
      ensures var j := JudgeFaces(old(faceStatistics), options, Statistics(sig.landmarkLists), matches);
        curSpeaker == j.speaker && faceStatistics == j.histories
    {
      var statistics := GetStatistics(sig.landmarkLists);
      var detections := sig.detections;
      var prevBoxes, prevStats, prevMeta := faceBoxes, faceStatistics, metaFaceIndices;
      var curStatistics: map<int, seq<real>> := map[];
      var curMetaFaceIndices: seq<int> := [];
      metaFaces, count, curSpeaker := metaFaces0, count0, -1;
      matches := [];
      var i := 0;
      while i < |detections|
        modifies this`speakerMean, this`speakerVariance
        invariant 0 <= i <= |detections| && |matches| == i
        invariant InRange(matches, |prevBoxes|)
        invariant AllBestMatches(prevBoxes, detections, options.iouThreshold, matches)
        invariant FrameSlots(metaFaces, count, curMetaFaceIndices) == SlotFaces(prevMeta, metaFaces0, count0, n, b, matches)
        invariant FrameJudgement(curStatistics, curSpeaker, speakerMean, speakerVariance)
          == JudgeFaces(prevStats, options, statistics, matches)
      {
        var previousFaceIdx;
        metaFaces, count, curMetaFaceIndices, curStatistics, curSpeaker, previousFaceIdx :=
          TrackFace(prevBoxes, prevStats, prevMeta, detections, statistics, metaFaces0, count0, n, b, matches,
                    metaFaces, count, curMetaFaceIndices, curStatistics, curSpeaker);
        matches := matches + [previousFaceIdx];
        i := i + 1;
      }
      SlotFacesTable(prevMeta, metaFaces0, count0, n, b, matches);
      faceBoxes := detections;
      faceStatistics := curStatistics;
      speakerMean := 0.0;
      speakerVariance := 0.0;
      metaFaceIndices := curMetaFaceIndices;
    }

    /** The first b frames of the buffer were handled by the per-frame loop of
        ProcessScene: the table, count and hits describe them, and the fields
        hold the state after frame b - 1. */
    ghost predicate WindowSoFar(b: nat, metaFaces: map<int, seq<int>>, count: nat, hits: map<int, int>,
                                speakers: seq<int>, metaOf: seq<seq<int>>,
                                matchesOf: seq<seq<int>>, after: seq<FrameState>)
      reads this
    {
      TrackedSoFar(signalBuff, options, b, metaFaces, speakers, metaOf, matchesOf, after,
                   FrameState(faceBoxes, faceStatistics, metaFaceIndices, count)) &&
      CountsHits(hits, count, speakers, metaOf) &&
      speakerMean == 0.0 && speakerVariance == 0.0
    }

    /** After the last frame, the loop invariant gives TrackWindow's result. */
    lemma WindowDone(metaFaces: map<int, seq<int>>, count: nat, hits: map<int, int>,
                     speakers: seq<int>, metaOf: seq<seq<int>>,
                     matchesOf: seq<seq<int>>, after: seq<FrameState>)
      requires WindowSoFar(|signalBuff|, metaFaces, count, hits, speakers, metaOf, matchesOf, after)
      ensures |metaOf| == |signalBuff| && IsWindowTable(signalBuff, metaFaces, count, speakers, metaOf)
      ensures CountsHits(hits, count, speakers, metaOf)
      ensures FramesJudged(signalBuff, options, speakers, metaOf, matchesOf, after)
      ensures speakerMean == 0.0 && speakerVariance == 0.0
    {
    }

    /** A skipped frame (lines 261-262) adds an empty entry and changes nothing. */
    lemma WindowSkip(b: nat, metaFaces: map<int, seq<int>>, count: nat, hits: map<int, int>,
                     speakers: seq<int>, metaOf: seq<seq<int>>,
                     matchesOf: seq<seq<int>>, after: seq<FrameState>)
      requires WindowSoFar(b, metaFaces, count, hits, speakers, metaOf, matchesOf, after)
      requires b < |signalBuff| && IsSkipped(signalBuff[b])
      ensures WindowSoFar(b + 1, metaFaces, count, hits, speakers + [-1], metaOf + [[]],
                          matchesOf + [[]], after + [Before(after, b)])
    {
      SkippedSoFar(signalBuff, options, b, metaFaces, speakers, metaOf, matchesOf, after,
                   FrameState(faceBoxes, faceStatistics, metaFaceIndices, count));
      forall m | true
        ensures HitCount(speakers + [-1], metaOf + [[]], m) == HitCount(speakers, metaOf, m)
      {
        HitCountAppend(speakers, metaOf, -1, [], m);
      }
    }

    /** One pass of the per-frame loop (lines 256-323) over a frame that is not
        skipped: TrackFrame, then the hit count of its speaker's meta-face. */
    method WindowTrack(b: nat, metaFaces: map<int, seq<int>>, count: nat, hits: map<int, int>,
                       ghost speakers: seq<int>, ghost metaOf: seq<seq<int>>,
                       ghost matchesOf: seq<seq<int>>, ghost after: seq<FrameState>)
      returns (metaFaces': map<int, seq<int>>, count': nat, hits': map<int, int>,
               ghost speakers': seq<int>, ghost metaOf': seq<seq<int>>,
               ghost matchesOf': seq<seq<int>>, ghost after': seq<FrameState>)
      requires WindowSoFar(b, metaFaces, count, hits, speakers, metaOf, matchesOf, after)
      requires b < |signalBuff| && !IsSkipped(signalBuff[b]) && IsAdmissible(signalBuff[b])
      modifies this`faceBoxes, this`faceStatistics, this`metaFaceIndices, this`speakerMean, this`speakerVariance
      ensures WindowSoFar(b + 1, metaFaces', count', hits', speakers', metaOf', matchesOf', after')
    {
      ghost var cur := FrameState(faceBoxes, faceStatistics, metaFaceIndices, count);
      assert IsFrameStart(metaFaces, count, |signalBuff|, b) && IsPreviousFrame(faceBoxes, metaFaceIndices, count);
      var curSpeaker; ghost var matches;
      metaFaces', count', curSpeaker, matches := TrackFrame(signalBuff[b], b, |signalBuff|, metaFaces, count);
      ghost var next := FrameState(faceBoxes, faceStatistics, metaFaceIndices, count');
      TrackedFrameSoFar(signalBuff, options, b, metaFaces, speakers, metaOf, matchesOf, after, cur,
                        metaFaces', matches, curSpeaker, next);
      speakers', metaOf', matchesOf', after' := speakers + [curSpeaker], metaOf + [metaFaceIndices],
                                                matchesOf + [matches], after + [next];
      hits' := CountHit(hits, count', speakers, metaOf, curSpeaker, metaFaceIndices);
    }

    /** The per-frame loop of ProcessScene (lines 255-324) over the buffer: the
        meta-face table, its id count and num_of_active_speaker. `speakers` and
        `metaOf` are each frame's cur_speaker_id and cur_meta_face_indices,
        `matchesOf` each frame's MatchFace answers and `after` the tracking state
        after each frame. */
    method TrackWindow() returns (metaFaces: map<int, seq<int>>, count: nat, hits: map<int, int>,
                                  ghost speakers: seq<int>, ghost metaOf: seq<seq<int>>,
                                  ghost matchesOf: seq<seq<int>>, ghost after: seq<FrameState>)
      requires Ready()
      modifies this`faceBoxes, this`faceStatistics, this`metaFaceIndices, this`speakerMean, this`speakerVariance
      ensures |metaOf| == |signalBuff| && IsWindowTable(signalBuff, metaFaces, count, speakers, metaOf)
      ensures CountsHits(hits, count, speakers, metaOf)
      ensures FramesJudged(signalBuff, options, speakers, metaOf, matchesOf, after)
      ensures speakerMean == 0.0 && speakerVariance == 0.0
    {
      metaFaces, count, hits := map[], 0, map[];
      speakers, metaOf, matchesOf, after := [], [], [], [];
      var b := 0;
      while b < |signalBuff|
        invariant WindowSoFar(b, metaFaces, count, hits, speakers, metaOf, matchesOf, after)
        invariant forall k :: 0 <= k < |signalBuff| ==> IsAdmissible(signalBuff[k])
      {
        if IsSkipped(signalBuff[b]) {
          WindowSkip(b, metaFaces, count, hits, speakers, metaOf, matchesOf, after);
          speakers, metaOf, matchesOf, after := speakers + [-1], metaOf + [[]], matchesOf + [[]], after + [Before(after, b)];
        } else {
          metaFaces, count, hits, speakers, metaOf, matchesOf, after :=
            WindowTrack(b, metaFaces, count, hits, speakers, metaOf, matchesOf, after);
        }
        b := b + 1;
      }
      WindowDone(metaFaces, count, hits, speakers, metaOf, matchesOf, after);
    }

    /** Lines 380-396: the shot signal of a window whose dominant speaker first
        appears with box `first`, when the shot stream is enabled, and the new
        value of last_shot_timestamp_. */
    method SignalShot(first: Detection, ts: int) returns (shots: seq<(int, bool)>, lastShot: int)
      ensures var d := ShotDecision(preDominantSpeakerId, preDominantSpeakerDetection, first, options);
        shots == (if d.None? then [] else ShotPackets(d.value, ts, lastShotTimestamp, options)) &&
        lastShot == if d == Some(true) then ts else lastShotTimestamp
    {
      shots, lastShot := [], lastShotTimestamp;
      if preDominantSpeakerId == -1 {
        shots := Transmit(true, ts);
        lastShot := ts;
      } else if preDominantSpeakerDetection != [] {
        var isSpeakerChange := SpeakerChange(preDominantSpeakerDetection[0], first, options.iouThreshold);
        shots := Transmit(isSpeakerChange, ts);
        if isSpeakerChange {
          lastShot := ts;
        }
      }
    }

    /** Lines 366-431: the output of a window `buff` whose dominant speaker has the
        table row `row`; `last` is the box stored for the next window to compare
        with and `lastShot` the new last_shot_timestamp_. */
    method OutputSpeaker(buff: seq<LipSignal>, row: seq<int>)
      returns (roi: seq<(int, seq<Detection>)>, shots: seq<(int, bool)>, last: Detection, lastShot: int)
      requires IsRow(buff, row) && FirstPresent(row) != -1 && |buff| > 0
      ensures var first := Appearance(buff, row, FirstPresent(row));
        |roi| == |buff| &&
        (forall b :: 0 <= b < |roi| ==> roi[b] == (buff[b].timestamp, [RoiBox(buff, row, first, b)])) &&
        last == roi[|roi| - 1].1[0] &&
        var d := if options.hasShotStream && options.outputShotBoundary
                 then ShotDecision(preDominantSpeakerId, preDominantSpeakerDetection, first, options)
                 else None;
        shots == (if d.None? then [] else ShotPackets(d.value, buff[0].timestamp, lastShotTimestamp, options)) &&
        lastShot == if d == Some(true) then buff[0].timestamp else lastShotTimestamp
    {
      var found := FirstAppearance(buff, row);
      shots, lastShot := [], lastShotTimestamp;
      if options.hasShotStream && options.outputShotBoundary {
        shots, lastShot := SignalShot(found[0], buff[0].timestamp);
      }
      roi, last := RoiOutput(buff, row, found[0]);
    }

    /** Lines 326-431: the dominant speaker of a window `buff` with the table and
        hit counts of TrackWindow, the ROI and shot packets, the box kept for the
        next window (`last`) and the new last_shot_timestamp_. */
    method WindowOutput(buff: seq<LipSignal>, table: map<int, seq<int>>, count: nat, hits: map<int, int>,
                        ghost speakers: seq<int>, ghost metaOf: seq<seq<int>>)
      returns (dominant: int, roi: seq<(int, seq<Detection>)>, shots: seq<(int, bool)>,
               last: seq<Detection>, lastShot: int)
      requires |buff| > 0 && |metaOf| == |buff| && IsWindowTable(buff, table, count, speakers, metaOf)
      requires CountsHits(hits, count, speakers, metaOf)
      ensures IsDominant(count, speakers, metaOf, dominant)
      ensures SceneOutput(buff, options, table, dominant, preDominantSpeakerId, preDominantSpeakerDetection,
                          lastShotTimestamp, roi, shots, last, lastShot)
    {
      dominant := DominantSpeaker(hits, count);
      DominantHasMostHits(hits, count, speakers, metaOf, dominant);
      if dominant == -1 {
        shots := [];
        if options.hasShotStream && options.outputShotBoundary {
          shots := Transmit(false, buff[0].timestamp);
        }
        roi := EmptyRoiOutput(buff);
        last, lastShot := [], lastShotTimestamp;
      } else {
        TableRowsAreRows(buff, table, count, speakers, metaOf, dominant);
        HitFaceAppears(buff, table, count, speakers, metaOf, dominant);
        var box;
        roi, shots, box, lastShot := OutputSpeaker(buff, table[dominant]);
        last := [box];
      }
    }

    /** The body of ProcessScene (lines 243-438) but for the update of the state
        carried to the next window: the per-frame loop, the packets, and the
        per-frame state cleared for the next window. */
    method ScenePackets() returns (roi: seq<(int, seq<Detection>)>, shots: seq<(int, bool)>,
                                   table: map<int, seq<int>>, count: nat, dominant: int,
                                   last: seq<Detection>, lastShot: int,
                                   ghost speakers: seq<int>, ghost metaOf: seq<seq<int>>,
                                   ghost matchesOf: seq<seq<int>>, ghost after: seq<FrameState>)
      requires Ready() && |signalBuff| > 0
      modifies this`faceBoxes, this`faceStatistics, this`metaFaceIndices, this`speakerMean, this`speakerVariance
      ensures |metaOf| == |signalBuff| && IsWindowTable(signalBuff, table, count, speakers, metaOf)
      ensures FramesJudged(signalBuff, options, speakers, metaOf, matchesOf, after)
      ensures IsDominant(count, speakers, metaOf, dominant)
      ensures SceneOutput(signalBuff, options, table, dominant, preDominantSpeakerId,
                          preDominantSpeakerDetection, lastShotTimestamp, roi, shots, last, lastShot)
      ensures faceBoxes == [] && faceStatistics == map[] && metaFaceIndices == []
      ensures speakerMean == 0.0 && speakerVariance == 0.0
    {
      var hits;
      table, count, hits, speakers, metaOf, matchesOf, after := TrackWindow();
      dominant, roi, shots, last, lastShot := WindowOutput(signalBuff, table, count, hits, speakers, metaOf);
      faceBoxes, faceStatistics, metaFaceIndices := [], map[], [];
    }

    /** ProcessScene (lines 243-438): tracks the faces of the buffered frames, picks
        the meta-face with the most speaker hits, emits the shot signal and one
        ROI packet per frame, and starts the next window. Besides the packets it
        returns the window's table, its id count and the dominant speaker (-1 for
        none), and as ghosts each frame's speaker candidate, meta-face ids and
        MatchFace answers, and the tracking state after each frame. */
    method ProcessScene() returns (roi: seq<(int, seq<Detection>)>, shots: seq<(int, bool)>,
                                   table: map<int, seq<int>>, count: nat, dominant: int,
                                   ghost speakers: seq<int>, ghost metaOf: seq<seq<int>>,
                                   ghost matchesOf: seq<seq<int>>, ghost after: seq<FrameState>)
      requires Ready() && |signalBuff| > 0
      modifies this`faceBoxes, this`faceStatistics, this`metaFaceIndices, this`speakerMean, this`speakerVariance
      modifies this`preDominantSpeakerId, this`preDominantSpeakerDetection, this`lastShotTimestamp, this`signalBuff
      ensures Valid() && signalBuff == [] && preDominantSpeakerId == dominant
      ensures WindowProcessed(old(signalBuff), options, table, count, dominant, speakers, metaOf, matchesOf, after,
                              old(preDominantSpeakerId), old(preDominantSpeakerDetection), old(lastShotTimestamp),
                              roi, shots, preDominantSpeakerDetection, lastShotTimestamp)
    {
      var last, lastShot;
      roi, shots, table, count, dominant, last, lastShot, speakers, metaOf, matchesOf, after := ScenePackets();
      preDominantSpeakerId, preDominantSpeakerDetection, lastShotTimestamp, signalBuff := dominant, last, lastShot, [];
    }

    /** Process (lines 193-229): buffers the frame, and runs ProcessScene once the
        buffer spans min_speaker_span. `processed` says whether it did; when it
        did, the ghosts are that window's meta-face table, id count, trace and
        dominant speaker, as ProcessScene gives them, and the packets and carried
        state are one SceneOutput step. */
    method Process(landmarks: Option<seq<FaceMesh>>, detections: Option<seq<Detection>>, ts: int)
      returns (processed: bool, roi: seq<(int, seq<Detection>)>, shots: seq<(int, bool)>,
               ghost table: map<int, seq<int>>, ghost count: nat, ghost dominant: int,
               ghost speakers: seq<int>, ghost metaOf: seq<seq<int>>,
               ghost matchesOf: seq<seq<int>>, ghost after: seq<FrameState>)
      requires Valid() && IsAdmissible(MakeSignal(landmarks, detections, ts))
      modifies this`faceBoxes, this`faceStatistics, this`metaFaceIndices, this`speakerMean, this`speakerVariance
      modifies this`preDominantSpeakerId, this`preDominantSpeakerDetection, this`lastShotTimestamp, this`signalBuff
      ensures Valid()
      ensures var buff := old(signalBuff) + [MakeSignal(landmarks, detections, ts)];
        (processed <==> ts - buff[0].timestamp >= options.minSpeakerSpan) &&
        (!processed ==>
          signalBuff == buff && roi == [] && shots == [] &&
          preDominantSpeakerId == old(preDominantSpeakerId) &&
          preDominantSpeakerDetection == old(preDominantSpeakerDetection) &&
          lastShotTimestamp == old(lastShotTimestamp)) &&
        (processed ==>
          signalBuff == [] && preDominantSpeakerId == dominant &&
          WindowProcessed(buff, options, table, count, dominant, speakers, metaOf, matchesOf, after,
                          old(preDominantSpeakerId), old(preDominantSpeakerDetection), old(lastShotTimestamp),
                          roi, shots, preDominantSpeakerDetection, lastShotTimestamp) &&
          |roi| == |buff| &&
          (forall b :: 0 <= b < |roi| ==> roi[b].0 == buff[b].timestamp && |roi[b].1| <= 1) &&
          (preDominantSpeakerId == -1 <==> forall b :: 0 <= b < |roi| ==> roi[b].1 == []))
    {
      var signal := MakeSignal(landmarks, detections, ts);
      signalBuff := signalBuff + [signal];
      processed := ts - signalBuff[0].timestamp >= options.minSpeakerSpan;
      roi, shots, table, count, dominant := [], [], map[], 0, -1;
      speakers, metaOf, matchesOf, after := [], [], [], [];
      if processed {
        ghost var preId, preDet, lastShot0 := preDominantSpeakerId, preDominantSpeakerDetection, lastShotTimestamp;
        ghost var buff := signalBuff;
        roi, shots, table, count, dominant, speakers, metaOf, matchesOf, after := ProcessScene();
        SceneOutputShape(buff, options, table, dominant, preId, preDet, lastShot0,
                         roi, shots, preDominantSpeakerDetection, lastShotTimestamp);
      }
    }

    /** Lines 233-235: a non-empty buffer goes through ProcessScene; `kept` is the
        speaker box ProcessScene leaves. The ghosts are as for Process. */
    method FlushBuffer() returns (roi: seq<(int, seq<Detection>)>, shots: seq<(int, bool)>,
                                  ghost table: map<int, seq<int>>, ghost count: nat, ghost dominant: int,
                                  ghost speakers: seq<int>, ghost metaOf: seq<seq<int>>,
                                  ghost matchesOf: seq<seq<int>>, ghost after: seq<FrameState>,
                                  ghost kept: seq<Detection>)
      requires Valid()
      modifies this`faceBoxes, this`faceStatistics, this`metaFaceIndices, this`speakerMean, this`speakerVariance
      modifies this`preDominantSpeakerId, this`preDominantSpeakerDetection, this`lastShotTimestamp, this`signalBuff
      ensures Valid() && signalBuff == [] && kept == preDominantSpeakerDetection
      ensures old(signalBuff) == [] ==>
        roi == [] && shots == [] && kept == old(preDominantSpeakerDetection) &&
        preDominantSpeakerId == old(preDominantSpeakerId) && lastShotTimestamp == old(lastShotTimestamp)
      ensures old(signalBuff) != [] ==>
        preDominantSpeakerId == dominant &&
        WindowProcessed(old(signalBuff), options, table, count, dominant, speakers, metaOf, matchesOf, after,
                        old(preDominantSpeakerId), old(preDominantSpeakerDetection), old(lastShotTimestamp),
                        roi, shots, kept, lastShotTimestamp) &&
        |roi| == |old(signalBuff)| &&
        (forall b :: 0 <= b < |roi| ==> roi[b].0 == old(signalBuff)[b].timestamp && |roi[b].1| <= 1) &&
        (preDominantSpeakerId == -1 <==> forall b :: 0 <= b < |roi| ==> roi[b].1 == [])
    {
      roi, shots, table, count, dominant := [], [], map[], 0, -1;
      speakers, metaOf, matchesOf, after := [], [], [], [];
      if signalBuff != [] {
        ghost var preId, preDet, lastShot0 := preDominantSpeakerId, preDominantSpeakerDetection, lastShotTimestamp;
        ghost var buff := signalBuff;
        roi, shots, table, count, dominant, speakers, metaOf, matchesOf, after := ProcessScene();
        SceneOutputShape(buff, options, table, dominant, preId, preDet, lastShot0,
                         roi, shots, preDominantSpeakerDetection, lastShotTimestamp);
      }
      kept := preDominantSpeakerDetection;
    }

    /** Close (lines 231-241): flushes a non-empty buffer through ProcessScene and
        clears the state carried between windows, except the speaker id and the
        last shot time. For a flushed window, the ghosts are its meta-face table,
        id count, trace and dominant speaker, as ProcessScene gives them, and with
        `kept` (the speaker box before line 236 clears it) the packets are one
        SceneOutput step. */
    method Close() returns (roi: seq<(int, seq<Detection>)>, shots: seq<(int, bool)>,
                            ghost table: map<int, seq<int>>, ghost count: nat, ghost dominant: int,
                            ghost speakers: seq<int>, ghost metaOf: seq<seq<int>>,
                            ghost matchesOf: seq<seq<int>>, ghost after: seq<FrameState>,
                            ghost kept: seq<Detection>)
      requires Valid()
      modifies this`faceBoxes, this`faceStatistics, this`metaFaceIndices, this`speakerMean, this`speakerVariance
      modifies this`preDominantSpeakerId, this`preDominantSpeakerDetection, this`lastShotTimestamp, this`signalBuff
      ensures Valid() && signalBuff == [] && preDominantSpeakerDetection == []
      ensures old(signalBuff) == [] ==>
        roi == [] && shots == [] &&
        preDominantSpeakerId == old(preDominantSpeakerId) && lastShotTimestamp == old(lastShotTimestamp)
      ensures old(signalBuff) != [] ==>
        preDominantSpeakerId == dominant &&
        WindowProcessed(old(signalBuff), options, table, count, dominant, speakers, metaOf, matchesOf, after,
                        old(preDominantSpeakerId), old(preDominantSpeakerDetection), old(lastShotTimestamp),
                        roi, shots, kept, lastShotTimestamp) &&
        |roi| == |old(signalBuff)| &&
        (forall b :: 0 <= b < |roi| ==> roi[b].0 == old(signalBuff)[b].timestamp && |roi[b].1| <= 1) &&
        (preDominantSpeakerId == -1 <==> forall b :: 0 <= b < |roi| ==> roi[b].1 == [])
    {
      roi, shots, table, count, dominant, speakers, metaOf, matchesOf, after, kept := FlushBuffer();
      preDominantSpeakerDetection := [];
      faceStatistics, metaFaceIndices := map[], [];
    }
  }
}
