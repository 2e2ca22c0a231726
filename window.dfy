/** The window-level pieces of ProcessScene: the buffered frame, the meta-face
    table's bookkeeping, dominant-speaker selection, the per-frame ROI output and
    the shot-signal debounce. */
module Window {
  import opened Wrappers
  import opened Config
  import opened Geometry
  import opened LipStatistics

  /** One buffered frame (LipSignal). The copy of the image is not modelled. */
  datatype LipSignal = LipSignal(landmarkLists: seq<FaceMesh>, detections: seq<Detection>, timestamp: int)

  /** A frame that the per-frame loop of ProcessScene skips. */
  predicate IsSkipped(s: LipSignal)
  {
    s.landmarkLists == [] || s.detections == []
  }

  /** What ProcessScene needs of a frame it does not skip: GetStatistics must not
      divide by a zero mouth width, and statistics[cur_face_idx] is read for
      every detection, so there must be at least as many statistics as
      detections. A skipped frame is never measured and may hold anything. */
  predicate IsAdmissible(s: LipSignal)
  {
    IsSkipped(s) || (AllWellFormed(s.landmarkLists) && |Statistics(s.landmarkLists)| >= |s.detections|)
  }

  /** A meta-face row: -1 or an index into that frame's detections, per frame. */
  predicate IsRow(buff: seq<LipSignal>, row: seq<int>)
  {
    |row| == |buff| &&
    forall b :: 0 <= b < |row| ==> row[b] == -1 || 0 <= row[b] < |buff[b].detections|
  }

  /** The last position of `m` in `s`, or -1. */
  function LastIndexOf(s: seq<int>, m: int): (r: int)
    ensures -1 <= r < |s|
  {
    if |s| == 0 then -1
    else if s[|s| - 1] == m then |s| - 1
    else LastIndexOf(s[..|s| - 1], m)
  }

  /** LastIndexOf finds the last occurrence, and -1 exactly when there is none. */
  lemma {:induction false} LastIndexOfIsLast(s: seq<int>, m: int)
    ensures var r := LastIndexOf(s, m);
      (r != -1 ==> s[r] == m && forall k :: r < k < |s| ==> s[k] != m) &&
      (r == -1 ==> forall k :: 0 <= k < |s| ==> s[k] != m)
  {
    if |s| > 0 && s[|s| - 1] != m {
      LastIndexOfIsLast(s[..|s| - 1], m);
    }
  }

  /** The meta_faces map: ids 0 .. count - 1, each with one slot per buffered frame. */
  ghost predicate IsTable(metaFaces: map<int, seq<int>>, count: nat, n: nat)
  {
    (forall m :: m in metaFaces <==> 0 <= m < count) &&
    (forall m :: m in metaFaces ==> |metaFaces[m]| == n)
  }

  /** A new meta-face row: -1 in every slot. */
  function Absent(n: nat): (row: seq<int>)
    ensures |row| == n && forall c :: 0 <= c < n ==> row[c] == -1
  {
    seq(n, _ => -1)
  }

  /** The loop of lines 296-299 that builds a new meta-face row. */
  method AbsentRow(n: nat) returns (row: seq<int>)
    ensures row == Absent(n)
  {
    row := [];
    var i := 0;
    while i < n
      invariant 0 <= i <= n
      invariant |row| == i
      invariant forall b :: 0 <= b < i ==> row[b] == -1
    {
      row := row + [-1];
      i := i + 1;
    }
  }

  /** The number of faces in a frame that matched no previous face, each of which
      mints a meta-face id. */
  function Unmatched(matches: seq<int>): nat
  {
    if |matches| == 0 then 0
    else Unmatched(matches[..|matches| - 1]) + (if matches[|matches| - 1] == -1 then 1 else 0)
  }

  /** Appending to a frame's meta-face ids moves only the appended id's last position. */
  lemma LastIndexOfAppend(s: seq<int>, x: int, m: int)
    ensures LastIndexOf(s + [x], m) == if x == m then |s| else LastIndexOf(s, m)
  {
    assert (s + [x])[..|s|] == s;
  }

  /** The table while frame `b` of `n` is being handled: `cur` holds the meta-face
      ids of the faces handled so far, the slots of frame `b` follow `cur`, the
      other slots are those of the table `metaFaces0` of `count0` ids the frame
      started with, and -1 for ids minted in this frame. */
  ghost predicate IsFrameTable(metaFaces0: map<int, seq<int>>, count0: nat,
                               metaFaces: map<int, seq<int>>, count: nat, n: nat, b: nat, cur: seq<int>)
  {
    count0 <= count && IsTable(metaFaces, count, n) && b < n &&
    (forall m :: m in metaFaces && m < count0 ==> m in metaFaces0 && |metaFaces0[m]| == n) &&
    (forall m, c :: m in metaFaces && 0 <= c < n && c != b ==>
      metaFaces[m][c] == if m < count0 then metaFaces0[m][c] else -1) &&
    (forall m :: m in metaFaces ==> metaFaces[m][b] == LastIndexOf(cur, m)) &&
    (forall k :: 0 <= k < |cur| ==> 0 <= cur[k] < count)
  }

  /** A frame starts with the window's table so far, whose slots for it are -1. */
  lemma FrameTableStart(metaFaces0: map<int, seq<int>>, count0: nat, n: nat, b: nat)
    requires IsTable(metaFaces0, count0, n) && b < n
    requires forall m :: m in metaFaces0 ==> metaFaces0[m][b] == -1
    ensures IsFrameTable(metaFaces0, count0, metaFaces0, count0, n, b, [])
  {
  }

  /** A face matched to a previous face of meta-face `m` takes m's slot in frame `b`. */
  lemma FrameTableReuse(metaFaces0: map<int, seq<int>>, count0: nat,
                        metaFaces: map<int, seq<int>>, count: nat, n: nat, b: nat, cur: seq<int>, m: int)
    requires IsFrameTable(metaFaces0, count0, metaFaces, count, n, b, cur)
    requires 0 <= m < count
    ensures IsFrameTable(metaFaces0, count0, metaFaces[m := metaFaces[m][b := |cur|]], count, n, b, cur + [m])
  {
    var t := metaFaces[m := metaFaces[m][b := |cur|]];
    forall m' | m' in t
      ensures t[m'][b] == LastIndexOf(cur + [m], m')
    {
      LastIndexOfAppend(cur, m, m');
    }
  }

  /** A face matched to no previous face mints meta-face `count`, present only in
      frame `b`. */
  lemma FrameTableMint(metaFaces0: map<int, seq<int>>, count0: nat,
                       metaFaces: map<int, seq<int>>, count: nat, n: nat, b: nat, cur: seq<int>, row: seq<int>)
    requires IsFrameTable(metaFaces0, count0, metaFaces, count, n, b, cur)
    requires |row| == n && forall c :: 0 <= c < n ==> row[c] == -1
    ensures IsFrameTable(metaFaces0, count0, metaFaces[count := row[b := |cur|]], count + 1, n, b, cur + [count])
  {
    var t := metaFaces[count := row[b := |cur|]];
    forall m' | m' in t
      ensures t[m'][b] == LastIndexOf(cur + [count], m')
    {
      LastIndexOfAppend(cur, count, m');
    }
  }

  /** cur_meta_face_indices of a frame whose faces got the MatchFace answers
      `matches`: a matched face inherits the id of its previous face (ids of the
      previous frame in `previous`), an unmatched one mints the next id from
      `count0` on. */
  function MetaIds(matches: seq<int>, previous: seq<int>, count0: int): (ids: seq<int>)
    requires forall k :: 0 <= k < |matches| ==> -1 <= matches[k] < |previous|
    ensures |ids| == |matches|
  {
    if |matches| == 0 then []
    else
      var last := matches[|matches| - 1];
      MetaIds(matches[..|matches| - 1], previous, count0) +
        [if last == -1 then count0 + Unmatched(matches[..|matches| - 1]) else previous[last]]
  }

  /** One more face: its id is its previous face's id, or the next fresh id. */
  lemma MetaIdsAppend(matches: seq<int>, previous: seq<int>, count0: int, r: int)
    requires forall k :: 0 <= k < |matches| ==> -1 <= matches[k] < |previous|
    requires -1 <= r < |previous|
    ensures MetaIds(matches + [r], previous, count0) ==
      MetaIds(matches, previous, count0) + [if r == -1 then count0 + Unmatched(matches) else previous[r]]
    ensures Unmatched(matches + [r]) == Unmatched(matches) + if r == -1 then 1 else 0
  {
    assert (matches + [r])[..|matches|] == matches;
  }

  /** Each face's id: its previous face's id, or `count0` plus the number of
      unmatched faces before it. */
  lemma {:induction false} MetaIdsOfFaces(matches: seq<int>, previous: seq<int>, count0: int, k: nat)
    requires forall j :: 0 <= j < |matches| ==> -1 <= matches[j] < |previous|
    requires k < |matches|
    ensures MetaIds(matches, previous, count0)[k] ==
      if matches[k] == -1 then count0 + Unmatched(matches[..k]) else previous[matches[k]]
  {
    var n := |matches|;
    if k < n - 1 {
      MetaIdsOfFaces(matches[..n - 1], previous, count0, k);
      assert matches[..n - 1][..k] == matches[..k];
    }
  }

  /** The unmatched count grows by one exactly at each unmatched face. */
  lemma {:induction false} UnmatchedGrows(matches: seq<int>, j: nat, k: nat)
    requires j < k <= |matches| && matches[j] == -1
    ensures Unmatched(matches[..j]) < Unmatched(matches[..k])
  {
    assert matches[..k][..k - 1] == matches[..k - 1];
    if j < k - 1 {
      UnmatchedGrows(matches, j, k - 1);
    }
  }

  /** The ids minted in a frame are new (from `count0` on, below `count0` plus the
      number of unmatched faces) and pairwise distinct. */
  lemma MintedIdsAreFresh(matches: seq<int>, previous: seq<int>, count0: int, j: nat, k: nat)
    requires forall i :: 0 <= i < |matches| ==> -1 <= matches[i] < |previous|
    requires j < k < |matches| && matches[j] == -1 && matches[k] == -1
    ensures var ids := MetaIds(matches, previous, count0);
      count0 <= ids[j] < ids[k] < count0 + Unmatched(matches)
  {
    MetaIdsOfFaces(matches, previous, count0, j);
    MetaIdsOfFaces(matches, previous, count0, k);
    UnmatchedGrows(matches, j, k);
    UnmatchedGrows(matches, k, |matches|);
    assert matches[..|matches|] == matches;
  }

  /** The meta-face table of a window once the per-frame loop of ProcessScene
      has handled the first |metaOf| frames. `metaOf[b]` is cur_meta_face_indices
      of frame b (one meta-face id per detection, empty for a skipped frame) and
      `speakers[b]` its cur_speaker_id. The slot of meta-face m in a handled frame
      is the last face of that frame mapped to m, since a later face matched to
      the same previous face overwrites it; the slots of the frames not yet
      handled are -1. */
  ghost predicate IsWindowTable(buff: seq<LipSignal>, metaFaces: map<int, seq<int>>, count: nat,
                                speakers: seq<int>, metaOf: seq<seq<int>>)
  {
    IsTable(metaFaces, count, |buff|) &&
    |speakers| == |metaOf| <= |buff| &&
    (forall b :: 0 <= b < |metaOf| && IsSkipped(buff[b]) ==> speakers[b] == -1 && metaOf[b] == []) &&
    (forall b :: 0 <= b < |metaOf| && !IsSkipped(buff[b]) ==>
      |metaOf[b]| == |buff[b].detections| && -1 <= speakers[b] < |metaOf[b]|) &&
    (forall b, k :: 0 <= b < |metaOf| && 0 <= k < |metaOf[b]| ==> 0 <= metaOf[b][k] < count) &&
    (forall m, b :: m in metaFaces && 0 <= b < |metaOf| ==> metaFaces[m][b] == LastIndexOf(metaOf[b], m)) &&
    (forall m, b :: m in metaFaces && |metaOf| <= b < |buff| ==> metaFaces[m][b] == -1)
  }

  /** An id that a frame's list does not hold has no last position in it. */
  lemma LastIndexOfAbsent(s: seq<int>, m: int)
    requires forall k :: 0 <= k < |s| ==> s[k] != m
    ensures LastIndexOf(s, m) == -1
  {
    LastIndexOfIsLast(s, m);
  }

  /** A skipped frame leaves the table as it is. */
  lemma WindowTableSkip(buff: seq<LipSignal>, metaFaces: map<int, seq<int>>, count: nat,
                        speakers: seq<int>, metaOf: seq<seq<int>>)
    requires IsWindowTable(buff, metaFaces, count, speakers, metaOf)
    requires |metaOf| < |buff| && IsSkipped(buff[|metaOf|])
    ensures IsWindowTable(buff, metaFaces, count, speakers + [-1], metaOf + [[]])
  {
    var metaOf' := metaOf + [[]];
    forall m, b | m in metaFaces && 0 <= b < |metaOf'|
      ensures metaFaces[m][b] == LastIndexOf(metaOf'[b], m)
    {
      if b < |metaOf| {
        assert metaOf'[b] == metaOf[b];
      } else {
        assert metaOf'[b] == [];
        assert LastIndexOf([], m) == -1;
      }
    }
  }

  /** A handled frame: the table the frame loop leaves (metaFaces, count) for
      frame B = |metaOf| extends the window's table by that frame's ids `cur` and
      speaker candidate. */
  lemma WindowTableExtend(buff: seq<LipSignal>, metaFaces0: map<int, seq<int>>, count0: nat,
                          speakers: seq<int>, metaOf: seq<seq<int>>,
                          metaFaces: map<int, seq<int>>, count: nat, cur: seq<int>, speaker: int)
    requires IsWindowTable(buff, metaFaces0, count0, speakers, metaOf)
    requires |metaOf| < |buff| && !IsSkipped(buff[|metaOf|])
    requires IsFrameTable(metaFaces0, count0, metaFaces, count, |buff|, |metaOf|, cur)
    requires |cur| == |buff[|metaOf|].detections| && -1 <= speaker < |cur|
    ensures IsWindowTable(buff, metaFaces, count, speakers + [speaker], metaOf + [cur])
  {
    var metaOf' := metaOf + [cur];
    forall b, k | 0 <= b < |metaOf'| && 0 <= k < |metaOf'[b]|
      ensures 0 <= metaOf'[b][k] < count
    {
      if b < |metaOf| {
        assert metaOf'[b] == metaOf[b];
      }
    }
    forall m, b | m in metaFaces && 0 <= b < |metaOf'|
      ensures metaFaces[m][b] == LastIndexOf(metaOf'[b], m)
    {
      if b < |metaOf| {
        assert metaOf'[b] == metaOf[b];
        if m >= count0 {
          LastIndexOfAbsent(metaOf[b], m);
        } else {
          assert m in metaFaces0;
        }
      } else {
        assert metaOf'[b] == cur;
      }
    }
    forall m, b | m in metaFaces && |metaOf'| <= b < |buff|
      ensures metaFaces[m][b] == -1
    {
      if m < count0 {
        assert m in metaFaces0;
      }
    }
  }

  /** Every row of the table is -1 or a valid detection index in each frame, and
      -1 in every skipped frame. */
  lemma TableRowsAreRows(buff: seq<LipSignal>, metaFaces: map<int, seq<int>>, count: nat,
                         speakers: seq<int>, metaOf: seq<seq<int>>, m: int)
    requires IsWindowTable(buff, metaFaces, count, speakers, metaOf) && m in metaFaces
    ensures IsRow(buff, metaFaces[m])
    ensures forall b :: 0 <= b < |buff| && IsSkipped(buff[b]) ==> metaFaces[m][b] == -1
  {
    forall b | 0 <= b < |buff|
      ensures metaFaces[m][b] == -1 || 0 <= metaFaces[m][b] < |buff[b].detections|
    {
      if b < |metaOf| && IsSkipped(buff[b]) {
        assert metaOf[b] == [];
        assert LastIndexOf([], m) == -1;
      }
    }
  }

  /** A (frame, face) pair is claimed by at most one meta-face. */
  lemma SlotHasOneOwner(buff: seq<LipSignal>, metaFaces: map<int, seq<int>>, count: nat,
                        speakers: seq<int>, metaOf: seq<seq<int>>, m1: int, m2: int, b: nat)
    requires IsWindowTable(buff, metaFaces, count, speakers, metaOf)
    requires m1 in metaFaces && m2 in metaFaces && b < |buff|
    requires metaFaces[m1][b] != -1 && metaFaces[m1][b] == metaFaces[m2][b]
    ensures m1 == m2
  {
    var k := metaFaces[m1][b];
    assert b < |metaOf|;
    assert LastIndexOf(metaOf[b], m1) == k && LastIndexOf(metaOf[b], m2) == k;
    LastIndexOfIsLast(metaOf[b], m1);
    LastIndexOfIsLast(metaOf[b], m2);
  }

  /** A meta-face with a hit appears in some frame of the window. */
  lemma HitFaceAppears(buff: seq<LipSignal>, metaFaces: map<int, seq<int>>, count: nat,
                       speakers: seq<int>, metaOf: seq<seq<int>>, m: int)
    requires IsWindowTable(buff, metaFaces, count, speakers, metaOf) && m in metaFaces
    requires HitCount(speakers, metaOf, m) > 0
    ensures FirstPresent(metaFaces[m]) != -1
  {
    var b := HitWitness(speakers, metaOf, m);
    LastIndexOfIsLast(metaOf[b], m);
    assert LastIndexOf(metaOf[b], m) != -1;
    assert metaFaces[m][b] != -1;
  }

  /** Some meta-face has a hit exactly when some frame had a speaker candidate. */
  lemma HitsIffSpeakers(buff: seq<LipSignal>, metaFaces: map<int, seq<int>>, count: nat,
                        speakers: seq<int>, metaOf: seq<seq<int>>)
    requires IsWindowTable(buff, metaFaces, count, speakers, metaOf)
    ensures (exists m :: 0 <= m < count && HitCount(speakers, metaOf, m) > 0) <==>
            (exists b :: 0 <= b < |speakers| && speakers[b] != -1)
  {
    if b :| 0 <= b < |speakers| && speakers[b] != -1 {
      assert !IsSkipped(buff[b]);
      var m := metaOf[b][speakers[b]];
      HitCounted(speakers, metaOf, m, b);
    }
    if m :| 0 <= m < count && HitCount(speakers, metaOf, m) > 0 {
      var b := HitWitness(speakers, metaOf, m);
    }
  }

  /** Whether the frame whose speaker candidate is `speaker` and whose meta-face
      ids are `metaOf` counts a hit for meta-face `m`. */
  predicate IsHit(speaker: int, metaOf: seq<int>, m: int)
  {
    0 <= speaker < |metaOf| && metaOf[speaker] == m
  }

  /** The number of frames in which meta-face `m` was the speaker candidate. */
  function HitCount(speakers: seq<int>, metaOf: seq<seq<int>>, m: int): nat
    requires |speakers| == |metaOf|
  {
    if |speakers| == 0 then 0
    else
      HitCount(speakers[..|speakers| - 1], metaOf[..|metaOf| - 1], m) +
        (if IsHit(speakers[|speakers| - 1], metaOf[|metaOf| - 1], m) then 1 else 0)
  }

  /** A meta-face with a hit was the candidate of some frame. */
  lemma {:induction false} HitWitness(speakers: seq<int>, metaOf: seq<seq<int>>, m: int) returns (b: nat)
    requires |speakers| == |metaOf|
    requires HitCount(speakers, metaOf, m) > 0
    ensures b < |speakers| && IsHit(speakers[b], metaOf[b], m)
  {
    var n := |speakers|;
    if IsHit(speakers[n - 1], metaOf[n - 1], m) {
      b := n - 1;
    } else {
      b := HitWitness(speakers[..n - 1], metaOf[..n - 1], m);
    }
  }

  /** A frame whose candidate is meta-face `m` gives `m` a hit. */
  lemma {:induction false} HitCounted(speakers: seq<int>, metaOf: seq<seq<int>>, m: int, b: nat)
    requires |speakers| == |metaOf| && b < |speakers|
    requires IsHit(speakers[b], metaOf[b], m)
    ensures HitCount(speakers, metaOf, m) > 0
  {
    var n := |speakers|;
    if b < n - 1 {
      HitCounted(speakers[..n - 1], metaOf[..n - 1], m, b);
    }
  }

  /** One more frame adds one hit, to the meta-face of its speaker candidate. */
  lemma HitCountAppend(speakers: seq<int>, metaOf: seq<seq<int>>, speaker: int, ids: seq<int>, m: int)
    requires |speakers| == |metaOf|
    ensures HitCount(speakers + [speaker], metaOf + [ids], m) ==
      HitCount(speakers, metaOf, m) + if IsHit(speaker, ids, m) then 1 else 0
  {
    assert (speakers + [speaker])[..|speakers|] == speakers;
    assert (metaOf + [ids])[..|metaOf|] == metaOf;
  }

  /** num_of_active_speaker: the hit count of every meta-face with a hit, under
      ids below `count`, and no entry for the others. */
  ghost predicate CountsHits(hits: map<int, int>, count: nat, speakers: seq<int>, metaOf: seq<seq<int>>)
    requires |speakers| == |metaOf|
  {
    (forall m :: m in hits ==> 0 <= m < count && hits[m] == HitCount(speakers, metaOf, m)) &&
    (forall m :: HitCount(speakers, metaOf, m) > 0 ==> m in hits)
  }

  /** Lines 308-316: a frame with a speaker candidate adds a hit for its meta-face,
      inserting the entry on its first hit. */
  method CountHit(hits: map<int, int>, count: nat, ghost speakers: seq<int>, ghost metaOf: seq<seq<int>>,
                  speaker: int, ids: seq<int>)
    returns (hits': map<int, int>)
    requires |speakers| == |metaOf| && CountsHits(hits, count, speakers, metaOf)
    requires -1 <= speaker < |ids| && forall k :: 0 <= k < |ids| ==> 0 <= ids[k] < count
    ensures CountsHits(hits', count, speakers + [speaker], metaOf + [ids])
  {
    hits' := hits;
    if speaker != -1 {
      var metaFace := ids[speaker];
      if metaFace in hits {
        hits' := hits[metaFace := hits[metaFace] + 1];
      } else {
        hits' := hits[metaFace := 1];
      }
    }
    forall m | true
      ensures HitCount(speakers + [speaker], metaOf + [ids], m) ==
        HitCount(speakers, metaOf, m) + if IsHit(speaker, ids, m) then 1 else 0
    {
      HitCountAppend(speakers, metaOf, speaker, ids, m);
    }
  }

  /** Lines 327-334: the first meta-face id, in ascending id order, with the
      largest hit count; -1 when no count is positive. The map has its keys among
      the ids 0 .. bound - 1, and visiting those in order visits the map's entries
      in the order the std::map iterator does. */
  method DominantSpeaker(hits: map<int, int>, bound: nat) returns (id: int)
    requires forall k :: k in hits ==> 0 <= k < bound
    ensures id == -1 <==> forall k :: k in hits ==> hits[k] <= 0
    ensures id != -1 ==> id in hits && hits[id] > 0
    ensures id != -1 ==> forall k :: k in hits ==> hits[k] <= hits[id]
    ensures id != -1 ==> forall k :: k in hits && k < id ==> hits[k] < hits[id]
  {
    id := -1;
    var maxNum := 0;
    var k := 0;
    while k < bound
      invariant 0 <= k <= bound
      invariant id == -1 ==> maxNum == 0
      invariant id != -1 ==> 0 <= id < k && id in hits && maxNum == hits[id] && maxNum > 0
      invariant forall j :: j in hits && j < k ==> hits[j] <= maxNum
      invariant forall j :: j in hits && j < id ==> hits[j] < maxNum
    {
      if k in hits && hits[k] > maxNum {
        id := k;
        maxNum := hits[k];
      }
      k := k + 1;
    }
  }

  /** The id DominantSpeaker picks from num_of_active_speaker is the first
      meta-face with the most speaker hits, and -1 exactly when no meta-face has
      a hit. */
  lemma DominantHasMostHits(hits: map<int, int>, count: nat, speakers: seq<int>, metaOf: seq<seq<int>>, id: int)
    requires |speakers| == |metaOf| && CountsHits(hits, count, speakers, metaOf)
    requires id == -1 <==> forall k :: k in hits ==> hits[k] <= 0
    requires id != -1 ==> id in hits && hits[id] > 0
    requires id != -1 ==> forall k :: k in hits ==> hits[k] <= hits[id]
    requires id != -1 ==> forall k :: k in hits && k < id ==> hits[k] < hits[id]
    ensures id == -1 <==> forall m :: 0 <= m < count ==> HitCount(speakers, metaOf, m) == 0
    ensures id != -1 ==>
      0 <= id < count && HitCount(speakers, metaOf, id) > 0 &&
      (forall m :: 0 <= m < count ==> HitCount(speakers, metaOf, m) <= HitCount(speakers, metaOf, id)) &&
      (forall m :: 0 <= m < id ==> HitCount(speakers, metaOf, m) < HitCount(speakers, metaOf, id))
  {
    if id == -1 {
      forall m | 0 <= m < count
        ensures HitCount(speakers, metaOf, m) == 0
      {
        if m in hits {
          assert hits[m] == HitCount(speakers, metaOf, m);
        }
      }
    } else {
      assert hits[id] == HitCount(speakers, metaOf, id);
      forall m | 0 <= m < count
        ensures HitCount(speakers, metaOf, m) <= HitCount(speakers, metaOf, id)
        ensures m < id ==> HitCount(speakers, metaOf, m) < HitCount(speakers, metaOf, id)
      {
        if m in hits {
          assert hits[m] == HitCount(speakers, metaOf, m);
        }
      }
    }
  }

  /** The first frame in which the row's face appears, or -1. */
  function FirstPresent(row: seq<int>): (r: int)
    ensures -1 <= r < |row|
    ensures r != -1 ==> row[r] != -1 && forall j :: 0 <= j < r ==> row[j] == -1
    ensures r == -1 ==> forall j :: 0 <= j < |row| ==> row[j] == -1
  {
    if |row| == 0 then -1
    else if row[0] != -1 then 0
    else
      var r := FirstPresent(row[1..]);
      if r == -1 then -1 else r + 1
  }

  /** The last frame before frame `n` in which the row's face appears, or -1. */
  function LatestPresent(row: seq<int>, n: nat): (r: int)
    requires n <= |row|
    ensures -1 <= r < n
    ensures r != -1 ==> row[r] != -1 && forall j :: r < j < n ==> row[j] == -1
    ensures r == -1 ==> forall j :: 0 <= j < n ==> row[j] == -1
  {
    if n == 0 then -1
    else if row[n - 1] != -1 then n - 1
    else LatestPresent(row, n - 1)
  }

  /** The detection of the row's face in frame `b`. */
  function Appearance(buff: seq<LipSignal>, row: seq<int>, b: nat): Detection
    requires IsRow(buff, row) && b < |row| && row[b] != -1
  {
    buff[b].detections[row[b]]
  }

  /** Lines 368-377: the detection of the row's face in the earliest frame where
      it appears, as a list of at most one element. */
  method FirstAppearance(buff: seq<LipSignal>, row: seq<int>) returns (found: seq<Detection>)
    requires IsRow(buff, row)
    ensures FirstPresent(row) == -1 ==> found == []
    ensures FirstPresent(row) != -1 ==> found == [Appearance(buff, row, FirstPresent(row))]
  {
    found := [];
    var i := 0;
    while i < |row|
      invariant 0 <= i <= |row|
      invariant found == []
      invariant forall j :: 0 <= j < i ==> row[j] == -1
    {
      var faceId := row[i];
      if faceId != -1 {
        found := found + [buff[i].detections[faceId]];
        assert FirstPresent(row) == i;
        return;
      }
      i := i + 1;
    }
  }

  /** The box output for frame `b` when the row's face is the dominant speaker:
      its own detection where it appears, else the most recent earlier one, else
      `first`. */
  function RoiBox(buff: seq<LipSignal>, row: seq<int>, first: Detection, b: nat): Detection
    requires IsRow(buff, row) && b < |row|
  {
    if row[b] != -1 then Appearance(buff, row, b)
    else
      var j := LatestPresent(row, b);
      if j == -1 then first else Appearance(buff, row, j)
  }

  /** Lines 399-426: one packet per buffered frame, in buffer order, each holding
      exactly one box; `last` is the value of dominate_speaker_detection[0]
      afterwards, the box of the last packet. */
  method RoiOutput(buff: seq<LipSignal>, row: seq<int>, first: Detection)
    returns (out: seq<(int, seq<Detection>)>, last: Detection)
    requires IsRow(buff, row)
    ensures |out| == |buff|
    ensures forall b :: 0 <= b < |out| ==> out[b] == (buff[b].timestamp, [RoiBox(buff, row, first, b)])
    ensures |buff| == 0 ==> last == first
    ensures |buff| > 0 ==> last == out[|buff| - 1].1[0]
  {
    out := [];
    last := first;
    var b := 0;
    while b < |buff|
      invariant 0 <= b <= |buff|
      invariant |out| == b
      invariant forall k :: 0 <= k < b ==> out[k] == (buff[k].timestamp, [RoiBox(buff, row, first, k)])
      invariant last == if LatestPresent(row, b) == -1 then first else Appearance(buff, row, LatestPresent(row, b))
    {
      var faceId := row[b];
      if faceId != -1 {
        out := out + [(buff[b].timestamp, [buff[b].detections[faceId]])];
        last := buff[b].detections[faceId];
      } else {
        out := out + [(buff[b].timestamp, [last])];
      }
      b := b + 1;
    }
  }

  /** The output of a window without dominant speaker: an empty list per frame. */
  method EmptyRoiOutput(buff: seq<LipSignal>) returns (out: seq<(int, seq<Detection>)>)
    ensures |out| == |buff|
    ensures forall b :: 0 <= b < |out| ==> out[b] == (buff[b].timestamp, [])
  {
    out := [];
    var b := 0;
    while b < |buff|
      invariant 0 <= b <= |buff|
      invariant |out| == b
      invariant forall k :: 0 <= k < b ==> out[k] == (buff[k].timestamp, [])
    {
      out := out + [(buff[b].timestamp, [])];
      b := b + 1;
    }
  }

  /** Line 390: the dominant speaker changed unless the previous speaker's box and
      this window's first box overlap by more than the threshold; a NaN IOU
      counts as a change. With a threshold of at least 0, a speaker is kept only
      when the two boxes overlap. */
  function SpeakerChange(previous: Detection, current: Detection, threshold: real): (r: bool)
    ensures threshold >= 0.0 && !r ==> Intersect(DetectionToRect(previous), DetectionToRect(current)) != EmptyRect
  {
    IouWithoutOverlap(previous, current);
    !Greater(GetIou(previous, current), threshold)
  }

  /** A speaker whose box has not moved is the same speaker, for any threshold
      below 1. */
  lemma SameBoxIsNoChange(box: Detection, threshold: real)
    requires box.width > 0.0 && box.height > 0.0 && threshold < 1.0
    ensures !SpeakerChange(box, box, threshold)
  {
    IouOfItself(box);
  }

  /** Two boxes apart along one axis are a change of speaker, for any threshold
      of at least 0. */
  lemma SeparatedBoxesAreChange(previous: Detection, current: Detection, threshold: real)
    requires previous.width > 0.0 && previous.height > 0.0 && current.width > 0.0 && current.height > 0.0
    requires previous.xmin + previous.width <= current.xmin || current.xmin + current.width <= previous.xmin ||
             previous.ymin + previous.height <= current.ymin || current.ymin + current.height <= previous.ymin
    requires threshold >= 0.0
    ensures SpeakerChange(previous, current, threshold)
  {
    IouOfSeparated(previous, current);
  }

  /** Lines 633-636: a change survives only when the last shot is at least
      min_shot_span old. */
  predicate Debounced(change: bool, ts: int, lastShot: int, minShotSpan: int)
  {
    change && !(ts - lastShot < minShotSpan)
  }

  /** The packets Transmit adds to IS_SPEAKER_CHANGE. */
  function ShotPackets(change: bool, ts: int, lastShot: int, o: Options): seq<(int, bool)>
  {
    if Debounced(change, ts, lastShot, o.minShotSpan) then [(ts, true)]
    else if o.outputShotBoundaryOnlyOnChange then []
    else [(ts, false)]
  }

  /** last_shot_timestamp_ after a run of shot decisions, each a pair of the
      window's first timestamp and the decision before the debounce: a true
      decision moves it, whether or not the debounce let it through. */
  function LastShotAfter(decisions: seq<(int, bool)>, lastShot: int): int
  {
    if |decisions| == 0 then lastShot
    else
      var d := decisions[|decisions| - 1];
      if d.1 then d.0 else LastShotAfter(decisions[..|decisions| - 1], lastShot)
  }

  /** Whether decision `k` of a run is emitted as true. */
  predicate EmitsChange(decisions: seq<(int, bool)>, lastShot: int, minShotSpan: int, k: nat)
    requires k < |decisions|
  {
    Debounced(decisions[k].1, decisions[k].0, LastShotAfter(decisions[..k], lastShot), minShotSpan)
  }

  predicate NonDecreasing(decisions: seq<(int, bool)>)
  {
    forall i, j :: 0 <= i < j < |decisions| ==> decisions[i].0 <= decisions[j].0
  }

  lemma {:induction false} LastShotAtLeast(decisions: seq<(int, bool)>, lastShot: int, k: nat, n: nat)
    requires k < n <= |decisions| && decisions[k].1
    requires NonDecreasing(decisions)
    ensures LastShotAfter(decisions[..n], lastShot) >= decisions[k].0
  {
    var s := decisions[..n];
    assert s[..n - 1] == decisions[..n - 1];
    if k < n - 1 && !s[n - 1].1 {
      LastShotAtLeast(decisions, lastShot, k, n - 1);
    }
  }

  /** With non-decreasing timestamps, two true shot signals are at least
      min_shot_span apart. */
  lemma EmittedChangesAreSpaced(decisions: seq<(int, bool)>, lastShot: int, minShotSpan: int, k1: nat, k2: nat)
    requires k1 < k2 < |decisions| && NonDecreasing(decisions)
    requires EmitsChange(decisions, lastShot, minShotSpan, k1)
    requires EmitsChange(decisions, lastShot, minShotSpan, k2)
    ensures decisions[k2].0 - decisions[k1].0 >= minShotSpan
  {
    LastShotAtLeast(decisions, lastShot, k1, k2);
  }

  /** Because a suppressed change still moves last_shot_timestamp_, a run of
      changes that each follow the previous one within min_shot_span never emits
      true, however long the run lasts. */
  lemma {:induction false} SteadyChangesAreSuppressed(decisions: seq<(int, bool)>, lastShot: int, minShotSpan: int, k: nat)
    requires k < |decisions|
    requires forall i :: 0 <= i < |decisions| ==> decisions[i].1
    requires decisions[0].0 - lastShot < minShotSpan
    requires forall i :: 0 < i < |decisions| ==> decisions[i].0 - decisions[i - 1].0 < minShotSpan
    ensures !EmitsChange(decisions, lastShot, minShotSpan, k)
  {
    if k > 0 {
      var s := decisions[..k];
      assert s[k - 1] == decisions[k - 1];
      assert LastShotAfter(s, lastShot) == decisions[k - 1].0;
    }
  }
}
