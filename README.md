# LipTrackCalculator, modelled in Dafny

This project models the speaker-tracking and shot-decision core of AutoFlip's
`LipTrackCalculator`, a MediaPipe calculator. The calculator gets a face mesh
and a face box for every face of every video frame. It buffers the frames until
they span `min_speaker_span`, then runs `ProcessScene` over the buffer.

`ProcessScene` has three steps:

- **Tracking.** Each face is matched to the face of the previous frame with the
  largest IOU (`MatchFace`). A matched face inherits that face's lip-statistic
  history, rolled to `variance_history` values. It also inherits that face's
  meta-face id (a track id that lasts across the window). An unmatched face
  starts a fresh history and gets a fresh id.
- **Speaker choice.** Within each frame, `IsActiveSpeaker` judges every face
  against mean and variance thresholds, and against the strongest face judged
  active earlier in that frame. The last face it flags is the frame's speaker
  candidate, and a hit is counted for that face's meta-face. The meta-face with
  the most hits (the lowest id among equals) is the window's dominant speaker.
- **Output.** For every buffered frame it emits:
  - the dominant face's box, or its latest earlier box when it is missing from
    that frame;
  - or an empty list when there is no dominant speaker.

  It may also emit a shot-boundary signal: "the speaker changed". That signal
  is debounced by `min_shot_span`.

The model is split into these modules:

- `Geometry`: OpenCV's `&` and `|` on `Rect2f`; `GetIOU` over reals, with
  `None` for the NaN of 0/0.
- `LipStatistics`: `GetStatistics`, the rolling history, and mean, variance and
  `mean_short`.
- `Association`: `MatchFace`.
- `Window`: the meta-face table, hit counting, the dominant speaker, ROI output
  and the shot debounce.
- `LipTrack`: the calculator as a class whose fields are its members.

The source's imperative operations are Dafny methods with loops. Each is proved
equal to a pure function, and the properties are proved about that function:

- the frame loop against `SlotFaces` and `JudgeFaces`;
- the window loop against the ghost trace `FramesJudged`;
- the output loops against `RoiBox`.

## Model

| member | source | states |
|---|---|---|
| Geometry.Intersect | autoflip_calculators/lip_track/lip_track_calculator.cc:498 | OpenCV's `&` is the default rectangle, or a non-empty rectangle inside both boxes; it is the default when either box is empty |
| Geometry.Bounding | autoflip_calculators/lip_track/lip_track_calculator.cc:499 | OpenCV's `\|` holds both boxes when neither is empty; otherwise it is the other box (the second when both are empty) |
| Geometry.IntersectIsLargest | autoflip_calculators/lip_track/lip_track_calculator.cc:498 | any non-empty rectangle inside both boxes lies inside their `&`, which is then not the default rectangle |
| Geometry.BoundingIsSmallest | autoflip_calculators/lip_track/lip_track_calculator.cc:499 | any rectangle holding two non-empty boxes holds their `\|` |
| Geometry.DetectionToRect | autoflip_calculators/lip_track/lip_track_calculator.cc:483-491 | the relative bounding box as a `Rect2f` with the same corner, width and height; GetIou's lemmas build on it |
| Geometry.GetIou | autoflip_calculators/lip_track/lip_track_calculator.cc:493-501 | the overlap area over the bounding area, or None for the undefined 0/0; the contract states that it is None only when the boxes do not overlap |
| Geometry.ZeroBoundingOnlyWithoutOverlap | autoflip_calculators/lip_track/lip_track_calculator.cc:493-501 | a zero denominator in GetIOU forces an empty overlap, so the only undefined IOU is 0/0 |
| Geometry.OverlapWithinBounding | autoflip_calculators/lip_track/lip_track_calculator.cc:498-500 | a non-empty overlap has positive area, at most the area of the bounding rectangle |
| Geometry.IouOfOverlap | autoflip_calculators/lip_track/lip_track_calculator.cc:493-501 | boxes that overlap have a defined IOU in (0, 1] |
| Geometry.IouInUnitRange | autoflip_calculators/lip_track/lip_track_calculator.cc:493-501 | every defined IOU lies in [0, 1] |
| Geometry.IouOfItself | autoflip_calculators/lip_track/lip_track_calculator.cc:493-501 | a box of positive width and height has IOU exactly 1 with itself |
| Geometry.SeparatedDoNotOverlap | autoflip_calculators/lip_track/lip_track_calculator.cc:498 | boxes separated along one axis have the default rectangle as their `&` |
| Geometry.IouOfSeparated | autoflip_calculators/lip_track/lip_track_calculator.cc:493-501 | two non-degenerate boxes separated along one axis have IOU 0 |
| Geometry.IouOfCrossing | autoflip_calculators/lip_track/lip_track_calculator.cc:493-501 | the converse: non-degenerate boxes whose extents overlap on both axes overlap, with a defined IOU in (0, 1] |
| Geometry.BoundingAreaPositive | autoflip_calculators/lip_track/lip_track_calculator.cc:499-500 | two non-degenerate boxes have a bounding rectangle of positive area |
| Geometry.IouWithoutOverlap | autoflip_calculators/lip_track/lip_track_calculator.cc:493-501 | an empty overlap over a non-zero denominator gives IOU 0 |
| Geometry.IouSymmetric | autoflip_calculators/lip_track/lip_track_calculator.cc:493-501 | IOU is symmetric when at least one box is not empty |
| Geometry.IouAsymmetricWhenDegenerate | autoflip_calculators/lip_track/lip_track_calculator.cc:499-500 | for two empty boxes the order matters: one order gives 0, the other the NaN of 0/0 |
| Geometry.IouOneMeansSameBox | autoflip_calculators/lip_track/lip_track_calculator.cc:493-501 | two boxes of positive width and height whose IOU is exactly 1 are the same box |
| LipStatistics.GetStatistics | autoflip_calculators/lip_track/lip_track_calculator.cc:446-465 | the loop pushes exactly the list `Statistics` defines, skipping short landmark lists and carrying mouth_height over from face to face |
| LipStatistics.CarriedHeight | autoflip_calculators/lip_track/lip_track_calculator.cc:448-461 | mouth_height after the loop: each measured face adds its lip gaps to the value the previous face left and divides by 3, because the variable is never reset; StatisticsCount, LoneFaceStatistic and SecondFaceCarriesHeight state what results |
| LipStatistics.Statistics | autoflip_calculators/lip_track/lip_track_calculator.cc:446-465 | one value per measured face, in order, that face's carried height over its mouth width; StatisticsCount states the count |
| LipStatistics.StatisticsCount | autoflip_calculators/lip_track/lip_track_calculator.cc:449-462 | one statistic per landmark list with at least 468 landmarks |
| LipStatistics.LoneFaceStatistic | autoflip_calculators/lip_track/lip_track_calculator.cc:453-461 | a lone full face gets the mean of its three lip gaps over its mouth width |
| LipStatistics.SecondFaceCarriesHeight | autoflip_calculators/lip_track/lip_track_calculator.cc:448-461 | the second of two full faces gets (the first face's height plus the sum of its own gaps) / 3 over its width, because mouth_height is never reset |
| LipStatistics.SumOf | autoflip_calculators/lip_track/lip_track_calculator.cc:511-518 | the accumulation loops compute the sum of the values |
| LipStatistics.SquaredDeviationOf | autoflip_calculators/lip_track/lip_track_calculator.cc:520-521 | the variance loop computes the sum of squared deviations from the mean |
| LipStatistics.Mean | autoflip_calculators/lip_track/lip_track_calculator.cc:517-519 | the sum of the history divided by its length; SumOf is the loop that computes the sum |
| LipStatistics.Variance | autoflip_calculators/lip_track/lip_track_calculator.cc:520-522 | the population variance, divided by the length; VarianceNonNegative states it is never negative |
| LipStatistics.MeanShort | autoflip_calculators/lip_track/lip_track_calculator.cc:507-515 | the mean of the last mean_history values, or the oldest value when the history is shorter; ConstantHistoryStatistics states it for a still mouth |
| LipStatistics.Speaks | autoflip_calculators/lip_track/lip_track_calculator.cc:505-530 | the decision IsActiveSpeaker makes: a history longer than variance_history/2, passing the big-mouth test and beating speaker_mean_, or the small-mouth test and beating speaker_variance_; ConstantHistoryIsSilent and IsActiveSpeaker's contract build on it |
| LipStatistics.RatchetAfter | autoflip_calculators/lip_track/lip_track_calculator.cc:524-534 | speaker_mean_ and speaker_variance_ after judging a frame's faces in order: a face judged active becomes the incumbent; JudgeFacesSpeaker states the loop computes it |
| LipStatistics.SquaredDeviationNonNegative | autoflip_calculators/lip_track/lip_track_calculator.cc:520-521 | the sum of squared deviations is never negative |
| LipStatistics.VarianceNonNegative | autoflip_calculators/lip_track/lip_track_calculator.cc:520-522 | the variance (population form, divided by the length) is never negative |
| LipStatistics.SumOfConstant | autoflip_calculators/lip_track/lip_track_calculator.cc:517-518 | a history of n equal values c sums to n * c |
| LipStatistics.SquaredDeviationOfConstant | autoflip_calculators/lip_track/lip_track_calculator.cc:520-521 | a history of equal values has no deviation from that value |
| LipStatistics.ConstantHistoryStatistics | autoflip_calculators/lip_track/lip_track_calculator.cc:507-522 | a still mouth has mean and mean_short equal to its statistic and variance 0 |
| LipStatistics.ConstantHistoryIsSilent | autoflip_calculators/lip_track/lip_track_calculator.cc:524-536 | a still mouth is never judged active when each criterion needs a positive variance or a mean above the statistic |
| LipStatistics.FlaggedOnPrefix | autoflip_calculators/lip_track/lip_track_calculator.cc:304-305 | whether a face is flagged depends only on the faces before it in the frame |
| LipStatistics.LastFlagged | autoflip_calculators/lip_track/lip_track_calculator.cc:269-306 | cur_speaker_id is -1 or a flagged face, and no later face of the frame is flagged |
| LipStatistics.CopyHistory | autoflip_calculators/lip_track/lip_track_calculator.cc:278-280 | the copy loop yields the matched face's history unchanged |
| LipStatistics.Rolled | autoflip_calculators/lip_track/lip_track_calculator.cc:274-285 | the matched face's history with the new value pushed at the back and the front popped once it exceeds variance_history; RollHistory and RolledEndsWithNewValue state its shape |
| LipStatistics.RollHistory | autoflip_calculators/lip_track/lip_track_calculator.cc:278-285 | the new deque is the last min(len + 1, variance_history) values of the old history followed by the new value |
| LipStatistics.RolledEndsWithNewValue | autoflip_calculators/lip_track/lip_track_calculator.cc:283-285 | a rolled history is at most variance_history long and, for a positive bound, ends with the new value |
| Association.MatchFace | autoflip_calculators/lip_track/lip_track_calculator.cc:467-481 | the answer is -1 when no previous box has a numeric IOU that is at least the threshold and above 0; otherwise it is such a box of largest IOU, the first among equals |
| Association.BestMatchIsUnique | autoflip_calculators/lip_track/lip_track_calculator.cc:467-481 | that specification determines the answer |
| Association.AllBestMatchesAt | autoflip_calculators/lip_track/lip_track_calculator.cc:270-273 | every recorded answer of a frame is MatchFace's answer for that face |
| Association.IdenticalBoxIsMatched | autoflip_calculators/lip_track/lip_track_calculator.cc:467-481 | a face exactly where a previous face was is matched (with a threshold at most 1) to that face or an earlier identical one, with IOU 1 |
| Window.LastIndexOfIsLast | autoflip_calculators/lip_track/lip_track_calculator.cc:286-302 | a meta-face's slot in a frame is the last face given that id, and -1 exactly when none is |
| Window.MetaIds | autoflip_calculators/lip_track/lip_track_calculator.cc:286-302 | one id per face: the matched face's previous id, or the next fresh id; MetaIdsOfFaces and MintedIdsAreFresh state the ids one by one |
| Window.Absent | autoflip_calculators/lip_track/lip_track_calculator.cc:296-299 | a new meta-face row has one slot per buffered frame, each -1 |
| Window.AbsentRow | autoflip_calculators/lip_track/lip_track_calculator.cc:296-299 | the push loop builds exactly `Absent`'s row |
| Window.FrameTableStart | autoflip_calculators/lip_track/lip_track_calculator.cc:256-269 | a frame starts from the window's table, whose slots for it are all -1 |
| Window.FrameTableReuse | autoflip_calculators/lip_track/lip_track_calculator.cc:287-289 | a matched face writes its index into its meta-face's slot for the frame and takes that id |
| Window.FrameTableMint | autoflip_calculators/lip_track/lip_track_calculator.cc:296-302 | an unmatched face mints id meta_face_count, with a row holding only the face's index |
| Window.MetaIdsAppend | autoflip_calculators/lip_track/lip_track_calculator.cc:287-302 | one more face appends its previous face's id or the next fresh id |
| Window.MetaIdsOfFaces | autoflip_calculators/lip_track/lip_track_calculator.cc:287-302 | each face's id is its matched face's id, or meta_face_count at frame start plus the number of unmatched faces before it |
| Window.UnmatchedGrows | autoflip_calculators/lip_track/lip_track_calculator.cc:296-302 | meta_face_count grows at each unmatched face |
| Window.MintedIdsAreFresh | autoflip_calculators/lip_track/lip_track_calculator.cc:296-302 | two unmatched faces of a frame get distinct ids, both new to the window |
| Window.WindowTableSkip | autoflip_calculators/lip_track/lip_track_calculator.cc:261-262 | a skipped frame leaves the table unchanged and records no candidate |
| Window.WindowTableExtend | autoflip_calculators/lip_track/lip_track_calculator.cc:256-323 | a handled frame extends the window table by its ids and slots |
| Window.TableRowsAreRows | autoflip_calculators/lip_track/lip_track_calculator.cc:286-302 | every slot of a row is -1 or a valid index into that frame's detections, and -1 in skipped frames |
| Window.SlotHasOneOwner | autoflip_calculators/lip_track/lip_track_calculator.cc:286-302 | no face of a frame is claimed by two meta-faces |
| Window.HitFaceAppears | autoflip_calculators/lip_track/lip_track_calculator.cc:308-316 | a meta-face with a hit appears in some frame, so the dominant speaker always has a first box |
| Window.HitsIffSpeakers | autoflip_calculators/lip_track/lip_track_calculator.cc:308-316 | some meta-face has a hit exactly when some frame had a speaker candidate |
| Window.HitWitness | autoflip_calculators/lip_track/lip_track_calculator.cc:308-316 | a meta-face with a hit was the candidate of some frame |
| Window.HitCounted | autoflip_calculators/lip_track/lip_track_calculator.cc:308-316 | a frame whose candidate has meta-face m gives m a hit |
| Window.HitCountAppend | autoflip_calculators/lip_track/lip_track_calculator.cc:308-316 | one more frame adds one hit, to its candidate's meta-face only |
| Window.CountHit | autoflip_calculators/lip_track/lip_track_calculator.cc:308-316 | num_of_active_speaker keeps holding the hit count of every meta-face with a hit, and only those |
| Window.DominantSpeaker | autoflip_calculators/lip_track/lip_track_calculator.cc:327-334 | -1 when no count is positive; otherwise the key of the maximal count, the lowest among equals |
| Window.DominantHasMostHits | autoflip_calculators/lip_track/lip_track_calculator.cc:308-334 | restated as hit counts: the dominant speaker has the most hits of all meta-faces, strictly more than any lower id |
| Window.FirstPresent | autoflip_calculators/lip_track/lip_track_calculator.cc:370-377 | the first frame where the face appears, or -1 when it appears nowhere |
| Window.LatestPresent | autoflip_calculators/lip_track/lip_track_calculator.cc:407-416 | the latest earlier frame where the face appears, or -1 |
| Window.RoiBox | autoflip_calculators/lip_track/lip_track_calculator.cc:399-426 | the dominant face's own box in a frame where it appears, else its latest earlier box, else its first box; RoiOutput states the loop outputs it |
| Window.FirstAppearance | autoflip_calculators/lip_track/lip_track_calculator.cc:368-377 | dominate_speaker_detection starts as the first box of the dominant face |
| Window.RoiOutput | autoflip_calculators/lip_track/lip_track_calculator.cc:399-426 | one packet per frame, in order, with the face's box or the last box carried forward; it also gives the box left at the end |
| Window.EmptyRoiOutput | autoflip_calculators/lip_track/lip_track_calculator.cc:340-353 | with no dominant speaker, one empty packet per frame |
| Window.SpeakerChange | autoflip_calculators/lip_track/lip_track_calculator.cc:389-390 | with a threshold of at least 0, a kept speaker's two boxes overlap; SameBoxIsNoChange and SeparatedBoxesAreChange state it box by box (NaN counts as a change) |
| Window.SameBoxIsNoChange | autoflip_calculators/lip_track/lip_track_calculator.cc:389-390 | a box of positive area that has not moved is no change, for any threshold below 1 |
| Window.SeparatedBoxesAreChange | autoflip_calculators/lip_track/lip_track_calculator.cc:389-390 | two boxes of positive area apart along one axis are a change, for any threshold of at least 0 |
| Window.Debounced | autoflip_calculators/lip_track/lip_track_calculator.cc:631-636 | a change survives only when the last shot is at least min_shot_span old; Transmit's contract states the packet is true exactly then |
| Window.ShotPackets | autoflip_calculators/lip_track/lip_track_calculator.cc:631-650 | a true packet for a debounced change, otherwise a false packet unless only changes are output; SignalShot states the window outputs it |
| Window.LastShotAtLeast | autoflip_calculators/lip_track/lip_track_calculator.cc:380-396 | last_shot_timestamp_ never falls behind a decided change |
| Window.EmittedChangesAreSpaced | autoflip_calculators/lip_track/lip_track_calculator.cc:631-643 | with non-decreasing times, two emitted true signals are at least min_shot_span apart, since lines 384 and 393 move last_shot_timestamp_ to each decided change |
| Window.SteadyChangesAreSuppressed | autoflip_calculators/lip_track/lip_track_calculator.cc:631-636 | changes closer together than min_shot_span, starting within it, are all suppressed, because a suppressed change still moves last_shot_timestamp_ |
| LipTrack.MakeSignal | autoflip_calculators/lip_track/lip_track_calculator.cc:207-217 | the frame keeps landmarks and detections only when both packets are present, and is skipped otherwise |
| LipTrack.ShotDecision | autoflip_calculators/lip_track/lip_track_calculator.cc:380-394 | a change when there was no previous speaker, no decision when no previous box is stored, otherwise the IOU test; OverlappingSpeakerIsNoChange and MovedSpeakerIsChange state its effect on the output |
| LipTrack.SceneOutputShape | autoflip_calculators/lip_track/lip_track_calculator.cc:336-426 | the ROI output has one packet per frame with that frame's time and at most one box; all packets are empty exactly without a dominant speaker |
| LipTrack.OverlappingSpeakerIsNoChange | autoflip_calculators/lip_track/lip_track_calculator.cc:380-396 | a new dominant speaker whose first box overlaps the previous speaker's box by more than iou_threshold gives no true packet and leaves last_shot_timestamp_ alone, whatever the two meta-face ids |
| LipTrack.MovedSpeakerIsChange | autoflip_calculators/lip_track/lip_track_calculator.cc:380-396 | a dominant speaker whose first box overlaps the previous box by at most iou_threshold is signalled when min_shot_span has passed, and moves last_shot_timestamp_ either way |
| LipTrack.ScenesChainedExtend | autoflip_calculators/lip_track/lip_track_calculator.cc:243-438 | one more processed window (a SceneOutput step, as Process and Close ensure) extends a run of windows, each starting from the speaker id, box and last shot time the previous one left |
| LipTrack.ScenesLastShot | autoflip_calculators/lip_track/lip_track_calculator.cc:380-396 | across a run, last_shot_timestamp_ before window n is LastShotAfter the decisions of the first n windows |
| LipTrack.ScenesSignalChange | autoflip_calculators/lip_track/lip_track_calculator.cc:380-396 | window i of a run emits a true packet exactly when EmitsChange holds of the run's decisions at i |
| LipTrack.ScenesChangesAreSpaced | autoflip_calculators/lip_track/lip_track_calculator.cc:631-643 | two windows of a run in time order that both emit a true packet start at least min_shot_span apart |
| LipTrack.NewHistories | autoflip_calculators/lip_track/lip_track_calculator.cc:268-294 | one history per face of the frame |
| LipTrack.NewHistoryOfFace | autoflip_calculators/lip_track/lip_track_calculator.cc:274-294 | face k's history is its matched face's history rolled forward with its statistic, or that statistic alone |
| LipTrack.NewHistoriesAppend | autoflip_calculators/lip_track/lip_track_calculator.cc:274-294 | one more face appends its own history and leaves the others alone |
| LipTrack.SlotFaces | autoflip_calculators/lip_track/lip_track_calculator.cc:286-302 | the frame's faces give one id each and never lower meta_face_count, and the table stays a table |
| LipTrack.SlotFacesTable | autoflip_calculators/lip_track/lip_track_calculator.cc:286-302 | after a frame's faces, each meta-face's slot in that frame is the last face given its id, and every other slot is unchanged |
| LipTrack.SlotFacesIds | autoflip_calculators/lip_track/lip_track_calculator.cc:286-302 | the frame's ids are those MetaIds defines, and meta_face_count grows by the number of unmatched faces |
| LipTrack.JudgeFaces | autoflip_calculators/lip_track/lip_track_calculator.cc:268-306 | cur_speaker_id is -1 or a face of the frame |
| LipTrack.JudgeFace | autoflip_calculators/lip_track/lip_track_calculator.cc:274-305 | one face stores its history under its index, and becomes the candidate or leaves it as it was |
| LipTrack.JudgeFacesHistories | autoflip_calculators/lip_track/lip_track_calculator.cc:268-294 | cur_face_statistics holds, under each face index, the history NewHistories gives that face, and no other key |
| LipTrack.JudgeFacesSpeaker | autoflip_calculators/lip_track/lip_track_calculator.cc:304-305 | cur_speaker_id is the last face IsActiveSpeaker flags, and speaker_mean_/speaker_variance_ are those of the last face flagged, judging in order from (0, 0) |
| LipTrack.FramesJudgedAt | autoflip_calculators/lip_track/lip_track_calculator.cc:255-324 | every handled frame of the window is one frame step from the state the previous handled frame left |
| LipTrack.WindowSpeakers | autoflip_calculators/lip_track/lip_track_calculator.cc:255-324 | in a handled frame, the candidate is the last face flagged, on histories carried from the previous handled frame; its ids are carried or fresh |
| LipTrack.SkippedFramesKeepState | autoflip_calculators/lip_track/lip_track_calculator.cc:261-262 | a frame after a run of skipped frames starts from the state the last handled frame left |
| LipTrack.UnmovedFacesKeepIds | autoflip_calculators/lip_track/lip_track_calculator.cc:270-302 | when a handled frame repeats the boxes of the previous handled frame, all of positive area and pairwise distinct, each face is matched to the face at its own index and keeps its meta-face id (for iou_threshold at most 1) |
| LipTrack.DuplicateBoxesShareId | autoflip_calculators/lip_track/lip_track_calculator.cc:286-302 | two identical boxes of one frame get the same MatchFace answer and, when matched, the same meta-face id |
| LipTrack.FramesJudgedCons | autoflip_calculators/lip_track/lip_track_calculator.cc:255-324 | a window trace extended by one frame step from the state the trace left is a window trace |
| LipTrack.SkippedSoFar | autoflip_calculators/lip_track/lip_track_calculator.cc:261-262 | a skipped frame extends the window trace without changing the carried state |
| LipTrack.TrackedFrameSoFar | autoflip_calculators/lip_track/lip_track_calculator.cc:256-323 | a handled frame extends the window trace with its matches, candidate, ids and new carried state |
| LipTrack.SlotFace | autoflip_calculators/lip_track/lip_track_calculator.cc:286-302 | the table update for one face is the SlotFaces step for its MatchFace answer |
| LipTrack.StartHistory | autoflip_calculators/lip_track/lip_track_calculator.cc:274-294 | the new face's deque is its matched face's history rolled forward, or its statistic alone |
| LipTrack.LipTrackCalculator.constructor | autoflip_calculators/lip_track/lip_track_calculator.cc:147-153 | the calculator starts with an empty buffer, no previous speaker and its last shot at time 0 |
| LipTrack.LipTrackCalculator.IsActiveSpeaker | autoflip_calculators/lip_track/lip_track_calculator.cc:503-537 | a history no longer than variance_history/2 is never active; otherwise a face is active when it passes either the big-mouth or the small-mouth test and beats the incumbent; an active face becomes the incumbent; otherwise nothing changes |
| LipTrack.LipTrackCalculator.Transmit | autoflip_calculators/lip_track/lip_track_calculator.cc:631-650 | a true packet exactly for a change at least min_shot_span after the last shot; no packet exactly when only changes are output and there is none |
| LipTrack.LipTrackCalculator.TrackFace | autoflip_calculators/lip_track/lip_track_calculator.cc:268-306 | handling one face extends the recorded MatchFace answers and keeps the loop state equal to SlotFaces and JudgeFaces |
| LipTrack.LipTrackCalculator.JudgeNewFace | autoflip_calculators/lip_track/lip_track_calculator.cc:274-305 | storing and judging one face is the JudgeFaces step for it |
| LipTrack.LipTrackCalculator.TrackFrame | autoflip_calculators/lip_track/lip_track_calculator.cc:256-323 | a handled frame records MatchFace's answer for every face; the new face_bbox_, face_statistics_, table and ids are those SlotFaces and JudgeFaces give; speaker_mean_ and speaker_variance_ are back at 0 |
| LipTrack.LipTrackCalculator.WindowSkip | autoflip_calculators/lip_track/lip_track_calculator.cc:261-262 | a skipped frame extends the window loop state without touching the fields |
| LipTrack.LipTrackCalculator.WindowTrack | autoflip_calculators/lip_track/lip_track_calculator.cc:256-323 | one pass of the window loop over a handled frame keeps the window invariant |
| LipTrack.LipTrackCalculator.WindowDone | autoflip_calculators/lip_track/lip_track_calculator.cc:255-324 | once every buffered frame is handled, the loop state is the window table, the hit counts and the window trace |
| LipTrack.LipTrackCalculator.TrackWindow | autoflip_calculators/lip_track/lip_track_calculator.cc:255-324 | after the loop, the hit map counts each meta-face's hits, and the table is the window table; each frame is one step of the trace from an empty start |
| LipTrack.LipTrackCalculator.SignalShot | autoflip_calculators/lip_track/lip_track_calculator.cc:380-396 | always a change without a previous speaker; no decision when no previous box is stored; otherwise a change by IOU; then the debounce and the new last shot time |
| LipTrack.LipTrackCalculator.OutputSpeaker | autoflip_calculators/lip_track/lip_track_calculator.cc:366-426 | with a dominant speaker: ROI packets via RoiBox from its first box, the shot packets, and the box kept for the next window (the last one output) |
| LipTrack.LipTrackCalculator.WindowOutput | autoflip_calculators/lip_track/lip_track_calculator.cc:326-426 | the dominant speaker as hit counts, and the packets SceneOutput describes for it |
| LipTrack.LipTrackCalculator.ScenePackets | autoflip_calculators/lip_track/lip_track_calculator.cc:243-426 | the window table, trace, dominant speaker and packets of the buffered window, and the per-frame state cleared |
| LipTrack.LipTrackCalculator.ProcessScene | autoflip_calculators/lip_track/lip_track_calculator.cc:243-438 | the packets and dominant speaker follow from the window trace; next come the new speaker id, speaker box and last shot time; the buffer and per-frame state are cleared |
| LipTrack.LipTrackCalculator.Process | autoflip_calculators/lip_track/lip_track_calculator.cc:193-229 | the frame is buffered; the scene is processed exactly when the buffer spans min_speaker_span, and then the buffer empties, the window table, trace and dominant speaker are those of the buffered frames (the meta-face with the most hits), and the packets, the new speaker id, the speaker box and the last shot time are one SceneOutput step from the old carried state; otherwise nothing is output and the carried state is unchanged |
| LipTrack.LipTrackCalculator.FlushBuffer | autoflip_calculators/lip_track/lip_track_calculator.cc:233-235 | an empty buffer outputs nothing and keeps the carried state; a non-empty one is one processed window: its table, trace and dominant speaker are those of the buffered frames, and the packets, speaker id, speaker box and last shot time are one SceneOutput step |
| LipTrack.LipTrackCalculator.Close | autoflip_calculators/lip_track/lip_track_calculator.cc:231-241 | a non-empty buffer is flushed: the window table, trace and dominant speaker are those of the buffered frames, and the output is one SceneOutput step (packets, speaker id, last shot time, and the speaker box before it is cleared); then the speaker box, the histories and the ids are cleared |

## Left out

- The image copy into each frame and the visualisation output are left out: `OutputVizFrames`, `DrawLandMarksAndInfor`, `DrawBBox`, `LandmarkToPoint` (lines 539-629). They are drawing code only.
- The frame-size bookkeeping and the "No VIDEO input" error (lines 195-204) are left out: they concern the image stream, which the model does not carry.
- `GetContract`, `Open`'s options parsing and the MediaPipe packet plumbing are left out. Options arrive as a `Config.Options` value; a `hasShotStream` flag stands for whether the optional IS_SPEAKER_CHANGE output is connected.
- `GetDistance` (lines 440-444) is left out. Its square root of pixel distances is floating point, so each face mesh gives its mouth width and three lip gaps as real numbers.
- Landmark lists keep only that and their landmark count. `WellFormed` requires a non-zero mouth width for a full mesh, because a C++ float division by zero gives inf or NaN, and the model uses exact reals.
- Floats are exact reals, with no rounding.
  - The NaN of a 0/0 IOU is `None`, and every comparison with it is false.
  - A `mean_history` of 0 makes mean_short a NaN in C++; the model treats such a face as not active.
- `Detection` is reduced to its relative bounding box. Its other fields are never read.
- Integer options are `nat`.
- Timestamps are integers in one unit. `Transmit` compares `.Seconds()` of a duration with `min_shot_span`, while `Process` compares microsecond values with `min_speaker_span`; the model compares plain timestamp differences in both places.
- The `|` operator follows OpenCV 4's `Rect_` operator, which returns the other operand when one rectangle is empty. That makes GetIOU asymmetric for two empty boxes (`IouAsymmetricWhenDegenerate`).
- `statistics[cur_face_idx]` (lines 282 and 294) reads past the end when a frame has more detections than measured faces; C++ leaves that undefined. `Process` therefore requires every buffered frame to be `IsAdmissible`. A skipped frame (lines 261-262) is never measured and is admissible whatever it holds. Any other frame needs well-formed meshes (no zero mouth width, which the float division of line 461 would turn into an infinity) and at least one statistic per detection.
- `face_statistics_` is a `std::map`, so `face_statistics_[previous_face_idx]` (line 278) inserts an empty history for a missing key. `HistoryOf` returns that empty history; the insertion into the old map is not modelled, since the map is replaced at the end of the frame.
- The meta-face table and hit map are maps from `int`. The ordered iteration of line 329 is modelled as ascending ids over `0 .. count - 1`.
- The speaker candidate's meaning across frames is stated on the window trace. `WindowSpeakers` and `FramesJudgedAt` take it from a `FramesJudged` trace, and ProcessScene and TrackWindow return that trace as ghost values.
- `UnmovedFacesKeepIds` needs the frame's boxes to be pairwise distinct. Two faces with identical boxes get the same MatchFace answer and share one meta-face id, and line 288 keeps only the later face in the table slot (`DuplicateBoxesShareId`). So with duplicates, a face's id need not be the id at its own index.
- Calls across windows are stated on `ScenesChained`, a run of windows each of which is one `SceneOutput` step from the state the previous one left. Process (when it processes) and Close (for a non-empty buffer) each ensure one such step. Their ghost outputs are the window's table, trace and dominant speaker, and they carry ProcessScene's `IsWindowTable`, `FramesJudged` and `IsDominant` facts about them, so successive host calls to them form a run, to which `ScenesSignalChange` and `ScenesChangesAreSpaced` apply. No method assembles the run itself, since the host graph makes the calls.
