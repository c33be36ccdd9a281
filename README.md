# Crop tracker: a verified model of the tracking core and the id check

This project models two parts of a multi-object crop tracker in Dafny and
proves what they promise.

**The tracker** (`src/tracker.cpp`). A `Tracker` keeps a list of live tracks and a counter for the next id. Once per frame, `update` does three things:

- It associates each detection, in input order, with an unclaimed track. It prefers the track of strictly greatest box overlap (IoU), if that overlap is positive and at least the threshold. Failing that, it takes the nearest unclaimed track whose raw (x, y) distance is below `max_dist`. Failing that, it creates a new track with the next id.
- It ages every track that nothing claimed by one missed frame.
- It erases the tracks missing for more than `max_missing` frames.

**The id check** (`tools/check_ids.py`). `check_ids` is the offline validator of the tracker's output. It groups every tracked object's centroid by id, tagging each with the frame's position in the list, and sorts each group by frame. It then reports the first consecutive pair, of the first id in key order, that is at most `max_gap` frames and more than `max_dist` apart.

Modules:

| file | module | contents |
|---|---|---|
| `tracker_types.dfy` | `TrackerTypes` | Detections, tracks, parameters, and the float-to-int truncation of history points. |
| `real_arith.dfy` | `RealArith` | Products of reals, including that comparing non-negative distances is comparing their squares. |
| `overlap.dfy` | `Overlap` | `computeIoU` on reals, with its bounds and the identical-box case. |
| `association.dfy` | `Association` | The per-detection choice (overlap scan, then distance scan) and the detection loop as a function. Each scan is characterised as "first strict maximum / minimum among the candidates". Also the one-to-one and shape lemmas. |
| `lifecycle.dfy` | `Lifecycle` | One frame as a function `Step` on the store: association, then ageing, then the erase. Includes the invariant the tracker keeps and the fate of each track. |
| `tracker.dfy` | `Tracking` | The `Tracker` class and its imperative `Update`, with the two inner scan loops. Each is proved equal to the functional model. |
| `scenarios.dfy` | `Scenarios` | Four worked frame sequences on a 640×480 canvas with the default parameters. |
| `check_ids.dfy` | `IdCheck` | The id check: trajectories, the sort, the verdict, and the imperative `CheckIds` proved against them. |

The model follows the code on these points:

- The overlap test always multiplies x, y, width and height by W and H. It has no "values above 1 are already pixels" rule.
- The overlap test reads (x, y) as the top-left corner of the box.
- The distance fallback uses the raw, unscaled x and y differences.
- A history entry is the truncated scaled (x, y) of the detection, not its centre.
- The code divides by the union without a guard. The model returns 0 when the union is zero. `Overlap.NonPositiveUnionHasNoOverlap` shows that this changes no decision.
- Two detections in one frame never share a track, because a track created in a frame is claimed for the rest of that frame. On an empty tracker, two detections therefore start two tracks however close they are (`Scenarios.TwoDetectionsTwoTracks`).

## Model

| member | source | states |
|---|---|---|
| TrackerTypes.TruncToInt | src/tracker.cpp:86 | `int(...)` of a float truncates toward zero: the result lies within one of the value, on the zero side. |
| TrackerTypes.HistoryPoint | src/tracker.cpp:86 | Defines the history point `cv::Point(int(d.x * W), int(d.y * H))` of a detection: the scaled top-left corner, each coordinate truncated toward zero. |
| Overlap.PixelRect | src/tracker.cpp:15-18 | A box scaled to the canvas has extents `width*W` and `height*H`. |
| Overlap.InterArea | src/tracker.cpp:21-27 | The intersection area, with both overlaps clamped at zero, is never negative. |
| Overlap.RectIoU | src/tracker.cpp:29-33 | Defines the score: the intersection area divided by the union area (both boxes' areas minus the intersection), and 0 when the union is zero. |
| Overlap.ComputeIoU | src/tracker.cpp:12-34 | The overlap score of a track and a detection always lies between 0 and 1. |
| Overlap.InterWithinAreas | src/tracker.cpp:21-30 | A positive intersection is no larger than either box's area. |
| Overlap.NonPositiveUnionHasNoOverlap | src/tracker.cpp:31-33 | A union that is not positive forces an empty intersection. So the unguarded division yields 0 or NaN, and neither passes `iou > best_iou`. |
| Overlap.IoUBounds | src/tracker.cpp:27-33 | Intersection over union lies in [0, 1] for any two boxes. |
| Overlap.IoUIdentical | src/tracker.cpp:12-33 | A box of positive pixel width and height has IoU exactly 1 with itself. |
| RealArith.CloserIffSquared | src/tracker.cpp:72-73 | For non-negative distances, `d1 < d2` holds exactly when `d1*d1 < d2*d2`, so comparing `sqrt` values is comparing squares. |
| Association.IoUs | src/tracker.cpp:49-54 | One overlap score per track, in store order. |
| Association.IoUScan | src/tracker.cpp:44-60 | After n tracks, the overlap loop holds the first unclaimed track of greatest IoU that is positive and at least the threshold, with that IoU. It holds (0, -1) exactly when no track among the first n qualifies. |
| Association.SqNorm | src/tracker.cpp:70-72 | The squared length of (dx, dy) is never negative. |
| Association.SqDistance | src/tracker.cpp:70-72 | The squared raw distance between a track's and a detection's (x, y) is never negative. |
| Association.SqDistances | src/tracker.cpp:66-72 | One squared distance per track, in store order. |
| Association.ThresholdSq | src/tracker.cpp:65 | The squared bound is `max_dist²` for a positive bound, and 0 (which admits nothing) otherwise. |
| Association.BelowBoundIffSquared | src/tracker.cpp:65-73 | The first distance test `dist < max_dist` holds exactly when the squared distance is below `ThresholdSq(max_dist)`. |
| Association.DistScan | src/tracker.cpp:63-78 | After n tracks, the distance loop holds the first unclaimed track of least distance strictly below the bound, with that distance. It holds (bound, -1) exactly when none qualifies. |
| Association.Choose | src/tracker.cpp:44-78 | A detection gets -1 or an unclaimed track. It gets the best-by-IoU track whenever one qualifies. Otherwise it gets the nearest track within the bound whenever one exists. Otherwise it gets -1. |
| Association.ChooseAllClaimed | src/tracker.cpp:51-68 | When every track is claimed, the detection gets no track. |
| Association.Apply | src/tracker.cpp:81-92 | Applying a choice keeps `matched` as long as the track list. |
| Association.Refresh | src/tracker.cpp:82-86 | Defines the refresh of a matched track: it takes the detection's box, `last_seen` becomes 0, and one history point is appended. The id is kept. |
| Association.Spawn | src/tracker.cpp:89 | Defines the new track for an unmatched detection: the given id, the detection's box, `last_seen` 0, and a one-point history. |
| Association.Associate | src/tracker.cpp:42-92 | One pass of the detection loop keeps `matched` as long as the track list. |
| Association.Start | src/tracker.cpp:39 | Before the first detection, `matched` has one entry per track. |
| Association.AssociateAll | src/tracker.cpp:42-93 | The detection loop keeps `matched` aligned with the track list, and the list never shrinks. |
| Association.AssociateAllSnoc | src/tracker.cpp:42-93 | The loop over k+1 detections is one more pass after the loop over k. |
| Association.ApplyKeepsShape | src/tracker.cpp:81-92 | Applying any legal choice keeps every old track either untouched or refreshed once. It keeps every new track claimed, with the next consecutive id. |
| Association.AssociateAllShape | src/tracker.cpp:39-93 | After the loop: each old track keeps its id and is untouched (if unclaimed) or refreshed (if claimed), with `last_seen` 0 and one more history entry whose earlier part is unchanged. Each new track is claimed, seen now, has one history entry, and has consecutive ids from the old `next_id`, which grew by their number. |
| Association.ApplyKeepsOneToOne | src/tracker.cpp:81-92 | Applying any legal choice keeps the per-frame assignment one-to-one. |
| Association.AssociateAllOneToOne | src/tracker.cpp:39-93 | Within a frame, the detections get pairwise distinct tracks. A track is claimed exactly when some detection got it, and each detection's track holds that detection's box and ends with its history point. |
| Lifecycle.Age | src/tracker.cpp:96-97 | Ageing keeps the number of tracks. |
| Lifecycle.Survivors | src/tracker.cpp:99-100 | The erase keeps exactly the tracks with `last_seen <= max_missing`, and never grows the list. |
| Lifecycle.Aged | src/tracker.cpp:39-97 | Defines the track list after the detection loop and the ageing loop, before the erase. |
| Lifecycle.Step | src/tracker.cpp:37-102 | Defines one call of `update` on a store: the detection loop, the ageing loop, then the erase. The new `next_id` is the one the detection loop reached. |
| Lifecycle.SurvivorsNoneStale | src/tracker.cpp:99-100 | With no stale track, the erase leaves the list as it is. |
| Lifecycle.SurvivorsKeepOrder | src/tracker.cpp:99-100 | The erase keeps the survivors in order, so a list increasing by id stays increasing. |
| Lifecycle.StepWithoutDetections | src/tracker.cpp:37-102 | A frame with no detections ages every track, erases the stale ones, and leaves `next_id` alone. |
| Lifecycle.Associated | src/tracker.cpp:39-93 | The loop on a store keeps `matched` aligned with the tracks. |
| Lifecycle.AgedFacts | src/tracker.cpp:89-97 | After association and ageing, ids are still increasing and below the new `next_id`. That id grew by the number of tracks created, and every track has `last_seen >= 0` and a non-empty history. |
| Lifecycle.StepPreservesWellFormed | src/tracker.cpp:9-100 | Each frame keeps the tracker's invariant and `next_id` never decreases. The invariant: ids strictly increasing in store order (so distinct) and below `next_id`, every `last_seen` between 0 and `max_missing`, every history non-empty. |
| Lifecycle.StepFate | src/tracker.cpp:81-100 | What a frame does to each old track. A claimed track keeps its id, is seen now, gains one history entry, and survives exactly when `max_missing >= 0`. An unclaimed track changes only by one more missed frame, survives exactly when that count is at most `max_missing`, and otherwise no track with its id is left. |
| Lifecycle.UniqueId | src/tracker.cpp:89-90 | In a list with increasing ids, an id names exactly one track. |
| Lifecycle.AgedAt | src/tracker.cpp:81-97 | After association and ageing, the old track at index i is refreshed if claimed, and otherwise unchanged but for one more missed frame. |
| Lifecycle.StepNewTracks | src/tracker.cpp:88-100 | Tracks created in a frame take the next ids in turn, start seen with one history entry, and survive unless `max_missing` is negative. `next_id` grows by their number. |
| Lifecycle.StepAssignment | src/tracker.cpp:42-93 | Each detection of a frame got its own track, distinct from every other detection's. That track holds the detection's box, has `last_seen` 0, and keeps its id if it is an old track. |
| Scenarios.CentrePoint | src/tracker.cpp:86 | The detection (0.5, 0.5) on a 640×480 canvas records history point (320, 240). |
| Scenarios.FirstDetectionStartsTrack | src/tracker.cpp:37-102 | The first detection of a new tracker becomes track 0 with a one-point history, and `next_id` becomes 1. |
| Scenarios.RepeatRefreshesTrack | src/tracker.cpp:44-87 | The same detection in the next frame overlaps track 0 completely and refreshes it: `last_seen` 0, two history points. |
| Scenarios.IdleFrame | src/tracker.cpp:96-100 | For a lone track, a frame with no detections adds one missed frame, and erases the track once that count exceeds `max_missing`. |
| Scenarios.IdleFramesEvictTrack | src/tracker.cpp:96-100 | Three empty frames age track 0 to 1, 2 and 3 missed frames and keep it. The fourth erases it, and `next_id` stays 1. |
| Scenarios.TwoDetectionsTwoTracks | src/tracker.cpp:88-91 | Two detections in the first frame become tracks 0 and 1, in input order, whatever their positions. |
| Tracking.MatchByOverlap | src/tracker.cpp:44-60 | The overlap loop returns the first unclaimed track of greatest IoU that is positive and at least the threshold. It returns -1 exactly when no track qualifies. |
| Tracking.MatchByDistance | src/tracker.cpp:62-78 | The distance loop returns the first unclaimed track of least distance strictly below `max_dist`. It returns -1 exactly when no track qualifies. |
| Tracking.Tracker.constructor | src/tracker.cpp:8-9 | A new tracker has no tracks, `next_id` 0, the given parameters, and satisfies the invariant. |
| Tracking.Tracker.AgeUnmatched | src/tracker.cpp:96-97 | The ageing loop adds one missed frame to exactly the unclaimed tracks, in place. |
| Tracking.Tracker.Assign | src/tracker.cpp:44-92 | One pass of the detection loop, done in place, is exactly `Associate` on the current tracks, `matched` and `next_id`. |
| Tracking.Tracker.Update | src/tracker.cpp:37-103 | `update` moves the tracker to `Step` of its old state, keeps the invariant, and returns the stored tracks. |
| IdCheck.SqDist | tools/check_ids.py:29-31 | The squared Euclidean distance of two centroids is never negative. |
| IdCheck.DistFacts | tools/check_ids.py:29-31 | The distance (the non-negative root of `SqDist`) is symmetric and unique. |
| IdCheck.Exceeds | tools/check_ids.py:57 | Defines the squared form of `dist_value > max_dist`: any distance exceeds a negative bound; otherwise the squared distance exceeds the squared bound. |
| IdCheck.ExceedsIffFarther | tools/check_ids.py:56-57 | `dist > max_dist` holds exactly when the squared distance passes `Exceeds`, including for a negative `max_dist`. |
| IdCheck.FrameSightings | tools/check_ids.py:46-49 | One sighting per object of the frame. |
| IdCheck.AllSightings | tools/check_ids.py:45-49 | Defines the sightings in the order the two grouping loops visit them, each tagged with its frame's position in the list. |
| IdCheck.PointsOf | tools/check_ids.py:49 | Defines an id's list: the samples of that id's sightings, in order, as the repeated `append` builds it. |
| IdCheck.FirstSeen | tools/check_ids.py:44-49 | Defines the dictionary's key order: each id once, in order of first sighting, as `setdefault` inserts keys. |
| IdCheck.Trajectory | tools/check_ids.py:44-49 | Defines `trajectory[id]` after the grouping loops. |
| IdCheck.AllSightingsMembers | tools/check_ids.py:45-49 | A sighting is in the list exactly when it is the sighting of some object of some frame, tagged with the frame's position in the list (not its `frame_id`). This is membership only; `AllSightingsLayout` states the multiplicity. |
| IdCheck.AllSightingsLength | tools/check_ids.py:45-49 | The grouping loops visit one sighting per object: the list's length is the number of objects over all frames. |
| IdCheck.AllSightingsAt | tools/check_ids.py:45-49 | The sightings of the frame at position f are the contiguous slice that begins after the objects of the earlier frames, one per object in object order. |
| IdCheck.AllSightingsLayout | tools/check_ids.py:45-49 | The loops visit the objects frame by frame and, within a frame, in object order, each exactly once. Each frame's slice begins where the previous one ends, and the slices cover the whole list. |
| IdCheck.PointsOfCount | tools/check_ids.py:49 | An id's list holds each sample exactly as many times as the id is sighted with that sample. An id listed twice in one frame at the same centroid gives two entries. |
| IdCheck.PointsOfAppend | tools/check_ids.py:45-49 | The list an id collects over two runs of sightings is its list from the first run followed by its list from the second. |
| IdCheck.FrameSightingsCount | tools/check_ids.py:46-49 | One frame adds to an id's list one entry per object of the frame that carries the id. |
| IdCheck.PointsOfMembers | tools/check_ids.py:49 | An id's list holds exactly the samples of that id's sightings. |
| IdCheck.TrajectoryMembers | tools/check_ids.py:44-49 | A (frame position, x, y) sample is in an id's trajectory exactly when some object of that frame carries the id at that centroid. This is membership only; `TrajectoryCount` states the multiplicity. |
| IdCheck.TrajectoryCount | tools/check_ids.py:44-49 | An id's trajectory has exactly one entry per appearance of the id over all frames, counted by an independent definition. It holds each sample as often as the id is sighted with it. |
| IdCheck.FirstSeenFacts | tools/check_ids.py:44-52 | The dictionary's keys, in insertion order, are distinct and are exactly the ids seen. An id never seen has no samples. |
| IdCheck.Insert | tools/check_ids.py:53 | Inserting a sample adds exactly that sample. |
| IdCheck.InsertSorted | tools/check_ids.py:53 | Inserting into a list sorted by frame keeps it sorted. |
| IdCheck.SortByFrame | tools/check_ids.py:53 | The sort yields a list sorted by frame with the same samples. |
| IdCheck.SortedFront | tools/check_ids.py:53 | A sorted list without its last sample is sorted, and inserting that sample back puts it last. |
| IdCheck.SortKeepsSorted | tools/check_ids.py:53 | The stable sort leaves a list already in frame order as it is. |
| IdCheck.AllSightingsSorted | tools/check_ids.py:45-49 | Sightings come in non-decreasing frame order, at positions inside the frame list. |
| IdCheck.PointsOfSorted | tools/check_ids.py:49-53 | Picking out one id's samples keeps frame order. |
| IdCheck.TrajectorySorted | tools/check_ids.py:44-53 | Each trajectory is built in frame order, so sorting it changes nothing. |
| IdCheck.JumpAt | tools/check_ids.py:54-57 | Defines a failing pair: samples k and k+1 exist, their frames are at most `max_gap` apart, and their distance exceeds `max_dist`. |
| IdCheck.FirstJump | tools/check_ids.py:54-57 | The scan of consecutive pairs finds the least index from which a pair is at most `max_gap` frames and more than `max_dist` apart. It returns -1 exactly when there is none. |
| IdCheck.Report | tools/check_ids.py:62-64 | Defines the failure message's content: the id, the two frames, their gap, and the squared distance in place of the formatted `dist_value`. |
| IdCheck.Verdict | tools/check_ids.py:52-64 | A reported jump names a visited id and describes that id's first jumping pair. |
| IdCheck.VerdictFirstId | tools/check_ids.py:52-64 | A reported jump belongs to the first visited id whose trajectory has a jump: every id visited before it has none. |
| IdCheck.VerdictConsistentIff | tools/check_ids.py:52-65 | Visiting the ids finds nothing exactly when none of their trajectories has a jumping pair. |
| IdCheck.VisitOrderIrrelevant | tools/check_ids.py:52-65 | Whether the check passes does not depend on the order in which ids are visited. Only which jump is reported does. |
| IdCheck.CheckResult | tools/check_ids.py:41-65 | Defines the check's result on a frame list: the verdict when the ids are visited in dictionary key order. |
| IdCheck.CheckResultIff | tools/check_ids.py:41-65 | The check passes exactly when no id has a consecutive pair within `max_gap` frames and more than `max_dist` apart. |
| IdCheck.ReportedPairIsClose | tools/check_ids.py:54-64 | A reported pair has `gap == f2 - f1`, `gap <= max_gap` and a distance above `max_dist`. So a pair more than `max_gap` frames apart never fails the check, whatever its distance and whatever pairs sit next to it. |
| IdCheck.WideGapsPass | tools/check_ids.py:57 | If every consecutive pair of every id is more than `max_gap` frames apart, the check passes, whatever the distances. |
| IdCheck.SingleSightingsPass | tools/check_ids.py:54-65 | If every id is seen at most once (an empty frame list included), the check passes. |
| IdCheck.GroupedSnoc | tools/check_ids.py:49 | `setdefault(id, []).append(p)` keeps the dictionary and its key order in step with the sightings seen so far. |
| IdCheck.FrameSightingsSnoc | tools/check_ids.py:46-49 | Visiting the next object of a frame adds exactly that object's sighting to the sightings seen so far. |
| IdCheck.GroupFrame | tools/check_ids.py:46-49 | The inner loop over one frame's objects keeps the dictionary and its key order in step with the sightings, after that frame's objects as before. |
| IdCheck.GroupById | tools/check_ids.py:44-49 | The grouping loops build, for each id, its samples in appearance order, with the ids in first-appearance order as keys. |
| IdCheck.ScanPairs | tools/check_ids.py:54-64 | The scan of one id's sorted points returns the message for its first jumping pair, or `Consistent` when it has none. |
| IdCheck.CheckIds | tools/check_ids.py:41-65 | `check_ids` returns the first jump of the first id in key order. It returns `(False, jump)` exactly when some id has a jumping pair, and `(True, Consistent)` otherwise. |

## Left out

- `Tracker::visualize` and `src/main.cpp` are not part of this model. Both are drawing, argument parsing and JSON and image I/O around `update`.
- `load_frames` and the command-line block of `check_ids.py` are not part of this model. They cover JSON loading, argument parsing, printing and exit codes. Only the function's own defaults (`max_gap = 3`, `max_dist = 0.5`) are modelled, not the command-line default of 0.15.
- Floating point: every `float` is a real. The model has no rounding, and it reads the constants `0.1f` and `0.5f` as exact decimals.
- `std::sqrt` and `math.hypot` are replaced by comparisons of squared distances. `RealArith.CloserIffSquared`, `Association.BelowBoundIffSquared` and `IdCheck.ExceedsIffFarther` show that those comparisons decide the same.
- Overlap.ComputeIoU: a zero union gives 0 instead of NaN. `Overlap.NonPositiveUnionHasNoOverlap` shows that no NaN or negative zero could have passed the `iou > best_iou` test.
- TrackerTypes.TruncToInt: an `int(...)` of a value outside the `int` range (undefined behaviour in C++) is not modelled. Conversion is exact truncation on unbounded integers.
- The `int` counters `next_id_` and `last_seen` are unbounded; their overflow after 2³¹ frames or tracks is not modelled.
- The OpenCV `cv::Point` of a history entry is an integer pair.
- Tracking.MatchByOverlap and Tracking.MatchByDistance: these are module-level methods over the track list rather than inline loops of `update`. They read the same data and change nothing.
- IdCheck.CheckIds: the failure message carries the id, the two frame positions, the gap and the squared distance as values. The formatted text (`.3f`), the debug prints and `dist_value` itself (a square root) are not modelled.
- IdCheck.SortByFrame: Python's `list.sort` (a stable sort keyed on the frame) is modelled as a stable insertion sort. The model proves it sorted, a permutation, and the identity on the already-sorted lists the check gives it. Stability on unsorted input is not stated.
- Malformed input is outside the model. In the source, a frame without `"tracked_objects"`, an object without `"id"`, `"x"` or `"y"`, or a non-numeric coordinate raises `KeyError` or `ValueError` (tools/check_ids.py:46-48). The model's frames always carry these fields with numeric values.
- Ids in the JSON are modelled as integers, centroids as reals, and each frame's objects carry only id, x and y. The width and height fields are not read by the check.
- Association.Apply, Association.Associate and Association.AssociateAll: their own contracts state only that `matched` stays aligned with the tracks. What they do to each track is stated by `AssociateAllShape`, `AssociateAllOneToOne` and the `Step` lemmas.
- History length over a track's whole life is not stated as a single lemma. `StepNewTracks` shows a new track starts with one entry. `StepFate` shows a claimed track gains exactly one entry per frame and an unclaimed track none.
