/** The tracker object: its live tracks and id counter, updated in place
    once per frame. */
module Tracking {
  import opened TrackerTypes
  import opened Overlap
  import opened Association
  import opened Lifecycle

  /** The overlap phase for detection d: the first unclaimed track of
      greatest IoU that is positive and at least the threshold, or -1. */
  method MatchByOverlap(tracks: seq<Track>, iouThreshold: real, d: Detection, matched: seq<bool>, W: int, H: int) returns (idx: int)
    requires |matched| == |tracks|
    ensures idx == IoUScan(IoUs(tracks, d, W, H), matched, iouThreshold, |tracks|).1
    ensures idx == -1 <==> forall j :: !IoUCandidate(IoUs(tracks, d, W, H), matched, iouThreshold, j)
    ensures idx != -1 ==> BestByIoU(IoUs(tracks, d, W, H), matched, iouThreshold, idx)
  {
    var bestIou := 0.0;
    idx := -1;
    ghost var ious := IoUs(tracks, d, W, H);
    for i := 0 to |tracks|
      invariant (bestIou, idx) == IoUScan(ious, matched, iouThreshold, i)
    {
      ghost var next := IoUScan(ious, matched, iouThreshold, i + 1);
      if matched[i] {
        assert next == (bestIou, idx);
        continue;
      }
      var iou := ComputeIoU(tracks[i], d, W, H);
      assert iou == ious[i];
      if iou > bestIou && iou >= iouThreshold {
        assert next == (iou, i);
        bestIou := iou;
        idx := i;
      } else {
        assert next == (bestIou, idx);
      }
    }
  }

  /** The proximity fallback for detection d: the first unclaimed track of
      least distance strictly below maxDist, or -1. Distances are compared
      through their squares. */
  method MatchByDistance(tracks: seq<Track>, maxDist: real, d: Detection, matched: seq<bool>) returns (idx: int)
    requires |matched| == |tracks|
    ensures idx == DistScan(SqDistances(tracks, d), matched, ThresholdSq(maxDist), |tracks|).1
    ensures idx == -1 <==> forall j :: !DistCandidate(SqDistances(tracks, d), matched, ThresholdSq(maxDist), j)
    ensures idx != -1 ==> Nearest(SqDistances(tracks, d), matched, ThresholdSq(maxDist), idx)
  {
    var bestDist := ThresholdSq(maxDist);
    idx := -1;
    ghost var sqs := SqDistances(tracks, d);
    for i := 0 to |tracks|
      invariant (bestDist, idx) == DistScan(sqs, matched, ThresholdSq(maxDist), i)
    {
      ghost var next := DistScan(sqs, matched, ThresholdSq(maxDist), i + 1);
      if matched[i] {
        assert next == (bestDist, idx);
        continue;
      }
      var dx := tracks[i].x - d.x;
      var dy := tracks[i].y - d.y;
      var dist := SqNorm(dx, dy);
      assert dist == sqs[i];
      if dist < bestDist {
        assert next == (dist, i);
        bestDist := dist;
        idx := i;
      } else {
        assert next == (bestDist, idx);
      }
    }
  }

  class Tracker {
    var nextId: int
    const maxMissing: int
    const maxDist: real
    const iouThreshold: real
    var tracks: seq<Track>

    /** The tuning parameters, fixed at construction. */
    function Settings(): Params
    {
      Params(maxMissing, maxDist, iouThreshold)
    }

    /** The tracker's state as a value. */
    function State(): Store
      reads this
    {
      Store(tracks, nextId)
    }

    ghost predicate Valid()
      reads this
    {
      WellFormed(State(), maxMissing)
    }

    constructor (maxMissing: int := 3, maxDist: real := 0.1, iouThreshold: real := 0.5)
      ensures Valid()
      ensures State() == Store([], 0)
      ensures Settings() == Params(maxMissing, maxDist, iouThreshold)
    {
      this.maxMissing := maxMissing;
      this.maxDist := maxDist;
      this.iouThreshold := iouThreshold;
      nextId := 0;
      tracks := [];
    }

    /** Every track not claimed this frame misses one more frame. */
    method AgeUnmatched(matched: seq<bool>)
      requires |matched| == |tracks|
      modifies this
      ensures tracks == Age(old(tracks), matched) && nextId == old(nextId)
    {
      ghost var before := tracks;
      for i := 0 to |tracks|
        invariant |tracks| == |before| && nextId == old(nextId)
        invariant forall j :: 0 <= j < i ==> tracks[j] == Age(before, matched)[j]
        invariant forall j :: i <= j < |tracks| ==> tracks[j] == before[j]
      {
        if !matched[i] {
          tracks := tracks[i := tracks[i].(lastSeen := tracks[i].lastSeen + 1)];
        }
      }
    }

    /** One pass of the detection loop: detection d claims the track the
        overlap phase or else the proximity fallback picks, which takes d's
        box and records its position; with no pick, d becomes a new track
        with the next id. */
    method Assign(d: Detection, matched: seq<bool>, W: int, H: int)
      returns (claimed: seq<bool>)
      requires |matched| == |tracks|
      modifies this
      ensures var r := Associate(Progress(old(tracks), matched, old(nextId), []), d, W, H, Settings());
              tracks == r.tracks && claimed == r.claimed && nextId == r.nextId
    {
      var idx := MatchByOverlap(tracks, iouThreshold, d, matched, W, H);
      if idx == -1 {
        idx := MatchByDistance(tracks, maxDist, d, matched);
      }
      assert idx == Choose(tracks, matched, d, W, H, Settings());

      if idx != -1 {
        var t := tracks[idx];
        t := t.(x := d.x, y := d.y, width := d.width, height := d.height);
        t := t.(lastSeen := 0);
        t := t.(history := t.history + [HistoryPoint(d, W, H)]);
        tracks := tracks[idx := t];
        claimed := matched[idx := true];
      } else {
        var t := Track(nextId, d.x, d.y, d.width, d.height, 0, [HistoryPoint(d, W, H)]);
        nextId := nextId + 1;
        tracks := tracks + [t];
        claimed := matched + [true];
      }
    }

    /** Associates one frame's detections with the tracks, ages and drops
        the tracks nobody claimed, and returns the tracks that are left. */
    method Update(detections: seq<Detection>, W: int, H: int) returns (result: seq<Track>)
      requires Valid()
      modifies this
      ensures State() == Step(old(State()), detections, W, H, Settings())
      ensures Valid()
      ensures result == tracks
    {
      ghost var s0 := State();
      ghost var q0 := Start(s0.tracks, s0.nextId);
      var matched: seq<bool> := seq(|tracks|, _ => false);

      for k := 0 to |detections|
        invariant var q := AssociateAll(q0, detections[..k], W, H, Settings());
                  tracks == q.tracks && matched == q.claimed && nextId == q.nextId
      {
        matched := Assign(detections[k], matched, W, H);
        AssociateAllSnoc(q0, detections, k, W, H, Settings());
      }
      assert detections[..|detections|] == detections;

      AgeUnmatched(matched);
      tracks := Survivors(tracks, maxMissing);

      StepPreservesWellFormed(s0, detections, W, H, Settings());
      result := tracks;
    }
  }
}
