/** Worked frames on a 640 by 480 canvas with the default parameters: one
    object appearing, being seen again, going missing until it is dropped,
    and two objects appearing together. */
module Scenarios {
  import opened TrackerTypes
  import opened Overlap
  import opened Association
  import opened Lifecycle

  const Width := 640
  const Height := 480

  /** A small box at the centre of the canvas, seen frame after frame. */
  const Centre := Detection(0.5, 0.5, 0.1, 0.1)

  /** The track Centre starts, seen at pixel (320, 240). */
  const First := Track(0, 0.5, 0.5, 0.1, 0.1, 0, [Point(320, 240)])

  lemma CentrePoint()
    ensures HistoryPoint(Centre, Width, Height) == Point(320, 240)
  {
    assert Centre.x * Width as real == 320.0;
    assert Centre.y * Height as real == 240.0;
  }

  /** The first detection of an empty tracker becomes track 0
      with a one-point history, and the next id is 1. */
  lemma FirstDetectionStartsTrack()
    ensures Step(Store([], 0), [Centre], Width, Height, DefaultParams) == Store([First], 1)
  {
    CentrePoint();
    var q0 := Start([], 0);
    ChooseAllClaimed(q0.tracks, q0.claimed, Centre, Width, Height, DefaultParams);
    assert Associate(q0, Centre, Width, Height, DefaultParams) == Progress([First], [true], 1, [0]);
    AssociateAllSnoc(q0, [Centre], 0, Width, Height, DefaultParams);
    assert [Centre][..1] == [Centre] && [Centre][..0] == [];
    assert Associated(Store([], 0), [Centre], Width, Height, DefaultParams) == Progress([First], [true], 1, [0]);
    assert Aged(Store([], 0), [Centre], Width, Height, DefaultParams) == [First];
  }

  /** The same detection in the next frame overlaps track 0
      completely, so track 0 is refreshed: seen now, two history points. */
  lemma RepeatRefreshesTrack()
    ensures Step(Store([First], 1), [Centre], Width, Height, DefaultParams)
            == Store([First.(history := [Point(320, 240), Point(320, 240)])], 1)
  {
    var t := First.(history := [Point(320, 240), Point(320, 240)]);
    CentrePoint();
    IoUIdentical(First, Centre, Width, Height);
    var q0 := Start([First], 1);
    assert q0.claimed == [false];
    var ious := IoUs([First], Centre, Width, Height);
    assert ious == [1.0];
    assert IoUScan(ious, [false], 0.5, 1).1 == 0;
    assert Choose(q0.tracks, q0.claimed, Centre, Width, Height, DefaultParams) == 0;
    assert Refresh(First, Centre, Width, Height) == t;
    assert Associate(q0, Centre, Width, Height, DefaultParams) == Progress([t], [true], 1, [0]);
    AssociateAllSnoc(q0, [Centre], 0, Width, Height, DefaultParams);
    assert [Centre][..1] == [Centre] && [Centre][..0] == [];
    assert Associated(Store([First], 1), [Centre], Width, Height, DefaultParams) == Progress([t], [true], 1, [0]);
    assert Aged(Store([First], 1), [Centre], Width, Height, DefaultParams) == [t];
  }

  /** One frame without detections for a lone track missing for n frames:
      it misses one more, and is dropped once that exceeds maxMissing. */
  lemma IdleFrame(t: Track, n: int, p: Params)
    ensures Step(Store([t.(lastSeen := n)], 1), [], Width, Height, p)
            == Store(if n + 1 <= p.maxMissing then [t.(lastSeen := n + 1)] else [], 1)
  {
    StepWithoutDetections(Store([t.(lastSeen := n)], 1), Width, Height, p);
    assert Age([t.(lastSeen := n)], [false]) == [t.(lastSeen := n + 1)];
    assert [t.(lastSeen := n + 1)][..0] == [];
  }

  /** After the refresh above, frames with no detections age track 0
      to 1, 2 and 3 missed frames, and the fourth drops it; the next id
      stays 1. */
  lemma IdleFramesEvictTrack()
    ensures var t := First.(history := [Point(320, 240), Point(320, 240)]);
            var s3 := Step(Store([t], 1), [], Width, Height, DefaultParams);
            var s4 := Step(s3, [], Width, Height, DefaultParams);
            var s5 := Step(s4, [], Width, Height, DefaultParams);
            var s6 := Step(s5, [], Width, Height, DefaultParams);
            && s3 == Store([t.(lastSeen := 1)], 1)
            && s4 == Store([t.(lastSeen := 2)], 1)
            && s5 == Store([t.(lastSeen := 3)], 1)
            && s6 == Store([], 1)
  {
    var t := First.(history := [Point(320, 240), Point(320, 240)]);
    assert t == t.(lastSeen := 0);
    IdleFrame(t, 0, DefaultParams);
    var s3 := Step(Store([t], 1), [], Width, Height, DefaultParams);
    assert s3 == Store([t.(lastSeen := 1)], 1);
    IdleFrame(t, 1, DefaultParams);
    var s4 := Step(s3, [], Width, Height, DefaultParams);
    assert s4 == Store([t.(lastSeen := 2)], 1);
    IdleFrame(t, 2, DefaultParams);
    var s5 := Step(s4, [], Width, Height, DefaultParams);
    assert s5 == Store([t.(lastSeen := 3)], 1);
    IdleFrame(t, 3, DefaultParams);
  }

  /** Two detections in the first frame become tracks 0 and 1,
      in input order. The second cannot claim the track the first created,
      since a track created in a frame is already claimed for the rest of
      that frame, whatever the distance between the two. */
  lemma TwoDetectionsTwoTracks(d1: Detection, d2: Detection)
    ensures Step(Store([], 0), [d1, d2], Width, Height, DefaultParams)
            == Store([Spawn(0, d1, Width, Height), Spawn(1, d2, Width, Height)], 2)
  {
    var p := DefaultParams;
    var t1, t2 := Spawn(0, d1, Width, Height), Spawn(1, d2, Width, Height);
    var q0 := Start([], 0);
    ChooseAllClaimed(q0.tracks, q0.claimed, d1, Width, Height, p);
    var q1 := Associate(q0, d1, Width, Height, p);
    assert q1 == Progress([t1], [true], 1, [0]);
    ChooseAllClaimed(q1.tracks, q1.claimed, d2, Width, Height, p);
    var q2 := Associate(q1, d2, Width, Height, p);
    assert q2 == Progress([t1, t2], [true, true], 2, [0, 1]);
    AssociateAllSnoc(q0, [d1, d2], 0, Width, Height, p);
    AssociateAllSnoc(q0, [d1, d2], 1, Width, Height, p);
    assert [d1, d2][..2] == [d1, d2] && [d1, d2][..0] == [];
    assert Associated(Store([], 0), [d1, d2], Width, Height, p) == q2;
    assert Aged(Store([], 0), [d1, d2], Width, Height, p) == [t1, t2];
    SurvivorsNoneStale([t1, t2], p.maxMissing);
  }
}
