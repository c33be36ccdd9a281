/** The offline id-consistency check over a tracker's output frames: gather
    each id's centroids by frame position, then fail on the first id with two
    consecutive sightings that are close in time but far apart in space. */
module IdCheck {
  import opened RealArith

  /** One tracked object of an output frame: its id and its centroid. */
  datatype TrackedObject = TrackedObject(id: int, x: real, y: real)

  /** One output frame. The check reads its objects, never its frameId. */
  datatype Frame = Frame(frameId: int, objects: seq<TrackedObject>)

  /** A trajectory entry: the frame's position in the list, and the centroid. */
  datatype Sample = Sample(frame: int, x: real, y: real)

  /** One appearance of an id. */
  datatype Sighting = Sighting(id: int, at: Sample)

  /** The check's verdict: consistent, or the jump it reports (the id, the
      two frame positions, their gap, and the squared centroid distance). */
  datatype Message = Consistent | Jump(id: int, f1: int, f2: int, gap: int, sqDist: real)

  // ---------------------------------------------------------------------
  // Distance

  /** The squared Euclidean distance between two centroids. */
  function SqDist(a: Sample, b: Sample): (r: real)
    ensures r >= 0.0
  {
    SquareNonNeg(a.x - b.x);
    SquareNonNeg(a.y - b.y);
    (a.x - b.x) * (a.x - b.x) + (a.y - b.y) * (a.y - b.y)
  }

  /** r is the Euclidean distance of a and b: the non-negative root of the
      squared distance. */
  ghost predicate IsDist(a: Sample, b: Sample, r: real)
  {
    r >= 0.0 && r * r == SqDist(a, b)
  }

  /** The distance is symmetric and determined by its two points. */
  lemma DistFacts(a: Sample, b: Sample, r: real, r': real)
    requires IsDist(a, b, r)
    ensures IsDist(b, a, r)
    ensures IsDist(a, b, r') ==> r' == r
  {
    assert SqDist(a, b) == SqDist(b, a) by {
      assert (a.x - b.x) * (a.x - b.x) == (b.x - a.x) * (b.x - a.x);
      assert (a.y - b.y) * (a.y - b.y) == (b.y - a.y) * (b.y - a.y);
    }
    if IsDist(a, b, r') {
      CloserIffSquared(r, r');
      CloserIffSquared(r', r);
    }
  }

  /** The squared form of the test `distance > max_dist`. */
  predicate Exceeds(sq: real, maxDist: real)
  {
    maxDist < 0.0 || sq > maxDist * maxDist
  }

  /** A distance exceeds the bound exactly when its square passes Exceeds. */
  lemma ExceedsIffFarther(dist: real, sq: real, maxDist: real)
    requires 0.0 <= dist && dist * dist == sq
    ensures dist > maxDist <==> Exceeds(sq, maxDist)
  {
    if maxDist >= 0.0 {
      CloserIffSquared(maxDist, dist);
    }
  }

  // ---------------------------------------------------------------------
  // Trajectories

  /** The sighting of object o in the frame at position f. */
  function SightingOf(o: TrackedObject, f: int): Sighting
  {
    Sighting(o.id, Sample(f, o.x, o.y))
  }

  /** The sightings of one frame, in object order. */
  function FrameSightings(objs: seq<TrackedObject>, f: int): (r: seq<Sighting>)
    ensures |r| == |objs|
  {
    seq(|objs|, j requires 0 <= j < |objs| => SightingOf(objs[j], f))
  }

  /** Every sighting of every frame, in the order the grouping loops visit them. */
  function AllSightings(frames: seq<Frame>): seq<Sighting>
  {
    if |frames| == 0 then []
    else AllSightings(frames[..|frames| - 1]) + FrameSightings(frames[|frames| - 1].objects, |frames| - 1)
  }

  /** The samples of the sightings of id, in order. */
  function PointsOf(s: seq<Sighting>, id: int): seq<Sample>
  {
    if |s| == 0 then []
    else
      var rest := PointsOf(s[..|s| - 1], id);
      if s[|s| - 1].id == id then rest + [s[|s| - 1].at] else rest
  }

  /** The ids of the sightings in order of first appearance: the key order
      of the grouping dictionary. */
  function FirstSeen(s: seq<Sighting>): seq<int>
  {
    if |s| == 0 then []
    else
      var rest := FirstSeen(s[..|s| - 1]);
      if s[|s| - 1].id in rest then rest else rest + [s[|s| - 1].id]
  }

  /** The trajectory the check builds for id. */
  function Trajectory(frames: seq<Frame>, id: int): seq<Sample>
  {
    PointsOf(AllSightings(frames), id)
  }

  /** The order in which the check visits the ids. */
  function IdOrder(frames: seq<Frame>): seq<int>
  {
    FirstSeen(AllSightings(frames))
  }

  /** The sightings are exactly one per object of every frame, tagged with
      the frame's position in the list. */
  lemma {:induction false} AllSightingsMembers(frames: seq<Frame>)
    ensures forall w :: w in AllSightings(frames) <==>
              exists f, j :: 0 <= f < |frames| && 0 <= j < |frames[f].objects| &&
                             w == SightingOf(frames[f].objects[j], f)
  {
    if |frames| > 0 {
      var front, n := frames[..|frames| - 1], |frames| - 1;
      AllSightingsMembers(front);
      var last := FrameSightings(frames[n].objects, n);
      forall w | w in AllSightings(frames)
        ensures exists f, j :: 0 <= f < |frames| && 0 <= j < |frames[f].objects| &&
                               w == SightingOf(frames[f].objects[j], f)
      {
        if w in AllSightings(front) {
          var f, j :| 0 <= f < |front| && 0 <= j < |front[f].objects| && w == SightingOf(front[f].objects[j], f);
          assert frames[f] == front[f];
        } else {
          assert w in last;
          var j :| 0 <= j < |last| && last[j] == w;
          assert w == SightingOf(frames[n].objects[j], n);
        }
      }
      forall w | exists f, j :: 0 <= f < |frames| && 0 <= j < |frames[f].objects| &&
                                w == SightingOf(frames[f].objects[j], f)
        ensures w in AllSightings(frames)
      {
        var f, j :| 0 <= f < |frames| && 0 <= j < |frames[f].objects| && w == SightingOf(frames[f].objects[j], f);
        if f < n {
          assert front[f] == frames[f];
          assert w in AllSightings(front);
        } else {
          assert last[j] == w;
        }
      }
    }
  }

  /** The samples of id are those of the sightings of id. */
  lemma {:induction false} PointsOfMembers(s: seq<Sighting>, id: int)
    ensures forall p :: p in PointsOf(s, id) <==> Sighting(id, p) in s
  {
    if |s| > 0 {
      var front := s[..|s| - 1];
      PointsOfMembers(front, id);
      assert s == front + [s[|s| - 1]];
    }
  }

  /** A trajectory holds one sample per appearance of its id, at the
      frame's position in the list, and nothing else. */
  lemma TrajectoryMembers(frames: seq<Frame>, id: int)
    ensures forall p :: p in Trajectory(frames, id) <==>
              exists f, j :: 0 <= f < |frames| && 0 <= j < |frames[f].objects| &&
                             frames[f].objects[j].id == id &&
                             p == Sample(f, frames[f].objects[j].x, frames[f].objects[j].y)
  {
    PointsOfMembers(AllSightings(frames), id);
    AllSightingsMembers(frames);
  }

  /** The number of objects over all frames. */
  function ObjectCount(frames: seq<Frame>): nat
  {
    if |frames| == 0 then 0
    else ObjectCount(frames[..|frames| - 1]) + |frames[|frames| - 1].objects|
  }

  /** The number of objects in the frames before position f: where the
      sightings of that frame begin. */
  function Offset(frames: seq<Frame>, f: int): nat
    requires 0 <= f <= |frames|
  {
    ObjectCount(frames[..f])
  }

  /** The frame after position f begins right after the objects of frame f. */
  lemma OffsetNext(frames: seq<Frame>, f: int)
    requires 0 <= f < |frames|
    ensures Offset(frames, f + 1) == Offset(frames, f) + |frames[f].objects|
  {
    assert frames[..f + 1][..f] == frames[..f];
  }

  /** The sightings of the frame at position f are the slice of the
      sightings that begins at Offset(frames, f). */
  lemma {:induction false} AllSightingsAt(frames: seq<Frame>, f: int)
    requires 0 <= f < |frames|
    ensures Offset(frames, f) + |frames[f].objects| <= |AllSightings(frames)|
    ensures AllSightings(frames)[Offset(frames, f)..Offset(frames, f) + |frames[f].objects|]
            == FrameSightings(frames[f].objects, f)
  {
    var front, n := frames[..|frames| - 1], |frames| - 1;
    var all, last := AllSightings(front), FrameSightings(frames[n].objects, n);
    AllSightingsLength(front);
    assert AllSightings(frames) == all + last;
    if f < n {
      assert frames[..f] == front[..f];
      assert front[f] == frames[f];
      AllSightingsAt(front, f);
      var lo, hi := Offset(front, f), Offset(front, f) + |front[f].objects|;
      assert (all + last)[lo..hi] == all[lo..hi];
    } else {
      assert frames[..f] == front;
      assert (all + last)[|all|..] == last;
    }
  }

  /** There is one sighting per object. */
  lemma {:induction false} AllSightingsLength(frames: seq<Frame>)
    ensures |AllSightings(frames)| == ObjectCount(frames)
  {
    if |frames| > 0 {
      AllSightingsLength(frames[..|frames| - 1]);
    }
  }

  /** The sightings list the objects frame by frame, one entry each: the
      sightings of the frame at position f begin at Offset(frames, f), the
      next frame's begin right after them, and there are no other entries. */
  lemma AllSightingsLayout(frames: seq<Frame>)
    ensures |AllSightings(frames)| == ObjectCount(frames) == Offset(frames, |frames|)
    ensures forall f :: 0 <= f < |frames| ==> Offset(frames, f + 1) == Offset(frames, f) + |frames[f].objects|
    ensures forall f :: 0 <= f < |frames| ==>
              && Offset(frames, f) + |frames[f].objects| <= |AllSightings(frames)|
              && AllSightings(frames)[Offset(frames, f)..Offset(frames, f) + |frames[f].objects|]
                 == FrameSightings(frames[f].objects, f)
  {
    AllSightingsLength(frames);
    assert frames[..|frames|] == frames;
    forall f | 0 <= f < |frames|
      ensures Offset(frames, f + 1) == Offset(frames, f) + |frames[f].objects|
    {
      OffsetNext(frames, f);
    }
    forall f | 0 <= f < |frames|
      ensures && Offset(frames, f) + |frames[f].objects| <= |AllSightings(frames)|
              && AllSightings(frames)[Offset(frames, f)..Offset(frames, f) + |frames[f].objects|]
                 == FrameSightings(frames[f].objects, f)
    {
      AllSightingsAt(frames, f);
    }
  }

  /** An id's samples hold each sample exactly as often as the sightings hold
      that sample for the id. */
  lemma {:induction false} PointsOfCount(s: seq<Sighting>, id: int)
    ensures forall p :: multiset(PointsOf(s, id))[p] == multiset(s)[Sighting(id, p)]
  {
    if |s| > 0 {
      var front, last := s[..|s| - 1], s[|s| - 1];
      PointsOfCount(front, id);
      assert s == front + [last];
    }
  }

  /** The samples of the sightings a followed by b are those of a, then
      those of b. */
  lemma {:induction false} PointsOfAppend(a: seq<Sighting>, b: seq<Sighting>, id: int)
    ensures PointsOf(a + b, id) == PointsOf(a, id) + PointsOf(b, id)
  {
    if |b| > 0 {
      var front := b[..|b| - 1];
      PointsOfAppend(a, front, id);
      assert (a + b)[..|a + b| - 1] == a + front;
      assert (a + b)[|a + b| - 1] == b[|b| - 1];
    } else {
      assert a + b == a;
    }
  }

  /** How many objects of objs carry id. */
  function CountId(objs: seq<TrackedObject>, id: int): nat
  {
    if |objs| == 0 then 0
    else CountId(objs[..|objs| - 1], id) + (if objs[|objs| - 1].id == id then 1 else 0)
  }

  /** How many times id appears over all frames, an id listed twice in one
      frame counting twice. */
  function Appearances(frames: seq<Frame>, id: int): nat
  {
    if |frames| == 0 then 0
    else Appearances(frames[..|frames| - 1], id) + CountId(frames[|frames| - 1].objects, id)
  }

  /** One frame contributes one sample per object carrying id. */
  lemma {:induction false} FrameSightingsCount(objs: seq<TrackedObject>, f: int, id: int)
    ensures |PointsOf(FrameSightings(objs, f), id)| == CountId(objs, id)
  {
    if |objs| > 0 {
      FrameSightingsCount(objs[..|objs| - 1], f, id);
      assert FrameSightings(objs, f)[..|objs| - 1] == FrameSightings(objs[..|objs| - 1], f);
    }
  }

  /** A trajectory has one entry per appearance of its id, and holds each
      sample as often as the id is sighted with it. */
  lemma {:induction false} TrajectoryCount(frames: seq<Frame>, id: int)
    ensures |Trajectory(frames, id)| == Appearances(frames, id)
    ensures forall p :: multiset(Trajectory(frames, id))[p] == multiset(AllSightings(frames))[Sighting(id, p)]
  {
    PointsOfCount(AllSightings(frames), id);
    if |frames| > 0 {
      var front, n := frames[..|frames| - 1], |frames| - 1;
      TrajectoryCount(front, id);
      PointsOfAppend(AllSightings(front), FrameSightings(frames[n].objects, n), id);
      FrameSightingsCount(frames[n].objects, n, id);
    }
  }

  /** The dictionary's keys are distinct and are exactly the ids seen, and
      an id never seen has no samples. */
  lemma {:induction false} FirstSeenFacts(s: seq<Sighting>)
    ensures forall i, j :: 0 <= i < j < |FirstSeen(s)| ==> FirstSeen(s)[i] != FirstSeen(s)[j]
    ensures forall x :: x in FirstSeen(s) <==> exists i :: 0 <= i < |s| && s[i].id == x
    ensures forall x :: x !in FirstSeen(s) ==> PointsOf(s, x) == []
  {
    if |s| > 0 {
      var front := s[..|s| - 1];
      FirstSeenFacts(front);
      forall x | exists i :: 0 <= i < |s| && s[i].id == x
        ensures x in FirstSeen(s)
      {
        var i :| 0 <= i < |s| && s[i].id == x;
        if i < |s| - 1 {
          assert front[i].id == x;
        }
      }
    }
  }

  // ---------------------------------------------------------------------
  // Sorting a trajectory by frame

  predicate FramesSorted(pts: seq<Sample>)
  {
    forall i, j :: 0 <= i < j < |pts| ==> pts[i].frame <= pts[j].frame
  }

  predicate SightingsSorted(s: seq<Sighting>)
  {
    forall i, j :: 0 <= i < j < |s| ==> s[i].at.frame <= s[j].at.frame
  }

  /** p placed after every sample whose frame is at most p's: one step of a
      stable sort by frame. */
  function Insert(pts: seq<Sample>, p: Sample): (r: seq<Sample>)
    ensures multiset(r) == multiset(pts) + multiset{p}
  {
    if |pts| == 0 || pts[|pts| - 1].frame <= p.frame then pts + [p]
    else
      var front, last := pts[..|pts| - 1], pts[|pts| - 1];
      assert pts == front + [last];
      Insert(front, p) + [last]
  }

  /** Inserting into a sorted trajectory keeps it sorted. */
  lemma {:induction false} InsertSorted(pts: seq<Sample>, p: Sample)
    requires FramesSorted(pts)
    ensures FramesSorted(Insert(pts, p))
  {
    if |pts| > 0 && pts[|pts| - 1].frame > p.frame {
      var front, last := pts[..|pts| - 1], pts[|pts| - 1];
      InsertSorted(front, p);
      var r := Insert(front, p);
      forall i | 0 <= i < |r|
        ensures r[i].frame <= last.frame
      {
        assert r[i] in multiset(r);
        if r[i] != p {
          assert r[i] in multiset(front);
        }
      }
    }
  }

  /** The in-place sort by frame index, as a stable insertion sort. */
  function SortByFrame(pts: seq<Sample>): (r: seq<Sample>)
    ensures FramesSorted(r)
    ensures multiset(r) == multiset(pts)
  {
    if |pts| == 0 then []
    else
      var front := pts[..|pts| - 1];
      assert pts == front + [pts[|pts| - 1]];
      InsertSorted(SortByFrame(front), pts[|pts| - 1]);
      Insert(SortByFrame(front), pts[|pts| - 1])
  }

  /** Dropping the last sample of a sorted trajectory leaves it sorted, and
      inserting that sample back puts it at the end. */
  lemma SortedFront(pts: seq<Sample>)
    requires FramesSorted(pts) && |pts| > 0
    ensures FramesSorted(pts[..|pts| - 1])
    ensures Insert(pts[..|pts| - 1], pts[|pts| - 1]) == pts
  {
    var front, last := pts[..|pts| - 1], pts[|pts| - 1];
    assert |front| == 0 || front[|front| - 1].frame <= last.frame;
    assert front + [last] == pts;
  }

  /** Sorting a trajectory that is already in frame order changes nothing. */
  lemma {:induction false} SortKeepsSorted(pts: seq<Sample>)
    requires FramesSorted(pts)
    ensures SortByFrame(pts) == pts
  {
    if |pts| > 0 {
      var front, last := pts[..|pts| - 1], pts[|pts| - 1];
      SortedFront(pts);
      SortKeepsSorted(front);
      assert front + [last] == pts;
    }
  }

  /** The sightings come in frame order, at positions inside the list. */
  lemma {:induction false} AllSightingsSorted(frames: seq<Frame>)
    ensures SightingsSorted(AllSightings(frames))
    ensures forall i :: 0 <= i < |AllSightings(frames)| ==> 0 <= AllSightings(frames)[i].at.frame < |frames|
  {
    if |frames| > 0 {
      AllSightingsSorted(frames[..|frames| - 1]);
    }
  }

  /** Picking out one id's samples keeps frame order. */
  lemma {:induction false} PointsOfSorted(s: seq<Sighting>, id: int)
    requires SightingsSorted(s)
    ensures FramesSorted(PointsOf(s, id))
  {
    if |s| > 0 {
      var front, last := s[..|s| - 1], s[|s| - 1];
      PointsOfSorted(front, id);
      PointsOfMembers(front, id);
      var rest := PointsOf(front, id);
      forall i | 0 <= i < |rest|
        ensures rest[i].frame <= last.at.frame
      {
        assert Sighting(id, rest[i]) in front;
      }
    }
  }

  /** Each trajectory is built in frame order, so the sort leaves it as it is. */
  lemma TrajectorySorted(frames: seq<Frame>, id: int)
    ensures FramesSorted(Trajectory(frames, id))
    ensures SortByFrame(Trajectory(frames, id)) == Trajectory(frames, id)
  {
    AllSightingsSorted(frames);
    PointsOfSorted(AllSightings(frames), id);
    SortKeepsSorted(Trajectory(frames, id));
  }

  // ---------------------------------------------------------------------
  // The verdict

  /** Consecutive samples k and k + 1 are at most maxGap frames apart and
      their centroids more than maxDist apart. */
  predicate JumpAt(pts: seq<Sample>, k: int, maxGap: int, maxDist: real)
  {
    && 0 <= k && k + 1 < |pts|
    && pts[k + 1].frame - pts[k].frame <= maxGap
    && Exceeds(SqDist(pts[k], pts[k + 1]), maxDist)
  }

  /** The first jump at index from or later, or -1. */
  function FirstJump(pts: seq<Sample>, from: nat, maxGap: int, maxDist: real): (r: int)
    ensures r == -1 <==> forall k :: from <= k ==> !JumpAt(pts, k, maxGap, maxDist)
    ensures r != -1 ==> from <= r && JumpAt(pts, r, maxGap, maxDist)
    ensures r != -1 ==> forall k :: from <= k < r ==> !JumpAt(pts, k, maxGap, maxDist)
    decreases |pts| - from
  {
    if from + 1 >= |pts| then -1
    else if JumpAt(pts, from, maxGap, maxDist) then from
    else FirstJump(pts, from + 1, maxGap, maxDist)
  }

  /** The message for the jump between samples k and k + 1 of id. */
  function Report(id: int, pts: seq<Sample>, k: int): Message
    requires 0 <= k && k + 1 < |pts|
  {
    Jump(id, pts[k].frame, pts[k + 1].frame, pts[k + 1].frame - pts[k].frame, SqDist(pts[k], pts[k + 1]))
  }

  /** The verdict when the ids are visited in the order ids: the first jump
      of the first id that has one. */
  function Verdict(frames: seq<Frame>, ids: seq<int>, maxGap: int, maxDist: real): (m: Message)
    ensures m.Jump? ==> m.id in ids
    ensures m.Jump? ==> var pts, k := Trajectory(frames, m.id), FirstJump(Trajectory(frames, m.id), 0, maxGap, maxDist);
                        k != -1 && m == Report(m.id, pts, k)
  {
    if |ids| == 0 then Consistent
    else
      var pts := Trajectory(frames, ids[0]);
      var k := FirstJump(pts, 0, maxGap, maxDist);
      if k != -1 then Report(ids[0], pts, k) else Verdict(frames, ids[1..], maxGap, maxDist)
  }

  /** A reported jump belongs to the first id, in visiting order, whose
      trajectory has a jump: every id visited before it has none. */
  lemma {:induction false} VerdictFirstId(frames: seq<Frame>, ids: seq<int>, maxGap: int, maxDist: real)
    ensures var m := Verdict(frames, ids, maxGap, maxDist);
            m.Jump? ==> exists i :: 0 <= i < |ids| && ids[i] == m.id &&
                          forall i' :: 0 <= i' < i ==> FirstJump(Trajectory(frames, ids[i']), 0, maxGap, maxDist) == -1
  {
    var m := Verdict(frames, ids, maxGap, maxDist);
    if |ids| > 0 && m.Jump? {
      if FirstJump(Trajectory(frames, ids[0]), 0, maxGap, maxDist) != -1 {
        assert ids[0] == m.id;
      } else {
        VerdictFirstId(frames, ids[1..], maxGap, maxDist);
        var i :| 0 <= i < |ids[1..]| && ids[1..][i] == m.id &&
                 forall i' :: 0 <= i' < i ==> FirstJump(Trajectory(frames, ids[1..][i']), 0, maxGap, maxDist) == -1;
        assert ids[i + 1] == m.id;
        forall i' | 0 <= i' < i + 1
          ensures FirstJump(Trajectory(frames, ids[i']), 0, maxGap, maxDist) == -1
        {
          if i' > 0 {
            assert ids[i'] == ids[1..][i' - 1];
          }
        }
      }
    }
  }

  /** Visiting ids finds nothing exactly when none of their trajectories has
      a jump. */
  lemma {:induction false} VerdictConsistentIff(frames: seq<Frame>, ids: seq<int>, maxGap: int, maxDist: real)
    ensures Verdict(frames, ids, maxGap, maxDist) == Consistent <==>
            forall id, k :: id in ids ==> !JumpAt(Trajectory(frames, id), k, maxGap, maxDist)
  {
    if |ids| > 0 {
      VerdictConsistentIff(frames, ids[1..], maxGap, maxDist);
      assert forall id :: id in ids <==> id == ids[0] || id in ids[1..];
    }
  }

  /** Whether the check passes does not depend on the order in which the ids
      are visited; only which jump is reported does. */
  lemma VisitOrderIrrelevant(frames: seq<Frame>, ids1: seq<int>, ids2: seq<int>, maxGap: int, maxDist: real)
    requires forall id :: id in ids1 <==> id in ids2
    ensures Verdict(frames, ids1, maxGap, maxDist) == Consistent <==>
            Verdict(frames, ids2, maxGap, maxDist) == Consistent
  {
    VerdictConsistentIff(frames, ids1, maxGap, maxDist);
    VerdictConsistentIff(frames, ids2, maxGap, maxDist);
  }

  /** The check's verdict on frames. */
  function CheckResult(frames: seq<Frame>, maxGap: int, maxDist: real): Message
  {
    Verdict(frames, IdOrder(frames), maxGap, maxDist)
  }

  /** The check passes exactly when no id, seen or not, has a trajectory
      with a jump. */
  lemma CheckResultIff(frames: seq<Frame>, maxGap: int, maxDist: real)
    ensures CheckResult(frames, maxGap, maxDist) == Consistent <==>
            forall id, k :: !JumpAt(Trajectory(frames, id), k, maxGap, maxDist)
  {
    VerdictConsistentIff(frames, IdOrder(frames), maxGap, maxDist);
    FirstSeenFacts(AllSightings(frames));
  }

  /** Every consecutive pair of pts is more than maxGap frames apart. */
  predicate WideGaps(pts: seq<Sample>, maxGap: int)
  {
    forall k :: 0 <= k && k + 1 < |pts| ==> pts[k + 1].frame - pts[k].frame > maxGap
  }

  /** A reported pair is never more than maxGap frames apart, and its
      distance exceeds maxDist: a wide pair never fails the check, whatever
      its distance and whatever its neighbours. */
  lemma ReportedPairIsClose(frames: seq<Frame>, maxGap: int, maxDist: real)
    ensures var m := CheckResult(frames, maxGap, maxDist);
            m.Jump? ==> m.f2 - m.f1 == m.gap && m.gap <= maxGap && Exceeds(m.sqDist, maxDist)
  {
  }

  /** If every consecutive pair of every id is wider than maxGap, the check
      passes. */
  lemma WideGapsPass(frames: seq<Frame>, maxGap: int, maxDist: real)
    requires forall id :: WideGaps(Trajectory(frames, id), maxGap)
    ensures CheckResult(frames, maxGap, maxDist) == Consistent
  {
    CheckResultIff(frames, maxGap, maxDist);
  }

  /** Ids seen at most once, as in an empty frame list, pass the check. */
  lemma SingleSightingsPass(frames: seq<Frame>, maxGap: int, maxDist: real)
    requires forall id :: |Trajectory(frames, id)| <= 1
    ensures CheckResult(frames, maxGap, maxDist) == Consistent
  {
    CheckResultIff(frames, maxGap, maxDist);
  }

  // ---------------------------------------------------------------------
  // The check

  /** The grouping dictionary after the sightings s: its keys in insertion
      order are order, and each key maps to that id's samples. */
  ghost predicate Grouped(s: seq<Sighting>, trajectory: map<int, seq<Sample>>, order: seq<int>)
  {
    && order == FirstSeen(s)
    && (forall id :: id in trajectory <==> id in order)
    && (forall id :: id in trajectory ==> trajectory[id] == PointsOf(s, id))
  }

  /** Appending one sighting to its id's list (creating the list when the id
      is new) keeps the dictionary in step with the sightings. */
  lemma GroupedSnoc(s: seq<Sighting>, trajectory: map<int, seq<Sample>>, order: seq<int>, w: Sighting)
    requires Grouped(s, trajectory, order)
    ensures var pts := if w.id in trajectory then trajectory[w.id] else [];
            Grouped(s + [w], trajectory[w.id := pts + [w.at]],
                    if w.id in trajectory then order else order + [w.id])
  {
    FirstSeenFacts(s);
    assert (s + [w])[..|s|] == s;
  }

  /** Visiting object j of a frame extends the sightings by its own. */
  lemma FrameSightingsSnoc(seen: seq<Sighting>, objs: seq<TrackedObject>, j: int, f: int)
    requires 0 <= j < |objs|
    ensures seen + FrameSightings(objs[..j + 1], f) == seen + FrameSightings(objs[..j], f) + [SightingOf(objs[j], f)]
  {
    assert FrameSightings(objs[..j + 1], f) == FrameSightings(objs[..j], f) + [SightingOf(objs[j], f)];
  }

  /** The inner grouping loop over the objects of the frame at position f:
      each object appends its centroid to its id's list, which is created
      (and its id added to the key order) on the id's first appearance. */
  method GroupFrame(objs: seq<TrackedObject>, f: int, trajectory0: map<int, seq<Sample>>, order0: seq<int>,
                    ghost seen: seq<Sighting>)
    returns (trajectory: map<int, seq<Sample>>, order: seq<int>)
    requires Grouped(seen, trajectory0, order0)
    ensures Grouped(seen + FrameSightings(objs, f), trajectory, order)
  {
    trajectory, order := trajectory0, order0;
    ghost var cur := seen;
    for j := 0 to |objs|
      invariant cur == seen + FrameSightings(objs[..j], f)
      invariant Grouped(cur, trajectory, order)
    {
      var obj := objs[j];
      var p := Sample(f, obj.x, obj.y);
      var pts := if obj.id in trajectory then trajectory[obj.id] else [];
      GroupedSnoc(cur, trajectory, order, Sighting(obj.id, p));
      if obj.id !in trajectory {
        order := order + [obj.id];
      }
      trajectory := trajectory[obj.id := pts + [p]];
      FrameSightingsSnoc(seen, objs, j, f);
      cur := cur + [SightingOf(obj, f)];
    }
    assert objs[..|objs|] == objs;
  }

  /** The grouping loops: every object of every frame, frame by frame, goes
      through GroupFrame. */
  method GroupById(frames: seq<Frame>) returns (trajectory: map<int, seq<Sample>>, order: seq<int>)
    ensures Grouped(AllSightings(frames), trajectory, order)
  {
    trajectory := map[];
    order := [];
    for f := 0 to |frames|
      invariant Grouped(AllSightings(frames[..f]), trajectory, order)
    {
      trajectory, order := GroupFrame(frames[f].objects, f, trajectory, order, AllSightings(frames[..f]));
      assert frames[..f + 1][..f] == frames[..f];
    }
    assert frames[..|frames|] == frames;
  }

  /** The scan of one id's sorted points: the message for its first
      consecutive pair at most maxGap frames and more than maxDist apart,
      or Consistent when it has none. */
  method ScanPairs(id: int, points: seq<Sample>, maxGap: int, maxDist: real) returns (msg: Message)
    ensures var k := FirstJump(points, 0, maxGap, maxDist);
            msg == if k == -1 then Consistent else Report(id, points, k)
  {
    var k := 0;
    while k + 1 < |points|
      invariant 0 <= k
      invariant FirstJump(points, 0, maxGap, maxDist) == FirstJump(points, k, maxGap, maxDist)
      decreases |points| - k
    {
      var a, b := points[k], points[k + 1];
      var gap := b.frame - a.frame;
      var sq := SqDist(a, b);
      if gap <= maxGap && Exceeds(sq, maxDist) {
        return Jump(id, a.frame, b.frame, gap, sq);
      }
      k := k + 1;
    }
    return Consistent;
  }

  /** Groups the sightings of each id by frame position, sorts each group by
      frame, and reports the first consecutive pair of some id, in key
      order, that is at most maxGap frames apart and more than maxDist
      apart. */
  method CheckIds(frames: seq<Frame>, maxGap: int := 3, maxDist: real := 0.5) returns (ok: bool, msg: Message)
    ensures msg == CheckResult(frames, maxGap, maxDist)
    ensures ok <==> msg == Consistent
    ensures ok <==> forall id, k :: !JumpAt(Trajectory(frames, id), k, maxGap, maxDist)
  {
    var trajectory, order := GroupById(frames);
    CheckResultIff(frames, maxGap, maxDist);

    for m := 0 to |order|
      invariant CheckResult(frames, maxGap, maxDist) == Verdict(frames, order[m..], maxGap, maxDist)
    {
      var id := order[m];
      TrajectorySorted(frames, id);
      var points := SortByFrame(trajectory[id]);
      msg := ScanPairs(id, points, maxGap, maxDist);
      if msg != Consistent {
        return false, msg;
      }
      assert order[m..][1..] == order[m + 1..];
    }
    return true, Consistent;
  }
}
