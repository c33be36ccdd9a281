/** The greedy per-frame association of detections to tracks: for each
    detection in input order, the best unclaimed track by overlap, else the
    nearest unclaimed track within the distance bound, else a new track. */
module Association {
  import opened TrackerTypes
  import opened Overlap
  import opened RealArith

  // ---------------------------------------------------------------------
  // Overlap phase

  /** The overlap of detection d with every track, in store order. */
  function IoUs(ts: seq<Track>, d: Detection, W: int, H: int): (r: seq<real>)
    ensures |r| == |ts|
  {
    seq(|ts|, i requires 0 <= i < |ts| => ComputeIoU(ts[i], d, W, H))
  }

  /** Track i is unclaimed and its overlap passes both tests of the overlap
      loop: above the running best (which starts at zero) and at least the
      threshold. */
  predicate IoUCandidate(ious: seq<real>, claimed: seq<bool>, thr: real, i: int)
    requires |claimed| == |ious|
  {
    0 <= i < |ious| && !claimed[i] && ious[i] > 0.0 && ious[i] >= thr
  }

  /** Track i is the first candidate, in store order, of greatest overlap. */
  ghost predicate BestByIoU(ious: seq<real>, claimed: seq<bool>, thr: real, i: int)
    requires |claimed| == |ious|
  {
    && IoUCandidate(ious, claimed, thr, i)
    && (forall j :: IoUCandidate(ious, claimed, thr, j) ==> ious[j] <= ious[i])
    && (forall j :: 0 <= j < i && IoUCandidate(ious, claimed, thr, j) ==> ious[j] < ious[i])
  }

  /** The overlap loop after it has looked at the first n tracks: the best
      overlap so far and its index, or (0, -1) when nothing qualified. */
  function IoUScan(ious: seq<real>, claimed: seq<bool>, thr: real, n: nat): (r: (real, int))
    requires |claimed| == |ious| && n <= |ious|
    ensures r.1 == -1 <==> forall j :: 0 <= j < n ==> !IoUCandidate(ious, claimed, thr, j)
    ensures r.1 == -1 ==> r.0 == 0.0
    ensures r.1 != -1 ==> 0 <= r.1 < n && IoUCandidate(ious, claimed, thr, r.1) && r.0 == ious[r.1]
    ensures forall j :: 0 <= j < n && IoUCandidate(ious, claimed, thr, j) ==> ious[j] <= r.0
    ensures forall j :: 0 <= j < r.1 && IoUCandidate(ious, claimed, thr, j) ==> ious[j] < r.0
  {
    if n == 0 then (0.0, -1)
    else
      var prev := IoUScan(ious, claimed, thr, n - 1);
      var iou := ious[n - 1];
      if !claimed[n - 1] && iou > prev.0 && iou >= thr then
        assert IoUCandidate(ious, claimed, thr, n - 1);
        (iou, n - 1)
      else
        prev
  }

  // ---------------------------------------------------------------------
  // Distance fallback

  /** The squared length of the vector (dx, dy). */
  function SqNorm(dx: real, dy: real): (r: real)
    ensures r >= 0.0
  {
    SquareNonNeg(dx);
    SquareNonNeg(dy);
    dx * dx + dy * dy
  }

  /** Squared distance between the raw (unscaled) x, y of a track and a detection. */
  function SqDistance(t: Track, d: Detection): (r: real)
    ensures r >= 0.0
  {
    SqNorm(t.x - d.x, t.y - d.y)
  }

  /** The squared distance of detection d to every track, in store order. */
  function SqDistances(ts: seq<Track>, d: Detection): (r: seq<real>)
    ensures |r| == |ts|
  {
    seq(|ts|, i requires 0 <= i < |ts| => SqDistance(ts[i], d))
  }

  /** The square of the distance bound; no distance is below a bound that is
      not positive. */
  function ThresholdSq(maxDist: real): (r: real)
    ensures r >= 0.0
    ensures maxDist > 0.0 ==> r == maxDist * maxDist
  {
    if maxDist > 0.0 then maxDist * maxDist else 0.0
  }

  /** The fallback's first test, a distance below the bound, is the squared
      distance below ThresholdSq of the bound. */
  lemma BelowBoundIffSquared(dist: real, sq: real, maxDist: real)
    requires 0.0 <= dist && dist * dist == sq
    ensures dist < maxDist <==> sq < ThresholdSq(maxDist)
  {
    if maxDist > 0.0 {
      CloserIffSquared(dist, maxDist);
    } else {
      MulNonNeg(dist, dist);
    }
  }

  /** Track i is unclaimed and strictly inside the (squared) bound. */
  predicate DistCandidate(sqs: seq<real>, claimed: seq<bool>, bound: real, i: int)
    requires |claimed| == |sqs|
  {
    0 <= i < |sqs| && !claimed[i] && sqs[i] < bound
  }

  /** Track i is the first candidate, in store order, of least distance. */
  ghost predicate Nearest(sqs: seq<real>, claimed: seq<bool>, bound: real, i: int)
    requires |claimed| == |sqs|
  {
    && DistCandidate(sqs, claimed, bound, i)
    && (forall j :: DistCandidate(sqs, claimed, bound, j) ==> sqs[i] <= sqs[j])
    && (forall j :: 0 <= j < i && DistCandidate(sqs, claimed, bound, j) ==> sqs[i] < sqs[j])
  }

  /** The distance loop after it has looked at the first n tracks: the least
      squared distance so far and its index, or (bound, -1). */
  function DistScan(sqs: seq<real>, claimed: seq<bool>, bound: real, n: nat): (r: (real, int))
    requires |claimed| == |sqs| && n <= |sqs|
    ensures r.1 == -1 <==> forall j :: 0 <= j < n ==> !DistCandidate(sqs, claimed, bound, j)
    ensures r.1 == -1 ==> r.0 == bound
    ensures r.1 != -1 ==> 0 <= r.1 < n && DistCandidate(sqs, claimed, bound, r.1) && r.0 == sqs[r.1]
    ensures forall j :: 0 <= j < n && DistCandidate(sqs, claimed, bound, j) ==> r.0 <= sqs[j]
    ensures forall j :: 0 <= j < r.1 && DistCandidate(sqs, claimed, bound, j) ==> r.0 < sqs[j]
  {
    if n == 0 then (bound, -1)
    else
      var prev := DistScan(sqs, claimed, bound, n - 1);
      var sq := sqs[n - 1];
      if !claimed[n - 1] && sq < prev.0 then
        assert DistCandidate(sqs, claimed, bound, n - 1);
        (sq, n - 1)
      else
        prev
  }

  // ---------------------------------------------------------------------
  // One detection

  /** The track a detection claims, or -1 when it starts a new track: the
      best overlap when one qualifies, otherwise the nearest track within
      the bound, otherwise none. */
  function Choose(ts: seq<Track>, claimed: seq<bool>, d: Detection, W: int, H: int, p: Params): (r: int)
    requires |claimed| == |ts|
    ensures r == -1 || (0 <= r < |ts| && !claimed[r])
    ensures var ious := IoUs(ts, d, W, H);
            (exists j :: IoUCandidate(ious, claimed, p.iouThreshold, j)) ==>
              BestByIoU(ious, claimed, p.iouThreshold, r)
    ensures var ious, sqs := IoUs(ts, d, W, H), SqDistances(ts, d);
            (forall j :: !IoUCandidate(ious, claimed, p.iouThreshold, j)) &&
            (exists j :: DistCandidate(sqs, claimed, ThresholdSq(p.maxDist), j)) ==>
              Nearest(sqs, claimed, ThresholdSq(p.maxDist), r)
    ensures var ious, sqs := IoUs(ts, d, W, H), SqDistances(ts, d);
            (forall j :: !IoUCandidate(ious, claimed, p.iouThreshold, j)) &&
            (forall j :: !DistCandidate(sqs, claimed, ThresholdSq(p.maxDist), j)) ==>
              r == -1
  {
    var byOverlap := IoUScan(IoUs(ts, d, W, H), claimed, p.iouThreshold, |ts|).1;
    if byOverlap != -1 then byOverlap
    else DistScan(SqDistances(ts, d), claimed, ThresholdSq(p.maxDist), |ts|).1
  }

  /** A detection that finds every track claimed gets none of them, so it
      starts a new track. */
  lemma ChooseAllClaimed(ts: seq<Track>, claimed: seq<bool>, d: Detection, W: int, H: int, p: Params)
    requires |claimed| == |ts| && forall i :: 0 <= i < |claimed| ==> claimed[i]
    ensures Choose(ts, claimed, d, W, H, p) == -1
  {
  }

  /** The state of the association loop: the tracks, which of them are
      claimed this frame, the next id, and the index each detection so far
      was given (a matched track, or the track it created). */
  datatype Progress = Progress(tracks: seq<Track>, claimed: seq<bool>, nextId: int, taken: seq<int>)

  predicate Aligned(q: Progress) { |q.claimed| == |q.tracks| }

  /** A matched track takes the detection's box, is seen now, and records
      the detection's position. */
  function Refresh(t: Track, d: Detection, W: int, H: int): Track
  {
    t.(x := d.x, y := d.y, width := d.width, height := d.height,
       lastSeen := 0, history := t.history + [HistoryPoint(d, W, H)])
  }

  /** A new track for an unmatched detection. */
  function Spawn(id: int, d: Detection, W: int, H: int): Track
  {
    Track(id, d.x, d.y, d.width, d.height, 0, [HistoryPoint(d, W, H)])
  }

  /** i is a choice the detection loop can make on q: no track, or an
      unclaimed one. */
  predicate Choosable(q: Progress, i: int)
  {
    i == -1 || (0 <= i < |q.tracks| && i < |q.claimed| && !q.claimed[i])
  }

  /** Detection d given track i (refresh it and claim it), or given no track
      when i is -1 (append a new claimed track with the next id). */
  function Apply(q: Progress, d: Detection, i: int, W: int, H: int): (r: Progress)
    requires Aligned(q) && Choosable(q, i)
    ensures Aligned(r)
  {
    if i != -1 then
      Progress(q.tracks[i := Refresh(q.tracks[i], d, W, H)], q.claimed[i := true], q.nextId, q.taken + [i])
    else
      Progress(q.tracks + [Spawn(q.nextId, d, W, H)], q.claimed + [true], q.nextId + 1, q.taken + [|q.tracks|])
  }

  /** One pass of the detection loop. */
  function Associate(q: Progress, d: Detection, W: int, H: int, p: Params): (r: Progress)
    requires Aligned(q)
    ensures Aligned(r)
  {
    Apply(q, d, Choose(q.tracks, q.claimed, d, W, H, p), W, H)
  }

  /** Before the first detection: nothing claimed. */
  function Start(ts: seq<Track>, nextId: int): (r: Progress)
    ensures Aligned(r)
  {
    Progress(ts, seq(|ts|, _ => false), nextId, [])
  }

  /** The detection loop over the detections, in order. */
  function AssociateAll(q: Progress, dets: seq<Detection>, W: int, H: int, p: Params): (r: Progress)
    requires Aligned(q)
    ensures Aligned(r)
    ensures |r.tracks| >= |q.tracks|
  {
    if |dets| == 0 then q
    else Associate(AssociateAll(q, dets[..|dets| - 1], W, H, p), dets[|dets| - 1], W, H, p)
  }

  /** The loop over the first k + 1 detections is one more pass after the
      loop over the first k. */
  lemma AssociateAllSnoc(q: Progress, dets: seq<Detection>, k: int, W: int, H: int, p: Params)
    requires Aligned(q) && 0 <= k < |dets|
    ensures AssociateAll(q, dets[..k + 1], W, H, p)
            == Associate(AssociateAll(q, dets[..k], W, H, p), dets[k], W, H, p)
  {
    assert dets[..k + 1][..k] == dets[..k];
  }

  // ---------------------------------------------------------------------
  // What the loop does to each track

  /** t is `before` after a match: same id, seen now, one more history entry. */
  predicate Refreshed(before: Track, t: Track)
  {
    && t.id == before.id && t.lastSeen == 0
    && |t.history| == |before.history| + 1 && t.history[..|before.history|] == before.history
  }

  /** t was created with the given id this frame. */
  predicate Spawned(t: Track, id: int)
  {
    t.id == id && t.lastSeen == 0 && |t.history| == 1
  }

  /** q is what the loop can reach from tracks ts and next id n: old tracks
      keep their ids and are either untouched or refreshed once, and the
      tracks after them are new, claimed, with consecutive ids from n. */
  ghost predicate Shape(ts: seq<Track>, n: int, q: Progress)
  {
    && Aligned(q) && |q.tracks| >= |ts| && q.nextId == n + (|q.tracks| - |ts|)
    && (forall i :: 0 <= i < |ts| && !q.claimed[i] ==> q.tracks[i] == ts[i])
    && (forall i :: 0 <= i < |ts| && q.claimed[i] ==> Refreshed(ts[i], q.tracks[i]))
    && (forall j :: |ts| <= j < |q.tracks| ==> q.claimed[j] && Spawned(q.tracks[j], n + (j - |ts|)))
  }

  lemma ApplyKeepsShape(ts: seq<Track>, n: int, q: Progress, d: Detection, i: int, W: int, H: int)
    requires Shape(ts, n, q) && Choosable(q, i)
    ensures Shape(ts, n, Apply(q, d, i, W, H))
  {
  }

  /** Each pre-existing track is untouched or refreshed exactly once, and
      every new track is claimed, seen now, with one history entry and the
      next consecutive id. */
  lemma {:induction false} AssociateAllShape(ts: seq<Track>, n: int, dets: seq<Detection>, W: int, H: int, p: Params)
    ensures Shape(ts, n, AssociateAll(Start(ts, n), dets, W, H, p))
  {
    if |dets| > 0 {
      AssociateAllShape(ts, n, dets[..|dets| - 1], W, H, p);
      var q, d := AssociateAll(Start(ts, n), dets[..|dets| - 1], W, H, p), dets[|dets| - 1];
      ApplyKeepsShape(ts, n, q, d, Choose(q.tracks, q.claimed, d, W, H, p), W, H);
    }
  }

  /** Track t holds detection d's box and ends with its position. */
  predicate CarriesBox(t: Track, d: Detection, W: int, H: int)
  {
    && t.x == d.x && t.y == d.y && t.width == d.width && t.height == d.height
    && |t.history| > 0 && t.history[|t.history| - 1] == HistoryPoint(d, W, H)
  }

  /** The detections dets were given pairwise distinct tracks, a track is
      claimed exactly when some detection was given it, and each detection's
      track holds that detection's box. */
  ghost predicate OneToOne(dets: seq<Detection>, q: Progress, W: int, H: int)
  {
    && Aligned(q) && |q.taken| == |dets|
    && (forall k :: 0 <= k < |dets| ==> 0 <= q.taken[k] < |q.tracks|)
    && (forall k1, k2 :: 0 <= k1 < k2 < |dets| ==> q.taken[k1] != q.taken[k2])
    && (forall i :: 0 <= i < |q.tracks| ==> (q.claimed[i] <==> i in q.taken))
    && (forall k :: 0 <= k < |dets| ==> CarriesBox(q.tracks[q.taken[k]], dets[k], W, H))
  }

  lemma ApplyKeepsOneToOne(dets: seq<Detection>, q: Progress, d: Detection, i: int, W: int, H: int)
    requires OneToOne(dets, q, W, H) && Choosable(q, i)
    ensures OneToOne(dets + [d], Apply(q, d, i, W, H), W, H)
  {
    var r := Apply(q, d, i, W, H);
    var ds := dets + [d];
    assert i != -1 ==> i !in q.taken;
    assert |q.tracks| !in q.taken;
    forall k | 0 <= k < |ds|
      ensures CarriesBox(r.tracks[r.taken[k]], ds[k], W, H)
    {
      if k < |dets| {
        assert r.taken[k] == q.taken[k] != r.taken[|dets|];
      }
    }
  }

  /** Within one frame, no two detections share a track, and a track is
      claimed exactly when one of the detections was given it. */
  lemma {:induction false} AssociateAllOneToOne(ts: seq<Track>, n: int, dets: seq<Detection>, W: int, H: int, p: Params)
    ensures OneToOne(dets, AssociateAll(Start(ts, n), dets, W, H, p), W, H)
  {
    if |dets| > 0 {
      var front := dets[..|dets| - 1];
      AssociateAllOneToOne(ts, n, front, W, H, p);
      var q, d := AssociateAll(Start(ts, n), front, W, H, p), dets[|dets| - 1];
      ApplyKeepsOneToOne(front, q, d, Choose(q.tracks, q.claimed, d, W, H, p), W, H);
      assert front + [dets[|dets| - 1]] == dets;
    }
  }
}
