/** One frame of the tracker as a function of its state: associate the
    detections, age the tracks nobody claimed, drop the stale ones. */
module Lifecycle {
  import opened TrackerTypes
  import opened Association

  /** The tracker's state between frames: the live tracks in store order,
      and the id the next new track gets. */
  datatype Store = Store(tracks: seq<Track>, nextId: int)

  /** Every track that no detection claimed this frame misses one more frame. */
  function Age(ts: seq<Track>, claimed: seq<bool>): (r: seq<Track>)
    requires |claimed| == |ts|
    ensures |r| == |ts|
  {
    seq(|ts|, i requires 0 <= i < |ts| =>
      if claimed[i] then ts[i] else ts[i].(lastSeen := ts[i].lastSeen + 1))
  }

  /** What erasing the remove_if range leaves: the tracks missing for at most
      maxMissing frames, in their order. */
  function Survivors(ts: seq<Track>, maxMissing: int): (r: seq<Track>)
    ensures |r| <= |ts|
    ensures forall t :: t in r <==> t in ts && t.lastSeen <= maxMissing
  {
    if |ts| == 0 then []
    else
      var front, last := ts[..|ts| - 1], ts[|ts| - 1];
      assert ts == front + [last];
      var rest := Survivors(front, maxMissing);
      if last.lastSeen <= maxMissing then rest + [last] else rest
  }

  /** When no track is stale the erase removes nothing. */
  lemma {:induction false} SurvivorsNoneStale(ts: seq<Track>, maxMissing: int)
    requires forall i :: 0 <= i < |ts| ==> ts[i].lastSeen <= maxMissing
    ensures Survivors(ts, maxMissing) == ts
  {
    if |ts| > 0 {
      var front := ts[..|ts| - 1];
      SurvivorsNoneStale(front, maxMissing);
      assert front + [ts[|ts| - 1]] == ts;
    }
  }

  ghost predicate IdsIncreasing(ts: seq<Track>)
  {
    forall i, j :: 0 <= i < j < |ts| ==> ts[i].id < ts[j].id
  }

  /** Removing tracks keeps the others in order: a store sorted by id stays sorted. */
  lemma {:induction false} SurvivorsKeepOrder(ts: seq<Track>, maxMissing: int)
    requires IdsIncreasing(ts)
    ensures IdsIncreasing(Survivors(ts, maxMissing))
  {
    if |ts| > 0 {
      var front, last := ts[..|ts| - 1], ts[|ts| - 1];
      SurvivorsKeepOrder(front, maxMissing);
      var rest := Survivors(front, maxMissing);
      forall i | 0 <= i < |rest|
        ensures rest[i].id < last.id
      {
        assert rest[i] in front;
        var k :| 0 <= k < |front| && front[k] == rest[i];
        assert ts[k] == rest[i];
      }
    }
  }

  /** The invariant the tracker keeps between frames: ids below the next
      id and increasing in store order (so pairwise distinct), every track
      missing for at most maxMissing frames and with a non-empty history. */
  ghost predicate WellFormed(s: Store, maxMissing: int)
  {
    && 0 <= s.nextId
    && IdsIncreasing(s.tracks)
    && (forall t :: t in s.tracks ==>
          0 <= t.id < s.nextId && 0 <= t.lastSeen <= maxMissing && |t.history| >= 1)
  }

  /** The result of the detection loop on store s. */
  function Associated(s: Store, dets: seq<Detection>, W: int, H: int, p: Params): (q: Progress)
    ensures Aligned(q)
  {
    AssociateAll(Start(s.tracks, s.nextId), dets, W, H, p)
  }

  /** The tracks after the ageing loop, before the erase. */
  function Aged(s: Store, dets: seq<Detection>, W: int, H: int, p: Params): seq<Track>
  {
    var q := Associated(s, dets, W, H, p);
    Age(q.tracks, q.claimed)
  }

  /** One call of the tracker's update on store s. */
  function Step(s: Store, dets: seq<Detection>, W: int, H: int, p: Params): Store
  {
    Store(Survivors(Aged(s, dets, W, H, p), p.maxMissing), Associated(s, dets, W, H, p).nextId)
  }

  /** A frame with no detections: every track misses one more frame, the
      stale ones go, and the next id stays. */
  lemma StepWithoutDetections(s: Store, W: int, H: int, p: Params)
    ensures Step(s, [], W, H, p)
            == Store(Survivors(Age(s.tracks, seq(|s.tracks|, _ => false)), p.maxMissing), s.nextId)
  {
  }

  /** After association and ageing (before the erase), ids are still
      increasing and below the new next id, which has grown by the number of
      tracks created. */
  lemma AgedFacts(s: Store, dets: seq<Detection>, W: int, H: int, p: Params)
    requires WellFormed(s, p.maxMissing)
    ensures var q := Associated(s, dets, W, H, p);
            var a := Aged(s, dets, W, H, p);
            && |a| == |q.tracks| >= |s.tracks|
            && q.nextId == s.nextId + (|a| - |s.tracks|)
            && IdsIncreasing(a)
            && (forall k :: 0 <= k < |a| ==>
                  0 <= a[k].id < q.nextId && 0 <= a[k].lastSeen && |a[k].history| >= 1)
  {
    var ts, n := s.tracks, s.nextId;
    var q := Associated(s, dets, W, H, p);
    var a := Aged(s, dets, W, H, p);
    AssociateAllShape(ts, n, dets, W, H, p);
    forall k | 0 <= k < |a|
      ensures a[k].id == (if k < |ts| then ts[k].id else n + (k - |ts|))
      ensures 0 <= a[k].lastSeen && |a[k].history| >= 1
    {
      if k < |ts| {
        assert ts[k] in ts;
      }
    }
    forall k | 0 <= k < |ts|
      ensures 0 <= ts[k].id < n
    {
      assert ts[k] in ts;
    }
  }

  /** The tracker's invariant holds after every frame, and the next id never
      goes down. */
  lemma StepPreservesWellFormed(s: Store, dets: seq<Detection>, W: int, H: int, p: Params)
    requires WellFormed(s, p.maxMissing)
    ensures WellFormed(Step(s, dets, W, H, p), p.maxMissing)
    ensures Step(s, dets, W, H, p).nextId >= s.nextId
  {
    AgedFacts(s, dets, W, H, p);
    var a := Aged(s, dets, W, H, p);
    SurvivorsKeepOrder(a, p.maxMissing);
  }

  /** What a frame does to a track that was live before it. A track that a
      detection claimed keeps its id, is seen now, and has one more history
      entry; it survives unless maxMissing is negative. A track nobody
      claimed is unchanged but for one more missed frame, and survives
      exactly when that count is at most maxMissing; otherwise no track with
      its id is left. */
  lemma StepFate(s: Store, dets: seq<Detection>, W: int, H: int, p: Params, i: int)
    requires WellFormed(s, p.maxMissing) && 0 <= i < |s.tracks|
    ensures var t, out := s.tracks[i], Step(s, dets, W, H, p).tracks;
            && (Associated(s, dets, W, H, p).claimed[i] ==>
                  && (forall u :: u in out && u.id == t.id ==> Refreshed(t, u))
                  && ((exists u :: u in out && u.id == t.id) <==> 0 <= p.maxMissing))
            && (!Associated(s, dets, W, H, p).claimed[i] ==>
                  && (t.(lastSeen := t.lastSeen + 1) in out <==> t.lastSeen + 1 <= p.maxMissing)
                  && (t.lastSeen + 1 > p.maxMissing ==> forall u :: u in out ==> u.id != t.id))
  {
    var t, out := s.tracks[i], Step(s, dets, W, H, p).tracks;
    var a := Aged(s, dets, W, H, p);
    AgedFacts(s, dets, W, H, p);
    AgedAt(s, dets, W, H, p, i);
    forall u | u in out && u.id == t.id
      ensures u == a[i]
    {
      UniqueId(a, i, u);
    }
    assert a[i] in a;
  }

  /** Ids that increase along a store name at most one track each. */
  lemma UniqueId(a: seq<Track>, i: int, u: Track)
    requires IdsIncreasing(a) && 0 <= i < |a| && u in a && u.id == a[i].id
    ensures u == a[i]
  {
    var k :| 0 <= k < |a| && a[k] == u;
    assert k == i;
  }

  /** The old track at index i after association and ageing. */
  lemma AgedAt(s: Store, dets: seq<Detection>, W: int, H: int, p: Params, i: int)
    requires 0 <= i < |s.tracks|
    ensures var q, a := Associated(s, dets, W, H, p), Aged(s, dets, W, H, p);
            && i < |a|
            && (q.claimed[i] ==> Refreshed(s.tracks[i], a[i]))
            && (!q.claimed[i] ==> a[i] == s.tracks[i].(lastSeen := s.tracks[i].lastSeen + 1))
  {
    AssociateAllShape(s.tracks, s.nextId, dets, W, H, p);
  }

  /** Each track created this frame takes the next id in turn, starts seen
      now with one history entry, and survives unless maxMissing is
      negative; the next id advances by the number created. */
  lemma StepNewTracks(s: Store, dets: seq<Detection>, W: int, H: int, p: Params)
    requires WellFormed(s, p.maxMissing)
    ensures var a := Aged(s, dets, W, H, p);
            var out := Step(s, dets, W, H, p);
            && out.nextId == s.nextId + (|a| - |s.tracks|)
            && (forall j :: |s.tracks| <= j < |a| ==>
                  && Spawned(a[j], s.nextId + (j - |s.tracks|))
                  && (a[j] in out.tracks <==> 0 <= p.maxMissing))
  {
    AgedFacts(s, dets, W, H, p);
    AssociateAllShape(s.tracks, s.nextId, dets, W, H, p);
  }

  /** Each detection of the frame was given its own track, which holds the
      detection's box and position: a matched old track (same id), or a new
      track. */
  lemma StepAssignment(s: Store, dets: seq<Detection>, W: int, H: int, p: Params)
    requires WellFormed(s, p.maxMissing)
    ensures var q := Associated(s, dets, W, H, p);
            var a := Aged(s, dets, W, H, p);
            && |q.taken| == |dets|
            && (forall k1, k2 :: 0 <= k1 < k2 < |dets| ==> q.taken[k1] != q.taken[k2])
            && (forall k :: 0 <= k < |dets| ==>
                  && 0 <= q.taken[k] < |a|
                  && CarriesBox(a[q.taken[k]], dets[k], W, H)
                  && a[q.taken[k]].lastSeen == 0
                  && (q.taken[k] < |s.tracks| ==> a[q.taken[k]].id == s.tracks[q.taken[k]].id))
  {
    AssociateAllOneToOne(s.tracks, s.nextId, dets, W, H, p);
    AssociateAllShape(s.tracks, s.nextId, dets, W, H, p);
    var q := Associated(s, dets, W, H, p);
    forall k | 0 <= k < |dets|
      ensures q.claimed[q.taken[k]]
    {
      assert q.taken[k] in q.taken;
    }
  }
}
