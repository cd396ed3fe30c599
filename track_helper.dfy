/**
  * TrackHelper: the list operations on point objects. Each method does what the
  * source does to its objects, step by step, and its contract ties the values
  * it leaves to the function that specifies it.
  */
module TrackHelper {
  import opened Wrappers
  import opened Ieee
  import opened Geo
  import opened Infill
  import opened Speeds
  import opened NotMoving
  import opened Ordering
  import opened Similarity
  import opened Splitting
  import LegacyTrackHelper

  /**
    * Fills each bad point from the last good point before it, in place, and
    * returns the same list.
    */
  method InfillPositions(points: seq<Point>) returns (r: seq<Point>)
    requires Distinct(points)
    modifies points
    ensures r == points
    ensures Fixes(points) == Infilled(old(Fixes(points)))
  {
    ghost var orig := Fixes(points);
    var lastValidPosition: Point? := null;
    ghost var filled: seq<Fix> := [];              // InfillFrom(None, orig[..i])
    ghost var known: Option<Place> := None;       // LastAfter(None, orig[..i])
    ghost var at := 0;                            // the index of lastValidPosition
    var i := 0;
    while i < |points|
      invariant 0 <= i <= |points| && |filled| == i
      invariant filled == InfillFrom(None, orig[..i]) && known == LastAfter(None, orig[..i])
      invariant forall k :: 0 <= k < i ==> points[k].Value() == filled[k]
      invariant forall k :: i <= k < |points| ==> points[k].Value() == orig[k]
      invariant lastValidPosition == null <==> known == None
      invariant lastValidPosition != null ==>
                  0 <= at < i && lastValidPosition == points[at] &&
                  known == Some(PlaceOf(lastValidPosition.Value()))
    {
      var pt := points[i];
      if !pt.bad {
        lastValidPosition := pt;
        at := i;
      } else if pt.bad && lastValidPosition != null {
        pt.lat := lastValidPosition.lat;
        pt.lon := lastValidPosition.lon;
        pt.alt := lastValidPosition.alt;
        pt.bad := false;
        lastValidPosition := pt;
        at := i;
      }
      assert orig[..i + 1] == orig[..i] + [orig[i]];
      InfillSnoc(None, orig[..i], orig[i]);
      assert pt.Value() == Step(known, orig[i]);
      filled := filled + [Step(known, orig[i])];
      known := Next(known, orig[i]);
      forall k | 0 <= k < |points|
        ensures points[k].Value() == if k <= i then filled[k] else orig[k]
      {
        if k != i {
          assert points[k] != points[i];
        }
      }
      i := i + 1;
    }
    assert orig[..i] == orig;
    r := points;
  }

  /**
    * Sets the first point's speed to 0 and every point from the third on its
    * speed from the point before it, in place, and returns the same list.
    */
  method CalculateSpeeds(points: seq<Point>) returns (r: seq<Point>)
    requires Distinct(points) && SpeedsComputable(Fixes(points))
    modifies points
    ensures r == points
    ensures Fixes(points) == WithSpeeds(old(Fixes(points)))
  {
    ghost var orig := Fixes(points);
    var coordId := 1;
    while coordId < |points|
      invariant 1 <= coordId && (coordId <= |points| || |points| == 0)
      invariant forall k :: 0 <= k < |points| ==> points[k].Value() == SpeedsUpTo(orig, coordId, k)
    {
      if coordId == 1 {
        points[0].speed := Zero;
      } else if coordId > 1 {
        SpeedStep(orig, coordId, points[coordId - 1].Value());
        points[coordId].CalculateSpeed(points[coordId - 1]);
      }
      forall k | 0 <= k < |points|
        ensures points[k].Value() == SpeedsUpTo(orig, coordId + 1, k)
      {
        if k != coordId && k != 0 {
          assert points[k] != points[coordId] && points[k] != points[0];
        }
      }
      coordId := coordId + 1;
    }
    assert forall k :: 0 <= k < |points| ==> points[k].Value() == WithSpeeds(orig)[k];
    r := points;
  }

  /** Point `k` once CalculateSpeeds has run its loop up to, but not including, `coordId`. */
  ghost function SpeedsUpTo(fs: seq<Fix>, coordId: int, k: int): Fix
    requires SpeedsComputable(fs) && 0 <= k < |fs|
  {
    if 2 <= coordId && k < coordId then SpeedAt(fs, k) else fs[k]
  }

  /** The distances between consecutive points added up from the start. */
  method CalculateTotalDistance(points: seq<Point>) returns (distance: real)
    requires DistancesComputable(Fixes(points))
    ensures distance == SumDistances(Fixes(points))
  {
    ghost var fs := Fixes(points);
    distance := 0.0;
    var coordId := 1;
    while coordId < |points|
      invariant 1 <= coordId && (coordId <= |points| || |points| == 0)
      invariant |points| == 0 ==> distance == 0.0
      invariant |points| == 0 || distance == SumDistances(fs[..coordId])
    {
      assert fs[..coordId + 1][..coordId] == fs[..coordId];
      distance := distance + Distance(points[coordId].Value(), points[coordId - 1].Value());
      coordId := coordId + 1;
    }
    if |points| > 0 {
      assert fs[..coordId] == fs;
    }
  }

  /**
    * Recomputes the speeds in place, then gives the span from the first point
    * to the last (ActualTime) or the spans into the points whose speed is above
    * zero (MovingTime), with the same switch and loop as the older revision.
    */
  method TotalTime(points: seq<Point>, timeCalculationType: TimeCalculationType) returns (r: Result<int>)
    requires Distinct(points) && SpeedsComputable(Fixes(points))
    modifies points
    ensures Fixes(points) == WithSpeeds(old(Fixes(points)))
    ensures r == TotalTimeOf(WithSpeeds(old(Fixes(points))), timeCalculationType)
  {
    var pts := CalculateSpeeds(points);
    r := LegacyTrackHelper.TotalTime(pts, timeCalculationType);
  }

  /** Fresh point objects with the same values, in the same order: the JSON round trip. */
  method Clone(points: seq<Point>) returns (r: seq<Point>)
    ensures Fixes(r) == Fixes(points)
    ensures Distinct(r)
    ensures forall i :: 0 <= i < |r| ==> fresh(r[i])
  {
    r := NewPoints(Fixes(points));
  }

  /**
    * On a clone with fresh speeds: keeps the first point and, after it, every
    * point whose speed is not 0, giving each the first point's time plus the
    * spans from the kept points' original predecessors; then recomputes the
    * speeds. The input is not changed; an empty input indexes outside the clone.
    */
  method RemoveNotMoving(points: seq<Point>) returns (r: Result<seq<Point>>)
    requires SpeedsComputable(Fixes(points))
    ensures r.Err? <==> |points| == 0
    ensures r.Err? ==> r.fault == ArgumentOutOfRange
    ensures r.Ok? ==> |points| >= 1 && Fixes(r.value) == Cleaned(old(Fixes(points)), NonZero)
    ensures r.Ok? ==> Distinct(r.value) && forall i :: 0 <= i < |r.value| ==> fresh(r.value[i])
  {
    ghost var orig := Fixes(points);
    var reference := Clone(points);
    reference := CalculateSpeeds(reference);
    if |reference| == 0 {
      return Err(ArgumentOutOfRange);
    }
    ghost var ref := Fixes(reference);
    assert ref == WithSpeeds(orig);
    SpeedsOnlyChangeSpeed(orig);
    var timeDiffs, movers, recorded, indices := MovingIntervals(reference);
    var cleaned := ReplayIntervals(reference[0], timeDiffs, movers, recorded);
    forall i | 0 <= i < |cleaned|
      ensures fresh(cleaned[i])
    {
      if i > 0 {
        assert cleaned[i] == reference[indices[i - 1]];
      }
    }
    assert Fixes(cleaned) == Rebuilt(ref, NonZero);
    RebuiltComputable(ref, NonZero);
    cleaned := CalculateSpeeds(cleaned);
    r := Ok(cleaned);
  }

  /**
    * The first loop of RemoveNotMoving: for every point after the first whose
    * speed is not 0, the span from the point before it and the point itself.
    * The source's list of (span, point) pairs is kept as two lists of equal length.
    */
  method MovingIntervals(reference: seq<Point>)
    returns (timeDiffs: seq<int>, movers: seq<Point>, ghost recorded: seq<Interval>, ghost indices: seq<int>)
    requires |reference| >= 1 && Distinct(reference)
    ensures recorded == Recorded(Fixes(reference), NonZero)
    ensures |timeDiffs| == |movers| == |recorded| == |indices|
    ensures forall k :: 0 <= k < |movers| ==> timeDiffs[k] == recorded[k].delta && movers[k].Value() == recorded[k].point
    ensures forall k :: 0 <= k < |indices| ==> 1 <= indices[k] < |reference| && movers[k] == reference[indices[k]]
    ensures Distinct(movers)
  {
    ghost var ref := Fixes(reference);
    timeDiffs, movers, recorded, indices := [], [], [], [];
    var coordId := 1;
    while coordId <= |reference| - 1
      invariant 1 <= coordId <= |reference|
      invariant recorded == Recorded(ref[..coordId], NonZero)
      invariant |timeDiffs| == |movers| == |recorded| == |indices|
      invariant forall k :: 0 <= k < |movers| ==> timeDiffs[k] == recorded[k].delta && movers[k].Value() == recorded[k].point
      invariant forall k :: 0 <= k < |indices| ==> 1 <= indices[k] < coordId && movers[k] == reference[indices[k]]
      invariant Distinct(movers)
    {
      assert ref[..coordId + 1][..coordId] == ref[..coordId];
      if reference[coordId].speed.IsNonZero() {
        var timeDiff := reference[coordId].time - reference[coordId - 1].time;
        timeDiffs := timeDiffs + [timeDiff];
        movers := movers + [reference[coordId]];
        recorded := recorded + [Interval(timeDiff, ref[coordId])];
        indices := indices + [coordId];
      }
      coordId := coordId + 1;
    }
    assert ref[..coordId] == ref;
  }

  /**
    * The second loop of RemoveNotMoving: each recorded point in turn gets the
    * first point's time plus the spans so far, and is added after the first point.
    */
  method ReplayIntervals(first: Point, timeDiffs: seq<int>, movers: seq<Point>, ghost recorded: seq<Interval>)
    returns (cleaned: seq<Point>)
    requires |timeDiffs| == |movers| == |recorded|
    requires forall k :: 0 <= k < |movers| ==> timeDiffs[k] == recorded[k].delta && movers[k].Value() == recorded[k].point
    requires first !in movers && Distinct(movers)
    modifies movers
    ensures cleaned == [first] + movers
    ensures first.Value() == old(first.Value())
    ensures Fixes(cleaned) == [first.Value()] + Replay(first.time, recorded)
    ensures Distinct(cleaned)
  {
    cleaned := [first];
    var pointInTime := cleaned[0].time;
    var refId := 0;
    while refId < |movers|
      invariant 0 <= refId <= |movers|
      invariant cleaned == [first] + movers[..refId]
      invariant forall k :: 0 <= k < |movers| ==> movers[k].Value() == ReplayedUpTo(first.time, recorded, refId, k)
      invariant pointInTime == first.time + DeltasThrough(recorded, refId - 1)
    {
      var manipulated := movers[refId];
      pointInTime := pointInTime + timeDiffs[refId];
      manipulated.time := pointInTime;
      forall k | 0 <= k < |movers|
        ensures movers[k].Value() == ReplayedUpTo(first.time, recorded, refId + 1, k)
      {
        if k != refId {
          assert movers[k] != manipulated;
        }
      }
      cleaned := cleaned + [manipulated];
      assert movers[..refId + 1] == movers[..refId] + [manipulated];
      refId := refId + 1;
    }
    assert movers[..refId] == movers;
    DistinctPrepend(first, movers);
    ReplayFromPoints(first.time, recorded, Fixes(movers));
    FixesPrepend(first, movers);
  }

  /**
    * Snaps a clone of every point to a grid of `meters`; the input is not
    * changed and the result holds fresh objects.
    */
  method Round(points: seq<Point>, meters: real) returns (r: seq<Point>)
    ensures Fixes(r) == RoundedAll(Fixes(points), meters)
    ensures Distinct(r) && forall i :: 0 <= i < |r| ==> fresh(r[i])
  {
    ghost var orig := Fixes(points);
    var cloned := Clone(points);
    r := [];
    var i := 0;
    while i < |cloned|
      invariant 0 <= i <= |cloned|
      invariant r == cloned[..i]
      invariant forall k :: 0 <= k < |cloned| ==> cloned[k].Value() == (if k < i then Snapped(orig[k], meters) else orig[k])
      invariant Fixes(points) == orig
    {
      var coord := cloned[i].Round(meters);
      forall k | 0 <= k < |cloned|
        ensures cloned[k].Value() == (if k < i + 1 then Snapped(orig[k], meters) else orig[k])
      {
        if k != i {
          assert cloned[k] != cloned[i];
        }
      }
      assert cloned[..i + 1] == cloned[..i] + [coord];
      r := r + [coord];
      i := i + 1;
    }
    assert cloned[..i] == cloned;
  }

  /**
    * Snaps clones of both lists to a 5 metre grid and keeps the snapped points
    * of the first list that are (Matches) or are not (any other type) at the
    * spot of some snapped point of the second. The activity type is not used.
    */
  method Delta(points: seq<Point>, compareTo: seq<Point>, activityType: ActivityType, compareType: CompareType)
    returns (r: seq<Point>)
    ensures Fixes(r) == DeltaOf(Fixes(points), Fixes(compareTo), compareType)
    ensures forall i :: 0 <= i < |r| ==> fresh(r[i])
  {
    var sourceRounded := Round(points, DeltaMeters);
    var compareRounded := Round(compareTo, DeltaMeters);
    r := SelectPoints(sourceRounded, Fixes(compareRounded), compareType);
    forall i | 0 <= i < |r|
      ensures fresh(r[i])
    {
      assert r[i] in sourceRounded;
    }
  }

  /**
    * The share of the points that match the other list, `(1.0 / n) * matches`,
    * a negative score replaced by 0: a finite value in [0, 1], or NaN for an
    * empty list.
    */
  method Compare(points: seq<Point>, compareTo: seq<Point>, activityType: ActivityType) returns (score: Double)
    ensures score == CompareOf(Fixes(points), Fixes(compareTo))
    ensures |points| == 0 ==> score.NaN?
    ensures |points| > 0 ==> score.Finite? && 0.0 <= score.v <= 1.0
  {
    var matches := Delta(points, compareTo, activityType, Matches);
    score := Mul(Div(Finite(1.0), Finite(|points| as real)), Finite(|matches| as real));
    score := if score.IsNegative() then Zero else score;
    CompareBounds(Fixes(points), Fixes(compareTo));
  }

  /**
    * The points before the first point's time plus `splitTime`, and the points
    * at or after it, as two lists of the same objects; an empty list has no
    * first point.
    */
  method Split(points: seq<Point>, splitTime: int) returns (r: Result<seq<seq<Point>>>)
    ensures r.Err? <==> SplitTime(Fixes(points), splitTime).Err?
    ensures r.Err? ==> r.fault == ArgumentOutOfRange
    ensures r.Ok? ==> |r.value| == 2
    ensures r.Ok? ==> Fixes(r.value[0]) == Part(Fixes(points), SplitTime(Fixes(points), splitTime).value, true)
    ensures r.Ok? ==> Fixes(r.value[1]) == Part(Fixes(points), SplitTime(Fixes(points), splitTime).value, false)
    ensures r.Ok? ==> forall p :: p in r.value[0] || p in r.value[1] ==> p in points
  {
    if |points| == 0 {
      return Err(ArgumentOutOfRange);
    }
    var splitDateTime := points[0].time + splitTime;
    var part1 := PartPoints(points, splitDateTime, true);
    var part2 := PartPoints(points, splitDateTime, false);
    r := Ok([part1, part2]);
  }

  /**
    * Appends the tracks one after another, sets the speed of every point of
    * every track to 0 in place, and returns clones of the merged points ordered
    * by time, points of equal time in merged order.
    */
  method Merge(trackList: seq<seq<Point>>) returns (r: seq<Point>)
    modifies Concat(trackList)
    ensures Fixes(Concat(trackList)) == ZeroSpeeds(old(Fixes(Concat(trackList))))
    ensures Fixes(r) == Merged(old(Fixes(Concat(trackList))))
    ensures forall i :: 0 <= i < |r| ==> fresh(r[i])
  {
    var merged := AddRanges(trackList);
    ghost var orig := Fixes(merged);
    assert orig == old(Fixes(Concat(trackList)));
    ClearSpeeds(merged);
    var cloned := Clone(merged);
    assert Fixes(cloned) == ZeroSpeeds(orig);
    r := SortPoints(cloned);
    assert Fixes(r) == Merged(orig);
    forall i | 0 <= i < |r|
      ensures fresh(r[i])
    {
      assert r[i] in cloned;
    }
  }

  /** The first loop of Merge: each track added to the end of the merged list. */
  method AddRanges(trackList: seq<seq<Point>>) returns (merged: seq<Point>)
    ensures merged == Concat(trackList)
  {
    merged := [];
    var i := 0;
    while i < |trackList|
      invariant 0 <= i <= |trackList|
      invariant merged == Concat(trackList[..i])
    {
      ConcatSnoc(trackList[..i], trackList[i]);
      assert trackList[..i + 1] == trackList[..i] + [trackList[i]];
      merged := merged + trackList[i];
      i := i + 1;
    }
    assert trackList[..i] == trackList;
  }

  /**
    * The `ForEach` of Merge: every point's speed set to 0, nothing else changed.
    * A point that occurs twice is simply set twice.
    */
  method ClearSpeeds(points: seq<Point>)
    modifies points
    ensures Fixes(points) == ZeroSpeeds(old(Fixes(points)))
  {
    ghost var orig := Fixes(points);
    var j := 0;
    while j < |points|
      invariant 0 <= j <= |points|
      invariant forall k :: 0 <= k < |points| ==> points[k].Value() == orig[k].(speed := points[k].speed)
      invariant forall k :: 0 <= k < j ==> points[k].speed == Zero
    {
      points[j].speed := Zero;
      j := j + 1;
    }
  }
}
