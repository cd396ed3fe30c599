/**
  * The TCX adapter: track points become coordinates, a point without a
  * position being a bad (0, 0) coordinate; each track is infilled, and each
  * activity is infilled again across its laps. The reverse direction makes one
  * activity of one lap per route.
  */
module Tcx {
  import opened Wrappers
  import opened Ieee
  import opened Geo
  import opened Infill
  import opened Speeds
  import opened GeoFiles
  import opened TrackHelper

  datatype Position = Position(latitudeDegrees: Double, longitudeDegrees: Double)

  /** A Trackpoint element; `position` is None when the element has no Position. */
  datatype TrackPoint = TrackPoint(
    createdDateTime: int,
    position: Option<Position>,
    altitudeMeters: Double,
    distanceMeters: Double,
    cadence: int,
    sensorState: string)
  {
    /** The coordinate of this point: without a position, a bad one at (0, 0). */
    function ToCoord(): (r: Fix)
      ensures r.bad <==> position.None?
      ensures r.time == createdDateTime && r.alt == altitudeMeters && r.speed == NaN
      ensures position.None? ==> r.lat == Zero && r.lon == Zero
      ensures position.Some? ==> r.lat == position.value.latitudeDegrees && r.lon == position.value.longitudeDegrees
    {
      if position.None? then Fix(Zero, Zero, altitudeMeters, createdDateTime, NaN, true)
      else Fix(position.value.latitudeDegrees, position.value.longitudeDegrees, altitudeMeters, createdDateTime, NaN, false)
    }
  }

  /** A Trackpoint whose optional elements are all absent. */
  const EmptyTrackPoint: TrackPoint := TrackPoint(MinTime, None, Zero, Zero, 0, "")

  /** A Trackpoint with nothing in it becomes a bad coordinate at (0, 0), altitude 0, at the earliest time. */
  lemma EmptyTrackPointCoord()
    ensures EmptyTrackPoint.ToCoord() == Fix(Zero, Zero, Zero, MinTime, NaN, true)
  {
  }

  /** The coordinates of the track points, one each, in order. */
  function Coords(tps: seq<TrackPoint>): (r: seq<Fix>)
    ensures |r| == |tps|
  {
    seq(|tps|, i requires 0 <= i < |tps| => tps[i].ToCoord())
  }

  datatype Track = Track(trackPoints: seq<TrackPoint>) {
    /** A fresh coordinate per track point, then InfillPositions over them. */
    method ToCoords() returns (r: seq<Point>)
      ensures Fixes(r) == Infilled(Coords(trackPoints))
      ensures Distinct(r) && forall i :: 0 <= i < |r| ==> fresh(r[i])
    {
      var coords := NewPoints(Coords(trackPoints));
      r := InfillPositions(coords);
    }
  }

  /** A Lap element; the heart rates are their Value. */
  datatype Lap = Lap(
    startTime: string,
    totalTimeSeconds: Double,
    distanceMeters: Double,
    maximumSpeed: Double,
    calories: int,
    averageHeartRateBpm: int,
    maximumHeartRateBpm: int,
    intensity: string,
    cadence: int,
    triggerMethod: string,
    track: Track,
    notes: string)

  /** An Activity element; the id and notes are null when never set. */
  datatype Activity = Activity(id: Option<string>, laps: seq<Lap>, notes: Option<string>) {
    /** The coordinates of each lap's track points before any infill. */
    function LapCoords(): (r: seq<seq<Fix>>)
      ensures |r| == |laps|
    {
      seq(|laps|, i requires 0 <= i < |laps| => Coords(laps[i].track.trackPoints))
    }

    /**
      * Each lap's track converted and infilled, appended in lap order; then,
      * when some point is still bad, InfillPositions over the whole list.
      */
    method ToCoords() returns (r: seq<Point>)
      ensures Fixes(r) == Infilled(Concat(LapCoords()))
      ensures Distinct(r) && forall i :: 0 <= i < |r| ==> fresh(r[i])
    {
      var merged := LapTracks();
      ghost var filled := InfilledEach(LapCoords());
      InfillTracks(None, LapCoords());
      if exists k :: 0 <= k < |merged| && merged[k].bad {
        r := InfillPositions(merged);
      } else {
        InfillNoBad(None, Concat(filled));
        r := merged;
      }
    }

    /** The first step of ToCoords: the infilled tracks of the laps, appended in order. */
    method LapTracks() returns (merged: seq<Point>)
      ensures Fixes(merged) == Concat(InfilledEach(LapCoords()))
      ensures Distinct(merged) && forall i :: 0 <= i < |merged| ==> fresh(merged[i])
    {
      merged := [];
      ghost var filled: seq<seq<Fix>> := [];
      var i := 0;
      while i < |laps|
        invariant 0 <= i <= |laps|
        invariant |filled| == i && forall k :: 0 <= k < i ==> filled[k] == Infilled(LapCoords()[k])
        invariant Fixes(merged) == Concat(filled)
        invariant Distinct(merged) && forall k :: 0 <= k < |merged| ==> fresh(merged[k])
      {
        var coords := laps[i].track.ToCoords();
        DistinctAppend(merged, coords);
        FixesAppend(merged, coords);
        ConcatSnoc(filled, Fixes(coords));
        merged := merged + coords;
        filled := filled + [Fixes(coords)];
        i := i + 1;
      }
      assert filled == InfilledEach(LapCoords());
    }
  }

  /** The track point FromGeoFile makes of a coordinate: its position, altitude and time. */
  function TrackPointFor(f: Fix): TrackPoint {
    EmptyTrackPoint.(createdDateTime := f.time, position := Some(Position(f.lat, f.lon)), altitudeMeters := f.alt)
  }

  /** The single lap FromGeoFile makes of a route: every point, and the route's total distance. */
  function LapFor(fs: seq<Fix>): Lap
    requires DistancesComputable(fs)
  {
    Lap("", Zero, Finite(SumDistances(fs)), Zero, 0, 0, 0, "", 0, "",
        Track(seq(|fs|, i requires 0 <= i < |fs| => TrackPointFor(fs[i]))), "")
  }

  /** The activity FromGeoFile makes of a route; its id is never set. */
  function ActivityFor(fs: seq<Fix>): Activity
    requires DistancesComputable(fs)
  {
    Activity(None, [LapFor(fs)], None)
  }

  /**
    * The activity of a route has no id and one lap; the lap's distance is the
    * route's total distance, its other numbers are 0 and its strings empty; it
    * has one positioned track point per point, bad points included, copying
    * latitude, longitude, altitude and time.
    */
  lemma ActivityForShape(fs: seq<Fix>)
    requires DistancesComputable(fs)
    ensures ActivityFor(fs).id.None? && |ActivityFor(fs).laps| == 1
    ensures ActivityFor(fs).laps[0].distanceMeters == Finite(SumDistances(fs))
    ensures ActivityFor(fs).laps[0].distanceMeters.v >= 0.0
    ensures var l := ActivityFor(fs).laps[0];
            l.totalTimeSeconds == Zero && l.maximumSpeed == Zero && l.calories == 0 && l.cadence == 0 &&
            l.averageHeartRateBpm == 0 && l.maximumHeartRateBpm == 0 &&
            l.startTime == "" && l.intensity == "" && l.triggerMethod == "" && l.notes == ""
    ensures var tps := ActivityFor(fs).laps[0].track.trackPoints;
            |tps| == |fs| &&
            forall i :: 0 <= i < |fs| ==>
              tps[i].position == Some(Position(fs[i].lat, fs[i].lon)) &&
              tps[i].altitudeMeters == fs[i].alt && tps[i].createdDateTime == fs[i].time
  {
  }

  /** After a track's infill every point keeps its time, and the speed stays unset. */
  lemma TrackKeepsTimes(tps: seq<TrackPoint>)
    ensures |Infilled(Coords(tps))| == |tps|
    ensures forall i :: 0 <= i < |tps| ==>
              Infilled(Coords(tps))[i].time == tps[i].createdDateTime && Infilled(Coords(tps))[i].speed == NaN
  {
    InfillShape(None, Coords(tps));
  }

  /** A track point with a position keeps its own latitude, longitude and altitude. */
  lemma TrackKeepsPositioned(tps: seq<TrackPoint>, i: int)
    requires 0 <= i < |tps| && tps[i].position.Some?
    ensures Infilled(Coords(tps))[i] ==
              Fix(tps[i].position.value.latitudeDegrees, tps[i].position.value.longitudeDegrees,
                  tps[i].altitudeMeters, tps[i].createdDateTime, NaN, false)
  {
    InfillShape(None, Coords(tps));
  }

  /**
    * A track point without a position, after a positioned one, takes the
    * latitude, longitude and altitude of the nearest such point before it and
    * is no longer bad; its own altitude is lost.
    */
  lemma TrackFillsGap(tps: seq<TrackPoint>, i: int, j: int)
    requires 0 <= j < i < |tps| && tps[i].position.None? && tps[j].position.Some?
    requires forall k :: j < k < i ==> tps[k].position.None?
    ensures Infilled(Coords(tps))[i] ==
              Fix(tps[j].position.value.latitudeDegrees, tps[j].position.value.longitudeDegrees,
                  tps[j].altitudeMeters, tps[i].createdDateTime, NaN, false)
  {
    InfillTakesLastGood(Coords(tps), i, j);
  }

  /** A point stays bad exactly when no point up to it has a position, and then it is still at (0, 0). */
  lemma TrackLeadingBad(tps: seq<TrackPoint>, i: int)
    requires 0 <= i < |tps|
    ensures Infilled(Coords(tps))[i].bad <==> forall k :: 0 <= k <= i ==> tps[k].position.None?
    ensures Infilled(Coords(tps))[i].bad ==> Infilled(Coords(tps))[i] == Fix(Zero, Zero, tps[i].altitudeMeters, tps[i].createdDateTime, NaN, true)
  {
    InfillBad(Coords(tps), i);
    InfillAt(None, Coords(tps), i);
    assert forall k :: 0 <= k <= i ==> (Coords(tps)[k].bad <==> tps[k].position.None?);
  }

  /** An activity has one coordinate per track point of its laps. */
  lemma ActivityLength(a: Activity)
    ensures |Infilled(Concat(a.LapCoords()))| == SumLengths(a.LapCoords())
    ensures forall i :: 0 <= i < |a.laps| ==> |a.LapCoords()[i]| == |a.laps[i].track.trackPoints|
  {
    ConcatLength(a.LapCoords());
  }

  /**
    * A route written by FromGeoFile and read back by ToGeoFile gives every
    * point's latitude, longitude, altitude and time, with the speed unset and no
    * point bad, a point that was bad included.
    */
  lemma RoundTrip(fs: seq<Fix>)
    requires DistancesComputable(fs)
    ensures |ActivityFor(fs).laps| == 1 && |ActivityFor(fs).laps[0].track.trackPoints| == |fs|
    ensures Infilled(Concat(ActivityFor(fs).LapCoords())) ==
              seq(|fs|, i requires 0 <= i < |fs| => fs[i].(speed := NaN, bad := false))
  {
    var tps := ActivityFor(fs).laps[0].track.trackPoints;
    var cs := Coords(tps);
    var one: seq<seq<Fix>> := [cs];
    assert ActivityFor(fs).LapCoords() == one;
    assert one[1..] == [];
    assert Concat(one) == cs + Concat(one[1..]);
    var back := seq(|fs|, i requires 0 <= i < |fs| => fs[i].(speed := NaN, bad := false));
    assert forall k :: 0 <= k < |fs| ==> tps[k] == TrackPointFor(fs[k]);
    assert cs == back;
    InfillNoBad(None, cs);
    assert Concat(one) == cs;
    assert Infilled(cs) == back;
  }

  /** TrainingCenterDatabase: the activities, replaced as a whole by FromGeoFile. */
  class TcxFile {
    var activities: seq<Activity>

    /** One route per activity, in order, named by the activity's id; the file has no name or author. */
    method ToGeoFile() returns (g: GeoFile)
      ensures g.name.None? && g.author.None?
      ensures |g.routes| == |activities|
      ensures forall i :: 0 <= i < |activities| ==>
                g.routes[i].name == activities[i].id &&
                Fixes(g.routes[i].points) == Infilled(Concat(activities[i].LapCoords()))
    {
      var routes: seq<GeoRoute> := [];
      var i := 0;
      while i < |activities|
        invariant 0 <= i <= |activities|
        invariant |routes| == i
        invariant forall k :: 0 <= k < i ==>
                    routes[k].name == activities[k].id &&
                    Fixes(routes[k].points) == Infilled(Concat(activities[k].LapCoords()))
      {
        var points := activities[i].ToCoords();
        routes := routes + [GeoRoute(activities[i].id, points)];
        i := i + 1;
      }
      g := GeoFile(None, None, routes);
    }

    /**
      * One activity per route, in order, each with one lap holding a track
      * point for every point of the route and the route's total distance.
      */
    method FromGeoFile(file: GeoFile) returns (ok: bool)
      requires forall i :: 0 <= i < |file.routes| ==> DistancesComputable(Fixes(file.routes[i].points))
      modifies this`activities
      ensures ok
      ensures |activities| == |file.routes|
      ensures forall i :: 0 <= i < |file.routes| ==> activities[i] == ActivityFor(Fixes(file.routes[i].points))
    {
      var built: seq<Activity> := [];
      var i := 0;
      while i < |file.routes|
        invariant 0 <= i <= |file.routes|
        invariant |built| == i
        invariant forall k :: 0 <= k < i ==> built[k] == ActivityFor(Fixes(file.routes[k].points))
      {
        var points := file.routes[i].points;
        var distance := CalculateTotalDistance(points);
        var trackPoints: seq<TrackPoint> := [];
        var j := 0;
        while j < |points|
          invariant 0 <= j <= |points|
          invariant |trackPoints| == j
          invariant forall k :: 0 <= k < j ==> trackPoints[k] == TrackPointFor(points[k].Value())
        {
          var pt := points[j];
          trackPoints := trackPoints + [EmptyTrackPoint.(createdDateTime := pt.time,
                                                         position := Some(Position(pt.lat, pt.lon)),
                                                         altitudeMeters := pt.alt)];
          j := j + 1;
        }
        var lap := Lap("", Zero, Finite(distance), Zero, 0, 0, 0, "", 0, "", Track(trackPoints), "");
        assert lap == LapFor(Fixes(points));
        built := built + [Activity(None, [lap], None)];
        i := i + 1;
      }
      activities := built;
      ok := true;
    }
  }
}
