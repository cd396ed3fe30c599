/**
  * The GPX adapter: waypoints become coordinates and back, a track is its
  * segments' points one after another, and export keeps only the points that
  * are neither bad nor unknown. System.Decimal values are reals; converting a
  * double to one fails on NaN, the infinities and magnitudes beyond its range.
  */
module Gpx {
  import opened Wrappers
  import opened Ieee
  import opened Geo
  import opened GeoFiles

  /** Decimal.MaxValue. */
  const DecimalMax: real := 79228162514264337593543950335.0

  /** The explicit conversion `(decimal)x`, which throws OverflowException outside the decimal range. */
  function ToDecimal(x: Double): Result<real> {
    if x.Finite? && Abs(x.v) <= DecimalMax then Ok(x.v) else Err(Overflow)
  }

  /** A wpt, trkpt or rtept element; its link, station and extensions are not modelled. */
  datatype Waypoint = Waypoint(
    elevation: real,
    createdDateTime: int,
    magneticVariation: real,
    height: real,
    name: string,
    comment: string,
    description: string,
    source: string,
    symbol: string,
    kind: string,
    fix: string,
    satellites: int,
    dilutionHorizontal: real,
    dilutionVertical: real,
    dilutionPosition: real,
    age: real,
    latitude: real,
    longitude: real)
  {
    /** The coordinate of this waypoint: latitude, longitude, elevation as the altitude, and its time. */
    function ToCoord(): (r: Fix)
      ensures r.Located() && !r.IsUnknown() && !r.bad && r.speed == NaN
      ensures r.lat == Finite(latitude) && r.lon == Finite(longitude) && r.alt == Finite(elevation)
      ensures r.time == createdDateTime
    {
      Fix(Finite(latitude), Finite(longitude), Finite(elevation), createdDateTime, NaN, false)
    }
  }

  /** A waypoint whose fields all have their initial values. */
  const EmptyWaypoint: Waypoint :=
    Waypoint(0.0, MinTime, 0.0, 0.0, "", "", "", "", "", "", "", 0, 0.0, 0.0, 0.0, 0.0, 0.0, 0.0)

  /** A waypoint with every field at its initial value becomes a good coordinate at (0, 0), altitude 0, at the earliest time. */
  lemma EmptyWaypointCoord()
    ensures EmptyWaypoint.ToCoord() == Fix(Zero, Zero, Zero, MinTime, NaN, false)
  {
  }

  /**
    * The waypoint of a coordinate: its time, latitude and longitude, and its
    * altitude as the geoid height; the elevation stays 0.
    */
  function FromCoord(f: Fix): (r: Result<Waypoint>)
    ensures r.Err? ==> r.fault == Overflow
  {
    var height := ToDecimal(f.alt);
    var latitude := ToDecimal(f.lat);
    var longitude := ToDecimal(f.lon);
    if height.Err? || latitude.Err? || longitude.Err? then Err(Overflow)
    else Ok(EmptyWaypoint.(createdDateTime := f.time, height := height.value,
                           latitude := latitude.value, longitude := longitude.value))
  }

  /**
    * A coordinate written as a waypoint and read back keeps its latitude,
    * longitude and time in the exact-decimal model, but comes back good, with
    * no speed and altitude 0.
    */
  lemma CoordRoundTrip(f: Fix)
    requires FromCoord(f).Ok?
    ensures FromCoord(f).value.ToCoord() == Fix(f.lat, f.lon, Zero, f.time, NaN, false)
    ensures FromCoord(f).value.height == f.alt.v
  {
  }

  /** Exactly the coordinates whose latitude, longitude and altitude are finite decimals can be written. */
  lemma FromCoordDefined(f: Fix)
    ensures FromCoord(f).Ok? <==> ToDecimal(f.lat).Ok? && ToDecimal(f.lon).Ok? && ToDecimal(f.alt).Ok?
    ensures FromCoord(f).Ok? ==> f.lat.Finite? && f.lon.Finite? && f.alt.Finite?
  {
  }

  /**
    * A waypoint read as a coordinate and written back keeps its position and
    * time; its elevation moves to the geoid height and every other field is reset.
    */
  lemma WaypointRoundTrip(w: Waypoint)
    requires Abs(w.latitude) <= DecimalMax && Abs(w.longitude) <= DecimalMax && Abs(w.elevation) <= DecimalMax
    ensures FromCoord(w.ToCoord()) ==
              Ok(EmptyWaypoint.(createdDateTime := w.createdDateTime, height := w.elevation,
                                latitude := w.latitude, longitude := w.longitude))
  {
  }

  /** The coordinates of the waypoints, one each, in order. */
  function Coords(ws: seq<Waypoint>): (r: seq<Fix>)
    ensures |r| == |ws|
  {
    seq(|ws|, i requires 0 <= i < |ws| => ws[i].ToCoord())
  }

  /** A trkseg element. */
  datatype TrackSegment = TrackSegment(trackPoints: seq<Waypoint>)

  /** A trk element; its other elements are not modelled. */
  datatype Track = Track(name: string, trackSegments: seq<TrackSegment>) {
    /** The coordinates of each segment's points. */
    function SegmentCoords(): (r: seq<seq<Fix>>)
      ensures |r| == |trackSegments|
    {
      seq(|trackSegments|, i requires 0 <= i < |trackSegments| => Coords(trackSegments[i].trackPoints))
    }

    /** Fresh coordinates for the points of each segment, appended in segment order. */
    method ToCoords() returns (r: seq<Point>)
      ensures Fixes(r) == Concat(SegmentCoords())
      ensures forall i :: 0 <= i < |r| ==> fresh(r[i])
    {
      r := [];
      var i := 0;
      while i < |trackSegments|
        invariant 0 <= i <= |trackSegments|
        invariant Fixes(r) == Concat(SegmentCoords()[..i])
        invariant forall k :: 0 <= k < |r| ==> fresh(r[k])
      {
        var seg := NewPoints(Coords(trackSegments[i].trackPoints));
        FixesAppend(r, seg);
        ConcatSnoc(SegmentCoords()[..i], Fixes(seg));
        assert SegmentCoords()[..i + 1] == SegmentCoords()[..i] + [Fixes(seg)];
        r := r + seg;
        i := i + 1;
      }
      assert SegmentCoords()[..i] == SegmentCoords();
    }
  }

  /** A track has one coordinate per point of its segments, and none without segments. */
  lemma TrackLength(t: Track)
    ensures |Concat(t.SegmentCoords())| == SumLengths(t.SegmentCoords())
    ensures forall i :: 0 <= i < |t.trackSegments| ==> |t.SegmentCoords()[i]| == |t.trackSegments[i].trackPoints|
    ensures t.trackSegments == [] ==> Concat(t.SegmentCoords()) == []
  {
    ConcatLength(t.SegmentCoords());
  }

  /** An rte element; its other elements are not modelled. */
  datatype Route = Route(name: string, routePoints: seq<Waypoint>)

  /** Whether export keeps a point: neither flagged bad nor at the unknown position. */
  predicate Exported(f: Fix) {
    !f.bad && !f.IsUnknown()
  }

  /** The points export keeps, in order. */
  function Kept(fs: seq<Fix>): (r: seq<Fix>)
    ensures |r| <= |fs|
    decreases |fs|
  {
    if fs == [] then []
    else Kept(fs[..|fs| - 1]) + (if Exported(fs[|fs| - 1]) then [fs[|fs| - 1]] else [])
  }

  /** The waypoint of every point in turn; the first that cannot be written fails the whole list. */
  function WaypointsOf(fs: seq<Fix>): (r: Result<seq<Waypoint>>)
    ensures r.Ok? ==> |r.value| == |fs| && forall i :: 0 <= i < |fs| ==> FromCoord(fs[i]) == Ok(r.value[i])
    ensures r.Err? <==> exists i :: 0 <= i < |fs| && FromCoord(fs[i]).Err?
    ensures r.Err? ==> r.fault == Overflow
    decreases |fs|
  {
    if fs == [] then Ok([])
    else
      match FromCoord(fs[0])
      case Err(e) => Err(e)
      case Ok(w) =>
        match WaypointsOf(fs[1..])
        case Err(e) => Err(e)
        case Ok(ws) =>
          assert forall i :: 1 <= i < |fs| ==> fs[i] == fs[1..][i - 1];
          Ok([w] + ws)
  }

  /** The route FromGeoFile makes of a route's points: no name, and the waypoints of the kept points. */
  function RouteFor(fs: seq<Fix>): Result<Route> {
    match WaypointsOf(Kept(fs))
    case Err(e) => Err(e)
    case Ok(ws) => Ok(Route("", ws))
  }

  /** A point is kept exactly when it is in the list and exported. */
  lemma {:induction false} KeptMembers(fs: seq<Fix>, x: Fix)
    ensures x in Kept(fs) <==> x in fs && Exported(x)
    decreases |fs|
  {
    if fs != [] {
      var front := fs[..|fs| - 1];
      KeptMembers(front, x);
      assert fs == front + [fs[|fs| - 1]];
    }
  }

  /** With every point exportable, export keeps them all, in order. */
  lemma {:induction false} KeptAll(fs: seq<Fix>)
    requires forall i :: 0 <= i < |fs| ==> Exported(fs[i])
    ensures Kept(fs) == fs
    decreases |fs|
  {
    if fs != [] {
      var front := fs[..|fs| - 1];
      KeptAll(front);
      assert fs == front + [fs[|fs| - 1]];
    }
  }

  /** Export filters the two parts of a list independently. */
  lemma {:induction false} KeptConcat(a: seq<Fix>, b: seq<Fix>)
    ensures Kept(a + b) == Kept(a) + Kept(b)
    decreases |b|
  {
    if b == [] {
      assert a + b == a;
    } else {
      var front := b[..|b| - 1];
      KeptConcat(a, front);
      assert (a + b)[..|a + b| - 1] == a + front;
    }
  }

  /**
    * Reading an exported route back gives the kept points' latitude, longitude
    * and time, with no speed, altitude 0 and nothing bad.
    */
  lemma RouteRoundTrip(fs: seq<Fix>)
    requires RouteFor(fs).Ok?
    ensures Coords(RouteFor(fs).value.routePoints) ==
              seq(|Kept(fs)|, i requires 0 <= i < |Kept(fs)| => Fix(Kept(fs)[i].lat, Kept(fs)[i].lon, Zero, Kept(fs)[i].time, NaN, false))
  {
    var ks := Kept(fs);
    var ws := RouteFor(fs).value.routePoints;
    forall i | 0 <= i < |ks|
      ensures Coords(ws)[i] == Fix(ks[i].lat, ks[i].lon, Zero, ks[i].time, NaN, false)
    {
      CoordRoundTrip(ks[i]);
    }
  }

  /** A gpx document: creator, metadata name, waypoints, routes and tracks. */
  class GpxFile {
    var creator: string
    var metaDataName: string
    var waypoints: seq<Waypoint>
    var routes: seq<Route>
    var tracks: seq<Track>

    /**
      * A GeoFile named by the metadata and authored by the creator: one route per
      * GPX route, in order, then one per track, in order, each with its name and
      * fresh coordinates.
      */
    method ToGeoFile() returns (g: GeoFile)
      ensures g.name == Some(metaDataName) && g.author == Some(creator)
      ensures |g.routes| == |routes| + |tracks|
      ensures forall i :: 0 <= i < |routes| ==>
                g.routes[i].name == Some(routes[i].name) && Fixes(g.routes[i].points) == Coords(routes[i].routePoints)
      ensures forall j :: 0 <= j < |tracks| ==>
                g.routes[|routes| + j].name == Some(tracks[j].name) &&
                Fixes(g.routes[|routes| + j].points) == Concat(tracks[j].SegmentCoords())
    {
      var fromRoutes := RoutesToGeo();
      var fromTracks := TracksToGeo();
      g := GeoFile(Some(metaDataName), Some(creator), fromRoutes + fromTracks);
    }

    /** The first part of ToGeoFile: the GPX routes. */
    method RoutesToGeo() returns (r: seq<GeoRoute>)
      ensures |r| == |routes|
      ensures forall i :: 0 <= i < |routes| ==>
                r[i].name == Some(routes[i].name) && Fixes(r[i].points) == Coords(routes[i].routePoints)
    {
      r := [];
      var i := 0;
      while i < |routes|
        invariant 0 <= i <= |routes|
        invariant |r| == i
        invariant forall k :: 0 <= k < i ==>
                    r[k].name == Some(routes[k].name) && Fixes(r[k].points) == Coords(routes[k].routePoints)
      {
        var points := NewPoints(Coords(routes[i].routePoints));
        r := r + [GeoRoute(Some(routes[i].name), points)];
        i := i + 1;
      }
    }

    /** The second part of ToGeoFile: the tracks. */
    method TracksToGeo() returns (r: seq<GeoRoute>)
      ensures |r| == |tracks|
      ensures forall j :: 0 <= j < |tracks| ==>
                r[j].name == Some(tracks[j].name) && Fixes(r[j].points) == Concat(tracks[j].SegmentCoords())
    {
      r := [];
      var j := 0;
      while j < |tracks|
        invariant 0 <= j <= |tracks|
        invariant |r| == j
        invariant forall k :: 0 <= k < j ==>
                    r[k].name == Some(tracks[k].name) && Fixes(r[k].points) == Concat(tracks[k].SegmentCoords())
      {
        var points := tracks[j].ToCoords();
        r := r + [GeoRoute(Some(tracks[j].name), points)];
        j := j + 1;
      }
    }

    /**
      * Replaces the routes with one route per GeoFile route, in order, holding
      * the waypoints of the points that are neither bad nor unknown. A point that
      * cannot be written throws, and the routes are then left as they were.
      */
    method FromGeoFile(file: GeoFile) returns (r: Result<bool>)
      modifies this`routes
      ensures r.Err? <==> exists i :: 0 <= i < |file.routes| && RouteFor(Fixes(file.routes[i].points)).Err?
      ensures r.Err? ==> r.fault == Overflow && routes == old(routes)
      ensures r.Ok? ==> r.value && |routes| == |file.routes|
      ensures r.Ok? ==> forall i :: 0 <= i < |file.routes| ==> RouteFor(Fixes(file.routes[i].points)) == Ok(routes[i])
    {
      var built: seq<Route> := [];
      var i := 0;
      while i < |file.routes|
        invariant 0 <= i <= |file.routes|
        invariant |built| == i
        invariant forall k :: 0 <= k < i ==> RouteFor(Fixes(file.routes[k].points)) == Ok(built[k])
      {
        var route := RouteFor(Fixes(file.routes[i].points));
        if route.Err? {
          return Err(route.fault);
        }
        built := built + [route.value];
        i := i + 1;
      }
      routes := built;
      r := Ok(true);
    }
  }
}
