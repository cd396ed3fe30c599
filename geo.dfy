/**
  * The track point (GeoCoordinateExtended): a fix with time, speed and a
  * bad-coordinate flag, the constants of the metric grid, and the two external
  * capabilities the engine consumes, great-circle distance and cosine.
  */
module Geo {
  import opened Ieee
  import opened Grid

  /** TrackHelper.EarthRadius: metres in one full turn of the earth. */
  const EarthRadius: real := 40010040.0

  /** TrackHelper.LatitudeDistance: metres in one degree of latitude. */
  const LatitudeDistance: real := EarthRadius / 360.0

  /** DateTime.MinValue, in ticks. Times and time spans are counted in ticks. */
  const MinTime: int := 0

  const TicksPerSecond: int := 10000000

  datatype LatLon = LatLon(lat: real, lon: real)

  type Metric = f: (LatLon, LatLon) -> real | forall a, b :: f(a, b) >= 0.0
    witness (a: LatLon, b: LatLon) => 0.0

  /**
    * GetDistanceTo of the external coordinate type, in metres. Nothing is known
    * of it beyond being non-negative; it reads latitude and longitude only.
    */
  const GreatCircle: Metric

  type Cosine = f: real -> real | forall x :: -1.0 <= f(x) <= 1.0 && f(x) != 0.0
    witness (x: real) => 1.0

  /**
    * Math.Cos on a finite argument, in radians. Nothing is known of it beyond its
    * range; it is never exactly zero, as no binary64 argument has a zero cosine.
    */
  const Cos: Cosine

  /** The value of a point: every field GeoCoordinateExtended's methods read or write. */
  datatype Fix = Fix(lat: Double, lon: Double, alt: Double, time: int, speed: Double, bad: bool) {

    /** GetDistanceTo throws for a NaN latitude or longitude; these are the fixes it accepts. */
    predicate Located() {
      lat.Finite? && lon.Finite?
    }

    /** GeoCoordinate.IsUnknown: both latitude and longitude are NaN. */
    predicate IsUnknown() {
      lat.NaN? && lon.NaN?
    }
  }

  function Distance(a: Fix, b: Fix): (d: real)
    requires a.Located() && b.Located()
    ensures d >= 0.0
  {
    GreatCircle(LatLon(a.lat.v, a.lon.v), LatLon(b.lat.v, b.lon.v))
  }

  /** TimeSpan.TotalSeconds of a span of `ticks`. */
  function TotalSeconds(ticks: int): real {
    ticks as real / TicksPerSecond as real
  }

  /** The speed CalculateSpeed gives `f` from `previous`: metres over seconds, as a double division. */
  function SpeedFrom(f: Fix, previous: Fix): Double
    requires f.Located() && previous.Located()
  {
    Div(Finite(Distance(f, previous)), Finite(TotalSeconds(f.time - previous.time)))
  }

  /**
    * `EarthRadius * Math.Cos(lat) / 360.0`: metres in one degree of longitude, the
    * degrees handed to Cos as radians. Cos of NaN or an infinity is NaN, and NaN
    * propagates through the product and the quotient.
    */
  function LongitudeDistance(lat: Double): Double {
    if lat.Finite? then Finite(MetresPerDegree(lat.v)) else NaN
  }

  /** Metres in one degree of longitude at a finite latitude; never zero, as the cosine is not. */
  function MetresPerDegree(lat: real): (d: real)
    ensures d != 0.0
  {
    EarthRadius * Cos(lat) / 360.0
  }

  /** At a finite latitude, the metres in a degree of longitude are finite and not zero. */
  lemma LongitudeDistanceFinite(lat: Double)
    requires lat.Finite?
    ensures LongitudeDistance(lat) == Finite(MetresPerDegree(lat.v))
  {
  }

  /** `meters * Math.Round(x * scale / meters)`: `x` in metres, rounded to a whole number of grid steps. */
  function SnapToGrid(x: Double, scale: Double, meters: real): Double {
    Mul(Finite(meters), Round(Div(Mul(x, scale), Finite(meters))))
  }

  /** `x` converted to metres at `scale`, rounded to the grid and converted back at `newScale`. */
  function SnapBy(x: Double, scale: Double, newScale: Double, meters: real): Double {
    Div(SnapToGrid(x, scale, meters), newScale)
  }

  /**
    * The value of a point after Round(meters): latitude and then longitude are
    * converted to metres, rounded to a multiple of `meters` and converted back,
    * the longitude with the metres per degree at the new latitude.
    */
  function Snapped(f: Fix, meters: real): Fix {
    var lat := SnapBy(f.lat, Finite(LatitudeDistance), Finite(LatitudeDistance), meters);
    f.(lat := lat, lon := SnapBy(f.lon, LongitudeDistance(f.lat), LongitudeDistance(lat), meters))
  }

  /** GeoCoordinateExtended: a coordinate object whose fields the engine updates in place. */
  class Point {
    var lat: Double
    var lon: Double
    var alt: Double
    var time: int
    var speed: Double
    var bad: bool

    function Value(): Fix
      reads this
    {
      Fix(lat, lon, alt, time, speed, bad)
    }

    /** The parameterless constructor: unknown position, NaN altitude and speed, time MinValue, not bad. */
    constructor ()
      ensures Value() == Fix(NaN, NaN, NaN, MinTime, NaN, false)
    {
      lat, lon, alt, time, speed, bad := NaN, NaN, NaN, MinTime, NaN, false;
    }

    /** The four-argument constructor: the given position, altitude and time; speed NaN, not bad. */
    constructor Timed(latitude: Double, longitude: Double, altitude: Double, t: int)
      ensures Value() == Fix(latitude, longitude, altitude, t, NaN, false)
    {
      lat, lon, alt, time, speed, bad := latitude, longitude, altitude, t, NaN, false;
    }

    /** The three-argument constructor: the given position and altitude; time MinValue, speed NaN, not bad. */
    constructor Placed(latitude: Double, longitude: Double, altitude: Double)
      ensures Value() == Fix(latitude, longitude, altitude, MinTime, NaN, false)
    {
      lat, lon, alt, time, speed, bad := latitude, longitude, altitude, MinTime, NaN, false;
    }

    /** Sets this point's speed from `previous`; nothing else changes, `previous` included. */
    method CalculateSpeed(previous: Point)
      requires Value().Located() && previous.Value().Located()
      modifies this`speed
      ensures Value() == old(Value()).(speed := SpeedFrom(old(Value()), old(previous.Value())))
      ensures previous != this ==> previous.Value() == old(previous.Value())
    {
      var distance := Distance(Value(), previous.Value());
      var seconds := TotalSeconds(time - previous.time);
      speed := Div(Finite(distance), Finite(seconds));
    }

    /** Snaps this point to a grid of `meters`, changing latitude and longitude only, and returns this point. */
    method Round(meters: real) returns (r: Point)
      modifies this`lat, this`lon
      ensures r == this
      ensures Value() == Snapped(old(Value()), meters)
    {
      var oldLongitudeDistance := LongitudeDistance(lat);
      lat := Div(SnapToGrid(lat, Finite(LatitudeDistance), meters), Finite(LatitudeDistance));
      lon := Div(SnapToGrid(lon, oldLongitudeDistance, meters), LongitudeDistance(lat));
      r := this;
    }
  }

  /** The values of a list of points, index by index. */
  function Fixes(ps: seq<Point>): (fs: seq<Fix>)
    reads ps
    ensures |fs| == |ps|
    ensures forall i :: 0 <= i < |ps| ==> fs[i] == ps[i].Value()
  {
    seq(|ps|, i reads ps requires 0 <= i < |ps| => ps[i].Value())
  }

  /** The lists of `tracks` one after another, as repeated AddRange does. */
  function Concat<T>(tracks: seq<seq<T>>): (fs: seq<T>)
    ensures tracks == [] ==> fs == []
  {
    if tracks == [] then [] else tracks[0] + Concat(tracks[1..])
  }

  /** One more list appended: the step of an AddRange loop. */
  lemma {:induction false} ConcatSnoc<T>(tracks: seq<seq<T>>, t: seq<T>)
    ensures Concat(tracks + [t]) == Concat(tracks) + t
    decreases |tracks|
  {
    if tracks == [] {
      assert [t][1..] == [];
    } else {
      assert (tracks + [t])[1..] == tracks[1..] + [t];
      ConcatSnoc(tracks[1..], t);
    }
  }

  /** The total length of the lists of `tracks`. */
  function SumLengths<T>(tracks: seq<seq<T>>): nat {
    if tracks == [] then 0 else |tracks[0]| + SumLengths(tracks[1..])
  }

  /** Appending the lists gives a list as long as all of them together. */
  lemma {:induction false} ConcatLength<T>(tracks: seq<seq<T>>)
    ensures |Concat(tracks)| == SumLengths(tracks)
    decreases |tracks|
  {
    if tracks != [] {
      ConcatLength(tracks[1..]);
    }
  }

  /** No point object occurs twice in the list. */
  predicate Distinct(ps: seq<Point>) {
    forall i, j :: 0 <= i < j < |ps| ==> ps[i] != ps[j]
  }

  /** Two lists of distinct points that share no point can be appended. */
  lemma DistinctAppend(a: seq<Point>, b: seq<Point>)
    requires Distinct(a) && Distinct(b)
    requires forall i, j :: 0 <= i < |a| && 0 <= j < |b| ==> a[i] != b[j]
    ensures Distinct(a + b)
  {
    forall i, j | 0 <= i < j < |a| + |b|
      ensures (a + b)[i] != (a + b)[j]
    {
      if j < |a| {
        assert (a + b)[i] == a[i] && (a + b)[j] == a[j];
      } else if i < |a| {
        assert (a + b)[i] == a[i] && (a + b)[j] == b[j - |a|];
      } else {
        assert (a + b)[i] == b[i - |a|] && (a + b)[j] == b[j - |a|];
      }
    }
  }

  /** The values of a list with one point in front. */
  lemma FixesPrepend(p: Point, ps: seq<Point>)
    ensures Fixes([p] + ps) == [p.Value()] + Fixes(ps)
  {
    FixesAppend([p], ps);
    assert Fixes([p]) == [p.Value()];
  }

  /** The values of two lists appended. */
  lemma FixesAppend(a: seq<Point>, b: seq<Point>)
    ensures Fixes(a + b) == Fixes(a) + Fixes(b)
  {
    var l := Fixes(a + b);
    var r := Fixes(a) + Fixes(b);
    forall i | 0 <= i < |l|
      ensures l[i] == r[i]
    {
      if i < |a| {
        assert (a + b)[i] == a[i];
      } else {
        assert (a + b)[i] == b[i - |a|];
      }
    }
  }

  /** The values of a list with one point at the end. */
  lemma FixesSnoc(ps: seq<Point>, p: Point)
    ensures Fixes(ps + [p]) == Fixes(ps) + [p.Value()]
  {
    FixesAppend(ps, [p]);
    assert Fixes([p]) == [p.Value()];
  }

  /** A point not in a list of distinct points can go in front of it. */
  lemma DistinctPrepend(p: Point, ps: seq<Point>)
    requires p !in ps && Distinct(ps)
    ensures Distinct([p] + ps)
  {
    forall i, j | 0 <= i < j < |ps| + 1
      ensures ([p] + ps)[i] != ([p] + ps)[j]
    {
      if i == 0 {
        assert ([p] + ps)[j] == ps[j - 1];
      } else {
        assert ([p] + ps)[i] == ps[i - 1] && ([p] + ps)[j] == ps[j - 1];
      }
    }
  }

  /**
    * Fresh point objects holding `fs`: what a default construction followed by
    * setting every property gives, as the JSON round trip of Clone and the
    * adapters' constructions do.
    */
  method NewPoints(fs: seq<Fix>) returns (ps: seq<Point>)
    ensures Fixes(ps) == fs
    ensures Distinct(ps)
    ensures forall i :: 0 <= i < |ps| ==> fresh(ps[i])
  {
    ps := [];
    var i := 0;
    while i < |fs|
      invariant 0 <= i <= |fs|
      invariant |ps| == i
      invariant forall k :: 0 <= k < i ==> ps[k].Value() == fs[k]
      invariant Distinct(ps)
      invariant forall i :: 0 <= i < |ps| ==> fresh(ps[i])
    {
      var p := new Point();
      p.lat, p.lon, p.alt, p.time, p.speed, p.bad := fs[i].lat, fs[i].lon, fs[i].alt, fs[i].time, fs[i].speed, fs[i].bad;
      ps := ps + [p];
      i := i + 1;
    }
  }

  lemma DivFinite(a: real, b: real)
    requires b != 0.0
    ensures Div(Finite(a), Finite(b)) == Finite(a / b)
  {
  }

  lemma SnapToGridFinite(x: Double, scale: Double, meters: real)
    requires x.Finite? && scale.Finite? && meters != 0.0
    ensures SnapToGrid(x, scale, meters) == Finite(GridMeters(ToMetres(x.v, scale.v), meters))
  {
    var a := ToMetres(x.v, scale.v);
    assert Mul(x, scale) == Finite(a);
    assert Div(Finite(a), Finite(meters)) == Finite(a / meters);
    assert Round(Finite(a / meters)) == Finite(RoundHalfEven(a / meters) as real);
  }

  /** On finite values and a non-zero grid and scale, SnapBy is GridMeters converted back. */
  lemma SnapByFinite(x: Double, scale: Double, newScale: Double, meters: real)
    requires x.Finite? && scale.Finite? && newScale.Finite? && newScale.v != 0.0 && meters != 0.0
    ensures SnapBy(x, scale, newScale, meters)
         == Finite(FromMetres(GridMeters(ToMetres(x.v, scale.v), meters), newScale.v))
  {
    SnapToGridFinite(x, scale, meters);
    DivFinite(GridMeters(ToMetres(x.v, scale.v), meters), newScale.v);
  }

  /** After SnapBy, the value in metres at the new scale is the grid multiple for the old metres. */
  lemma SnapByOnGrid(x: Double, scale: Double, newScale: Double, meters: real)
    requires x.Finite? && scale.Finite? && newScale.Finite? && newScale.v != 0.0 && meters != 0.0
    ensures SnapBy(x, scale, newScale, meters).Finite?
    ensures ToMetres(SnapBy(x, scale, newScale, meters).v, newScale.v) == GridMeters(ToMetres(x.v, scale.v), meters)
  {
    SnapByFinite(x, scale, newScale, meters);
    GridMetersBack(ToMetres(x.v, scale.v), newScale.v, meters);
  }

  /** A second SnapBy at the scale the first converted back with changes nothing. */
  lemma SnapByIdempotent(x: Double, scale: Double, newScale: Double, meters: real)
    requires x.Finite? && scale.Finite? && newScale.Finite? && newScale.v != 0.0 && meters != 0.0
    ensures SnapBy(SnapBy(x, scale, newScale, meters), newScale, newScale, meters) == SnapBy(x, scale, newScale, meters)
  {
    var y := SnapBy(x, scale, newScale, meters);
    SnapByFinite(x, scale, newScale, meters);
    SnapByFinite(y, newScale, newScale, meters);
    GridMetersBack(ToMetres(x.v, scale.v), newScale.v, meters);
  }

  /**
    * After Round, latitude in metres is the multiple of `meters` GridMeters picks
    * for the old latitude in metres: the nearest one, within half a grid step
    * (Grid.GridMetersNearest, Grid.GridMetersWithinHalfStep).
    */
  lemma SnappedLatitudeOnGrid(f: Fix, meters: real)
    requires f.lat.Finite? && meters != 0.0
    ensures Snapped(f, meters).lat.Finite?
    ensures ToMetres(Snapped(f, meters).lat.v, LatitudeDistance) == GridMeters(ToMetres(f.lat.v, LatitudeDistance), meters)
  {
    SnapByOnGrid(f.lat, Finite(LatitudeDistance), Finite(LatitudeDistance), meters);
  }

  /**
    * After Round, longitude in metres at the NEW latitude is the multiple of
    * `meters` GridMeters picks for the old longitude in metres at the OLD latitude.
    */
  lemma SnappedLongitudeOnGrid(f: Fix, meters: real)
    requires f.Located() && meters != 0.0
    ensures Snapped(f, meters).Located()
    ensures ToMetres(Snapped(f, meters).lon.v, MetresPerDegree(Snapped(f, meters).lat.v))
         == GridMeters(ToMetres(f.lon.v, MetresPerDegree(f.lat.v)), meters)
  {
    var lat := Snapped(f, meters).lat;
    SnappedLatitudeOnGrid(f, meters);
    LongitudeDistanceFinite(f.lat);
    LongitudeDistanceFinite(lat);
    SnapByOnGrid(f.lon, LongitudeDistance(f.lat), LongitudeDistance(lat), meters);
  }

  /** Round with a zero grid, or of a NaN latitude, gives NaN; a NaN longitude stays NaN. */
  lemma SnappedUndefined(f: Fix, meters: real)
    ensures meters == 0.0 ==> Snapped(f, meters).lat.NaN? && Snapped(f, meters).lon.NaN?
    ensures f.lat.NaN? ==> Snapped(f, meters).lat.NaN? && Snapped(f, meters).lon.NaN?
    ensures f.lon.NaN? ==> Snapped(f, meters).lon.NaN?
  {
  }

  /** A point already on the grid stays where it is: rounding twice is rounding once. */
  lemma SnappedIdempotent(f: Fix, meters: real)
    requires f.Located() && meters != 0.0
    ensures Snapped(Snapped(f, meters), meters) == Snapped(f, meters)
  {
    var ld := Finite(LatitudeDistance);
    var lat := SnapBy(f.lat, ld, ld, meters);
    SnapByFinite(f.lat, ld, ld, meters);
    SnapByIdempotent(f.lat, ld, ld, meters);
    LongitudeDistanceFinite(f.lat);
    LongitudeDistanceFinite(lat);
    SnapByFinite(f.lon, LongitudeDistance(f.lat), LongitudeDistance(lat), meters);
    SnapByIdempotent(f.lon, LongitudeDistance(f.lat), LongitudeDistance(lat), meters);
  }
}
