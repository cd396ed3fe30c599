# TNDStudios.Spatial track engine in Dafny

This project models the track analytics engine of TNDStudios.Spatial and the
format adapters that feed it.

The engine is `TrackHelper`, a set of extension methods over an ordered list of
`GeoCoordinateExtended` points. A point is a fix with a time, a speed and a
bad-coordinate flag. The engine can:

- infill bad positions from the last good one;
- compute per-point speeds, the total distance, and the actual and moving time;
- cut the non-moving intervals out of the timeline;
- snap points to a metre grid and score how much two tracks overlap;
- split a track at a time offset;
- merge tracks into one timeline.

The older revision of `TrackHelper` is modelled too. Its `TotalTime` reads the
speeds already stored and does not recompute them.

The adapters covered are:

- TCX: track point, track, activity and file, including the bad (0, 0) fix of
  a track point without a position and the two rounds of infill;
- GPX: waypoint, track and file, including the removal of bad and unknown
  points on export.

## How the model is built

- **Points are objects.** `Geo.Point` is a class holding the fields the engine
  reads and writes. `Point.Value()` gives its state as a `Fix` value, and
  `Geo.Fixes` gives the values of a whole list. Every in-place operation
  (InfillPositions, CalculateSpeeds, Merge's speed reset, the time rewrite of
  RemoveNotMoving, Round on a point) is a method with a `modifies` clause. Its
  `ensures` ties the new values to a function of the old ones.
- **Specification functions.** These hold what the operations mean:
  - `Infill.Infilled`
  - `Speeds.WithSpeeds`, `Speeds.SumDistances`, `Speeds.TotalTimeOf`
  - `NotMoving.Cleaned`
  - `Similarity.DeltaOf`, `Similarity.CompareOf`
  - `Splitting.Part`
  - `Ordering.Merged`

  The lemmas beside them prove the properties the source promises.
- **Doubles.** `Ieee.Double` is NaN, an infinity, or a finite real. `Mul` and
  `Div` follow the IEEE special cases the code runs into: x/0, 0/0 and NaN
  propagation. `Math.Round(x, 0)` rounds half to even.
- **Times.** `DateTime` and `TimeSpan` are whole ticks. `DateTime.MinValue`
  is 0.
- **Outside functions.** `GetDistanceTo` of the external coordinate type is an
  uninterpreted non-negative metric on latitude and longitude. `Math.Cos` is an
  uninterpreted function into [-1, 1] that is never exactly 0. Calling
  `GetDistanceTo` on a NaN coordinate throws, so it is a precondition.
- **Exceptions.** An exception the code raises on some input is an `Err`
  result:
  - an index outside an empty list gives `ArgumentOutOfRange`;
  - `(decimal)NaN` or `(decimal)∞` gives `Overflow`.

## Model

| member | source | states |
|---|---|---|
| Geo.Point.constructor | src/Spatial.Core/Documents/GeoFile/GeoCoordinateExtended.cs:13-26 | A new point has an unknown (NaN) position, NaN altitude and speed, time DateTime.MinValue, and is not bad |
| Geo.Point.Timed | src/Spatial.Core/Documents/GeoFile/GeoCoordinateExtended.cs:28-31 | The four-argument constructor stores position, altitude and time; the speed is NaN and the point is not bad |
| Geo.Point.Placed | src/Spatial.Core/Documents/GeoFile/GeoCoordinateExtended.cs:33-35 | The three-argument constructor stores position and altitude; the time stays MinValue |
| Geo.Point.CalculateSpeed | src/Spatial.Core/Documents/GeoFile/GeoCoordinateExtended.cs:41-46 | Only this point's speed changes, to distance over elapsed seconds as a double division; `previous` is unchanged |
| Geo.Point.Round | src/Spatial.Core/Documents/GeoFile/GeoCoordinateExtended.cs:52-65 | Only latitude and longitude change, to the snapped values; altitude, time, speed and flag are kept and the same object is returned |
| Geo.Distance | src/Spatial.Core/Documents/GeoFile/GeoCoordinateExtended.cs:43 | The distance between two located points is never negative |
| Geo.MetresPerDegree | src/Spatial.Core/Documents/GeoFile/GeoCoordinateExtended.cs:56 | Definition of `EarthRadius * Math.Cos(lat) / 360.0` with the degrees passed as radians; it is never zero only because the modelled cosine is taken never to be 0 |
| Geo.SnappedLatitudeOnGrid | src/Spatial.Core/Documents/GeoFile/GeoCoordinateExtended.cs:55-61 | After Round, latitude in metres is the grid multiple GridMeters picks for the old latitude in metres |
| Geo.SnappedLongitudeOnGrid | src/Spatial.Core/Documents/GeoFile/GeoCoordinateExtended.cs:56-62 | After Round, longitude in metres at the new latitude's cosine is the grid multiple for the old longitude in metres at the old latitude's cosine |
| Geo.SnappedIdempotent | src/Spatial.Core/Documents/GeoFile/GeoCoordinateExtended.cs:55-62 | On a located point and a non-zero grid, rounding a rounded point changes nothing |
| Geo.SnappedUndefined | src/Spatial.Core/Documents/GeoFile/GeoCoordinateExtended.cs:55-62 | A zero grid or a NaN latitude makes both coordinates NaN; a NaN longitude stays NaN |
| Geo.SnapByIdempotent | src/Spatial.Core/Documents/GeoFile/GeoCoordinateExtended.cs:58-62 | Converting to metres, snapping and converting back is idempotent at a fixed scale |
| Geo.NewPoints | src/Spatial.Core/Helpers/TrackHelper.cs:160-161 | The fresh, pairwise distinct point objects a copy produces hold exactly the given values |
| Grid.GridMetersWithinHalfStep | src/Spatial.Core/Documents/GeoFile/GeoCoordinateExtended.cs:58 | The snapped value is within half a grid step of the original metres |
| Grid.GridMetersNearest | src/Spatial.Core/Documents/GeoFile/GeoCoordinateExtended.cs:58 | No multiple of the grid step is closer to the original metres than the snapped value |
| Grid.GridMetersTie | src/Spatial.Core/Documents/GeoFile/GeoCoordinateExtended.cs:58 | Halfway between two multiples, the even multiple is taken |
| Grid.GridMetersOfMultiple | src/Spatial.Core/Documents/GeoFile/GeoCoordinateExtended.cs:58 | A multiple of the grid step snaps to itself |
| Grid.GridMetersIdempotent | src/Spatial.Core/Documents/GeoFile/GeoCoordinateExtended.cs:58 | Snapping a snapped value changes nothing |
| Grid.GridMetersBack | src/Spatial.Core/Documents/GeoFile/GeoCoordinateExtended.cs:58-62 | Converting a snapped value back to degrees and to metres again gives the same grid multiple |
| Ieee.RoundHalfEven | src/Spatial.Core/Documents/GeoFile/GeoCoordinateExtended.cs:58 | Math.Round(x, 0) lies within 0.5 of x |
| Ieee.RoundHalfEvenNearest | src/Spatial.Core/Documents/GeoFile/GeoCoordinateExtended.cs:58 | No integer is closer to x than Math.Round(x, 0) |
| Ieee.RoundHalfEvenTie | src/Spatial.Core/Documents/GeoFile/GeoCoordinateExtended.cs:58 | A tie rounds to the even integer |
| Ieee.RoundHalfEvenOfInteger | src/Spatial.Core/Documents/GeoFile/GeoCoordinateExtended.cs:58 | An integer rounds to itself |
| TrackHelper.InfillPositions | src/Spatial.Core/Helpers/TrackHelper.cs:19-41 | Updates the points in place to the infilled values of the old ones and returns the same list |
| Infill.InfillShape | src/Spatial.Core/Helpers/TrackHelper.cs:19-41 | Infill keeps the length, every time and every speed, and leaves every good point as it was |
| Infill.InfillTakesLastGood | src/Spatial.Core/Helpers/TrackHelper.cs:29-37 | A bad point after a good one takes latitude, longitude and altitude of the latest good point before it and is no longer bad |
| Infill.InfillBad | src/Spatial.Core/Helpers/TrackHelper.cs:21-37 | A point is still bad after infill exactly when it and every point before it were bad |
| Infill.InfillNoBad | src/Spatial.Core/Helpers/TrackHelper.cs:25-28 | With no bad point, infill changes nothing |
| Infill.InfillIdempotent | src/Spatial.Core/Helpers/TrackHelper.cs:19-41 | A second infill changes nothing |
| Infill.InfillSnoc | src/Spatial.Core/Helpers/TrackHelper.cs:22-37 | One more point infilled is one more step from the last good position so far |
| Infill.InfillTracks | Spatial.Package/Documents/TCX/TCXActivity.cs:37-43 | Infilling each lap and then the concatenation equals infilling the concatenation of the raw laps |
| TrackHelper.CalculateSpeeds | src/Spatial.Core/Helpers/TrackHelper.cs:43-58 | Updates the points in place to the speeds of WithSpeeds and returns the same list |
| Speeds.SpeedsOnlyChangeSpeed | src/Spatial.Core/Helpers/TrackHelper.cs:43-58 | CalculateSpeeds changes speeds only: positions, altitudes, times and flags are untouched |
| Speeds.SpeedAtUnsped | TNDStudios.Spatial/Helpers/TrackHelper.cs:10-25 | The older CalculateSpeeds, with the same loop, touches nothing of a point but its speed |
| Speeds.SpeedStep | src/Spatial.Core/Helpers/TrackHelper.cs:49-53 | The speed taken from a predecessor whose own speed was just set equals the one from the original predecessor |
| Speeds.SpeedsIdempotent | src/Spatial.Core/Helpers/TrackHelper.cs:43-58 | A second CalculateSpeeds changes nothing |
| Speeds.SpeedsIgnoreOldSpeeds | src/Spatial.Core/Helpers/TrackHelper.cs:47-55 | Speeds from index 2 on do not depend on the speeds stored before |
| Speeds.SpeedFromPositive | src/Spatial.Core/Documents/GeoFile/GeoCoordinateExtended.cs:41-46 | A step that takes time and covers ground gets a speed above zero |
| Speeds.SpeedFromNegative | src/Spatial.Core/Documents/GeoFile/GeoCoordinateExtended.cs:43-45 | A step back in time between two different places gives a negative speed, the value on which the Speed setter throws |
| Speeds.SpeedFromNotNegative | src/Spatial.Core/Documents/GeoFile/GeoCoordinateExtended.cs:43-45 | A step that does not go back in time never gives a negative speed |
| Speeds.SpeedsNeverNegative | src/Spatial.Core/Helpers/TrackHelper.cs:47-55 | On times in order, with no negative speed stored, CalculateSpeeds stores no negative speed: there the setter's exception cannot occur |
| TrackHelper.CalculateTotalDistance | src/Spatial.Core/Helpers/TrackHelper.cs:60-72 | The loop returns the sum of distances between consecutive points |
| Speeds.SumDistances | src/Spatial.Core/Helpers/TrackHelper.cs:60-72 | The total distance is never negative, and is 0 for fewer than two points |
| Speeds.SumDistancesAppend | src/Spatial.Core/Helpers/TrackHelper.cs:66-69 | The total of two joined lists is both totals plus the distance across the join |
| Speeds.SumDistancesIgnoreSpeeds | TNDStudios.Spatial/Helpers/TrackHelper.cs:27-39 | The total distance does not depend on speeds; the older CalculateTotalDistance has the same loop |
| TrackHelper.TotalTime | src/Spatial.Core/Helpers/TrackHelper.cs:81-110 | First recomputes the speeds in place on the caller's points, then gives the time of the recomputed list |
| LegacyTrackHelper.TotalTime | TNDStudios.Spatial/Helpers/TrackHelper.cs:48-73 | Without changing any point, gives the time of the speeds already stored: an index fault when asked for ActualTime on an empty list |
| Speeds.TotalTimeOf | src/Spatial.Core/Helpers/TrackHelper.cs:88-107 | It fails exactly when ActualTime is asked of an empty list, and then with ArgumentOutOfRange |
| Speeds.TotalTimeOrdered | src/Spatial.Core/Helpers/TrackHelper.cs:88-107 | On times in order, both times are defined and 0 ≤ moving time ≤ actual time |
| Speeds.MovingWithinElapsed | src/Spatial.Core/Helpers/TrackHelper.cs:97-104 | On times in order, the moving time lies between 0 and the actual time |
| Speeds.MovingWhenStill | TNDStudios.Spatial/Helpers/TrackHelper.cs:61-67 | With no stored speed above zero after the first point, the moving time is 0 |
| Speeds.MovingWhenAlwaysMoving | src/Spatial.Core/Helpers/TrackHelper.cs:97-104 | With every speed after the first above zero, the moving time is the actual time |
| Speeds.MovingAllButFirst | src/Spatial.Core/Helpers/TrackHelper.cs:97-104 | With every speed above zero but the second's, the moving time misses exactly the first step |
| Speeds.FirstStepNeverMoving | src/Spatial.Core/Helpers/TrackHelper.cs:47-55 | As written: on a track that always moves but whose second speed is not above zero, the moving time is short by the first step |
| Speeds.IntendedSpeedsMovingTime | src/Spatial.Core/Helpers/TrackHelper.cs:47-55 | Corrected: with the second point's speed computed too, a track that always moves has moving time equal to its actual time |
| TrackHelper.RemoveNotMoving | src/Spatial.Core/Helpers/TrackHelper.cs:117-153 | An empty list is an index fault; otherwise the input is unchanged and the result is fresh, distinct points holding the cleaned values |
| TrackHelper.Clone | src/Spatial.Core/Helpers/TrackHelper.cs:160-161 | Fresh, distinct points with the same values |
| TrackHelper.MovingIntervals | src/Spatial.Core/Helpers/TrackHelper.cs:124-134 | The first loop records, for each point after the first whose speed is not 0, the span from its predecessor and the point object itself |
| TrackHelper.ReplayIntervals | src/Spatial.Core/Helpers/TrackHelper.cs:137-146 | The second loop retimes the recorded points to the start time plus the spans so far and puts them after the first point |
| NotMoving.MovingIndicesSpec | src/Spatial.Core/Helpers/TrackHelper.cs:124-134 | The kept indices are increasing, after the first point, and are exactly those whose speed passes the test |
| NotMoving.RecordedAt | src/Spatial.Core/Helpers/TrackHelper.cs:127-130 | The k-th recorded interval is the k-th kept point with the span from its predecessor |
| NotMoving.CleanedLength | src/Spatial.Core/Helpers/TrackHelper.cs:121-134 | The output has 1 + the number of later points whose recomputed speed is not 0 |
| NotMoving.CleanedFirst | src/Spatial.Core/Helpers/TrackHelper.cs:121 | The first output point is the first point, its time included |
| NotMoving.CleanedAt | src/Spatial.Core/Helpers/TrackHelper.cs:137-146 | The point after the k-th interval is the k-th kept point, in place and flag, at the first time plus the first k + 1 spans |
| NotMoving.CleanedKeepsRebuilt | src/Spatial.Core/Helpers/TrackHelper.cs:149 | The final CalculateSpeeds changes nothing but speeds |
| NotMoving.CleanedLast | src/Spatial.Core/Helpers/TrackHelper.cs:137-146 | The last output point is at the first time plus all the recorded spans |
| NotMoving.CleanedElapsed | src/Spatial.Core/Helpers/TrackHelper.cs:137-149 | The actual time of the output is the sum of the recorded spans |
| NotMoving.ReplayAt | src/Spatial.Core/Helpers/TrackHelper.cs:142-143 | The k-th replayed point carries the start time plus the first k + 1 spans |
| NotMoving.NonZeroKeepsStillTime | src/Spatial.Core/Helpers/TrackHelper.cs:127 | As written: ten seconds of not moving survive cleaning, yet TotalTime finds none of them moving |
| NotMoving.CleanedPositiveElapsed | src/Spatial.Core/Helpers/TrackHelper.cs:127 | Corrected: with the `> 0` test of TotalTime, the actual time of the output equals the moving time of the input |
| NotMoving.MovingTicksAsDeltas | src/Spatial.Core/Helpers/TrackHelper.cs:97-104 | The moving time is the sum of the spans the `> 0` test would record |
| TrackHelper.Round | src/Spatial.Core/Helpers/TrackHelper.cs:169-170 | Fresh points holding each point of the input snapped to the grid, same length; the input is unchanged |
| TrackHelper.Delta | src/Spatial.Core/Helpers/TrackHelper.cs:199-211 | The snapped points that do (Matches) or do not (any other type) sit on a snapped point of the other list; the activity type is not used |
| TrackHelper.Compare | src/Spatial.Core/Helpers/TrackHelper.cs:179-190 | The share of matching points: NaN for an empty list, otherwise in [0, 1] |
| Similarity.SelectMembers | src/Spatial.Core/Helpers/TrackHelper.cs:207-209 | A point is selected exactly when it is in the list and passes the filter |
| Similarity.SelectPartition | src/Spatial.Core/Helpers/TrackHelper.cs:204-210 | Matches and differences together are a permutation of the snapped source |
| Similarity.SelectConcat | src/Spatial.Core/Helpers/TrackHelper.cs:207-209 | The filters keep order: selecting from two pieces is selecting from each |
| Similarity.SelectWithin | src/Spatial.Core/Helpers/TrackHelper.cs:207-209 | When every point has a match, Matches is the whole list and differences are empty |
| Similarity.SelectApart | src/Spatial.Core/Helpers/TrackHelper.cs:207-209 | When no point has a match, Matches is empty and differences are the whole list |
| Similarity.DeltaSelf | src/Spatial.Core/Helpers/TrackHelper.cs:199-211 | A track compared with itself matches all of its snapped points and differs in none |
| Similarity.ScoreBounds | src/Spatial.Core/Helpers/TrackHelper.cs:186-187 | In the exact-real model, `(1.0 / n) * count` with count ≤ n lies in [0, 1]: 1 when all match, 0 when none do |
| Similarity.CompareBounds | src/Spatial.Core/Helpers/TrackHelper.cs:179-190 | The score is NaN for an empty list and otherwise in [0, 1] |
| Similarity.CompareSelf | src/Spatial.Core/Helpers/TrackHelper.cs:179-190 | In the exact-real model, a non-empty track compared with itself scores 1 |
| Similarity.CompareApart | src/Spatial.Core/Helpers/TrackHelper.cs:179-190 | A track with no snapped point on the other scores 0 |
| Similarity.SelectPoints | src/Spatial.Core/Helpers/TrackHelper.cs:207-209 | The filter on point objects keeps only objects of the list, with the values the value filter selects |
| TrackHelper.Split | src/Spatial.Core/Helpers/TrackHelper.cs:220-231 | An empty list is an index fault; otherwise the two parts before and from the split time, both made of the input's objects |
| Splitting.SplitTime | src/Spatial.Core/Helpers/TrackHelper.cs:223 | Defined exactly when the list is non-empty; otherwise ArgumentOutOfRange |
| Splitting.PartMembers | src/Spatial.Core/Helpers/TrackHelper.cs:226-227 | A point is in the first part exactly when it is earlier than the split time, and in the second otherwise |
| Splitting.PartPartition | src/Spatial.Core/Helpers/TrackHelper.cs:226-227 | The two parts together are a permutation of the track, lengths adding up |
| Splitting.PartConcat | src/Spatial.Core/Helpers/TrackHelper.cs:226-227 | Each part keeps order |
| Splitting.PartOneSided | src/Spatial.Core/Helpers/TrackHelper.cs:226-227 | When all points are on one side, that part is the whole track and the other is empty |
| Splitting.PartsInOrder | src/Spatial.Core/Helpers/TrackHelper.cs:226-227 | On times in order, the first part followed by the second is the track |
| Splitting.SplitAtStart | src/Spatial.Core/Helpers/TrackHelper.cs:220-231 | On times in order, an offset of at most 0 leaves the first part empty |
| Splitting.SplitAfterEnd | src/Spatial.Core/Helpers/TrackHelper.cs:220-231 | On times in order, an offset beyond the last point leaves the second part empty |
| Splitting.PartPoints | src/Spatial.Core/Helpers/TrackHelper.cs:226-227 | The filter on point objects keeps only objects of the list, with the values of the part |
| TrackHelper.Merge | src/Spatial.Core/Helpers/TrackHelper.cs:239-245 | The input points' speeds are set to 0 in place, and the result is fresh points holding the merged values |
| TrackHelper.AddRanges | src/Spatial.Core/Helpers/TrackHelper.cs:242 | The tracks appended in order |
| TrackHelper.ClearSpeeds | src/Spatial.Core/Helpers/TrackHelper.cs:243 | Every point's speed becomes 0 and nothing else changes |
| Ordering.MergedSorted | src/Spatial.Core/Helpers/TrackHelper.cs:239-245 | The merged list has every point of all tracks, as a permutation, sorted by time, stable among equal times, with every speed 0 |
| Ordering.MergedInOrder | src/Spatial.Core/Helpers/TrackHelper.cs:244 | Tracks already in time order merge to themselves with speeds 0 |
| Ordering.SortSorted | src/Spatial.Core/Helpers/TrackHelper.cs:244 | The sort gives a sorted permutation |
| Ordering.SortStable | src/Spatial.Core/Helpers/TrackHelper.cs:244 | Points with equal times keep their order, as OrderBy does |
| Ordering.SortOfSorted | src/Spatial.Core/Helpers/TrackHelper.cs:244 | A sorted list sorts to itself |
| Ordering.InsertSorted | src/Spatial.Core/Helpers/TrackHelper.cs:244 | Inserting into a sorted list keeps it sorted |
| Ordering.InsertPermutes | src/Spatial.Core/Helpers/TrackHelper.cs:244 | Inserting adds exactly the one point |
| Ordering.SortPoints | src/Spatial.Core/Helpers/TrackHelper.cs:244 | Sorting point objects gives objects of the list, with the sorted values |
| Ordering.SortPointsPermutes | src/Spatial.Core/Helpers/TrackHelper.cs:244 | Sorting point objects is a permutation of the objects |
| Tcx.TrackPoint.ToCoord | src/Spatial.Core/Documents/TCX/TCXTrackPoint.cs:45-46 | Bad exactly without a position, and then at (0, 0); otherwise the position's latitude and longitude; altitude and time copied in both cases |
| Tcx.EmptyTrackPointCoord | src/Spatial.Core/Documents/TCX/TCXTrackPoint.cs:15-46 | A track point with no elements is a bad (0, 0) fix at altitude 0 and time MinValue |
| Tcx.Track.ToCoords | src/Spatial.Core/Documents/TCX/TCXTrack.cs:14-17 | Fresh, distinct points holding the infilled coordinates of the track points |
| Tcx.TrackKeepsTimes | src/Spatial.Core/Documents/TCX/TCXTrack.cs:14-17 | One point per track point, in order, each with its track point's time |
| Tcx.TrackKeepsPositioned | src/Spatial.Core/Documents/TCX/TCXTrack.cs:16-17 | A positioned track point keeps its own latitude, longitude and altitude |
| Tcx.TrackFillsGap | src/Spatial.Core/Documents/TCX/TCXTrack.cs:17 | A position-less track point after a positioned one takes latitude, longitude and altitude of the nearest positioned one before it |
| Tcx.TrackLeadingBad | src/Spatial.Core/Documents/TCX/TCXTrack.cs:17 | A point stays bad exactly when no track point up to it has a position, and then it is still at (0, 0) |
| Tcx.Activity.ToCoords | Spatial.Package/Documents/TCX/TCXActivity.cs:35-46 | Fresh, distinct points holding the infill of the laps' raw coordinates appended in order, whichever branch is taken |
| Tcx.Activity.LapTracks | Spatial.Package/Documents/TCX/TCXActivity.cs:37-38 | The laps' infilled tracks appended in order |
| Tcx.ActivityLength | Spatial.Package/Documents/TCX/TCXActivity.cs:37-38 | The activity has as many points as its laps have track points |
| Tcx.ActivityForShape | src/Spatial.Core/Documents/TCX/TCXFile.cs:54-95 | No id and one lap; the lap distance is the route's total distance and its other fields 0 or empty; one positioned track point per point, copying position, altitude and time |
| Tcx.RoundTrip | src/Spatial.Core/Documents/TCX/TCXFile.cs:34-95 | A route written and read back keeps every position, altitude and time, with the speed unset and no point bad |
| Tcx.TcxFile.ToGeoFile | src/Spatial.Core/Documents/TCX/TCXFile.cs:34-42 | One route per activity, in order, named by the id, holding the activity's coordinates; no file name or author |
| Tcx.TcxFile.FromGeoFile | src/Spatial.Core/Documents/TCX/TCXFile.cs:49-117 | Replaces the activities with one activity per route, in order, and returns true |
| Gpx.Waypoint.ToCoord | Spatial.Package/Documents/GPX/GPXWaypoint.cs:154-162 | Latitude, longitude, elevation and time copied; never bad or unknown, and located |
| Gpx.EmptyWaypointCoord | Spatial.Package/Documents/GPX/GPXWaypoint.cs:18-162 | A waypoint with every field at its default is a good (0, 0) fix at altitude 0 and time MinValue |
| Gpx.FromCoord | Spatial.Package/Documents/GPX/GPXWaypoint.cs:164-173 | A coordinate that cannot be converted to decimals fails with an overflow |
| Gpx.FromCoordDefined | Spatial.Package/Documents/GPX/GPXWaypoint.cs:164-173 | The conversion succeeds exactly when latitude, longitude and altitude are finite and within decimal range |
| Gpx.CoordRoundTrip | Spatial.Package/Documents/GPX/GPXWaypoint.cs:154-173 | In the exact-decimal model, a coordinate written and read back keeps latitude, longitude and time, but has altitude 0, the altitude being held as the geoid height |
| Gpx.WaypointRoundTrip | Spatial.Package/Documents/GPX/GPXWaypoint.cs:154-173 | A waypoint read and written back keeps position and time; its elevation moves to the geoid height and other fields reset |
| Gpx.Track.ToCoords | src/Spatial.Core/Documents/GPX/GPXTrack.cs:72-77 | Fresh points holding the segments' coordinates appended in order |
| Gpx.TrackLength | src/Spatial.Core/Documents/GPX/GPXTrack.cs:66-77 | As many points as the segments together, none without segments |
| Gpx.Kept | src/Spatial.Core/Documents/GPX/GPXFile.cs:93-94 | The export filter never lengthens a list |
| Gpx.KeptMembers | src/Spatial.Core/Documents/GPX/GPXFile.cs:93-94 | A point is kept exactly when it is in the list and neither bad nor unknown |
| Gpx.KeptAll | src/Spatial.Core/Documents/GPX/GPXFile.cs:93-94 | With no bad or unknown point, every point is kept |
| Gpx.KeptConcat | src/Spatial.Core/Documents/GPX/GPXFile.cs:93-94 | The filter keeps order |
| Gpx.WaypointsOf | src/Spatial.Core/Documents/GPX/GPXFile.cs:95-97 | One waypoint per point, in order, or an overflow exactly when some point cannot be converted |
| Gpx.RouteRoundTrip | src/Spatial.Core/Documents/GPX/GPXFile.cs:89-97 | Reading an exported route gives the kept points' latitude, longitude and time, with altitude 0 |
| Gpx.GpxFile.ToGeoFile | src/Spatial.Core/Documents/GPX/GPXFile.cs:53-80 | Name from the metadata and author from the creator; the routes and then the tracks, in order, with their names and coordinates |
| Gpx.GpxFile.RoutesToGeo | src/Spatial.Core/Documents/GPX/GPXFile.cs:64-69 | One route per GPX route, with its name and its waypoints' coordinates |
| Gpx.GpxFile.TracksToGeo | src/Spatial.Core/Documents/GPX/GPXFile.cs:72-77 | One route per track, with its name and its coordinates |
| Gpx.GpxFile.FromGeoFile | src/Spatial.Core/Documents/GPX/GPXFile.cs:87-102 | Replaces only the routes, with one unnamed route per GeoFile route holding the kept points; an overflow leaves the routes as they were |

## Left out

- XML (de)serialisation, the XML cleaning helpers and string time formatting
  and parsing are library code. Times are whole ticks. TCX FromGeoFile's Time
  string assignment is not modelled, so the effect of the Time setter on
  CreatedDateTime is not modelled either.
- Floating point: the DateTime range, binary64 rounding and decimal precision
  are not modelled. Double arithmetic is exact real arithmetic with IEEE
  special values, so `(1.0 / n) * count` in Compare is exactly `count / n`.
- Great-circle distance (`GetDistanceTo` of the external GeoCoordinatePortable
  type) and `Math.Cos` are uninterpreted. No property depends on their values
  beyond non-negativity and the range of the cosine. GeoCoordinatePortable is
  not part of this model. Its parameterless constructor is taken to give NaN
  latitude, longitude, altitude and speed. The range checks of its property
  setters are not modelled, so latitude and longitude are arbitrary doubles
  (the speed setter is taken up below).
- Null lists and null elements are not modelled: every list exists.
  `Interpolate`, the commented-out `ExtractedDistances`, the renderer and the
  hosting code are outside this model.
- TrackHelper.InfillPositions, TrackHelper.CalculateSpeeds and
  TrackHelper.TotalTime require the list to hold each point object at most
  once. Aliasing inside one list is not modelled.
- Geo.Point.CalculateSpeed, TrackHelper.CalculateSpeeds, TrackHelper.TotalTime,
  TrackHelper.RemoveNotMoving: the Speed setter of the external coordinate
  type throws ArgumentOutOfRangeException on a negative value, and the model
  does not. A step back in time between two different places gives a negative
  speed (Speeds.SpeedFromNegative). There the source throws, but the model
  stores the speed and carries on: TotalTime returns a value, and
  RemoveNotMoving keeps the point and adds a negative span to the rebuilt
  times. The points already updated before the throw are not modelled either.
  On a track whose times are in order no negative speed arises
  (Speeds.SpeedsNeverNegative), and there the model and the source agree.
- TrackHelper.CalculateSpeeds, TrackHelper.TotalTime and
  TrackHelper.RemoveNotMoving require every point whose speed is computed to
  have finite coordinates. TrackHelper.CalculateTotalDistance and
  Tcx.TcxFile.FromGeoFile require the same of every point of a list of two or
  more. The external distance throws on NaN coordinates, and that exception is
  not modelled.
- TrackHelper.Clone: the JSON round trip is a field-by-field value copy.
- TrackHelper.CalculateTotalDistance returns the exact real sum, not a
  rounded double.
- The older revision's point type (`Package.Documents.GeoCoordinateExtended`)
  is modelled by the current `Geo.Point`. Its CalculateSpeeds and
  CalculateTotalDistance have loops identical to the current ones, so they are
  the same members, cited against both files.
- TimeCalculationType and CompareType are datatypes. CompareType's
  `Differences` stands for every value that reaches the default branch of
  Delta. ActivityType is carried as its numeric value and not used.
- The list of (TimeSpan, point) pairs RemoveNotMoving builds is two parallel
  lists.
- TCX FromGeoFile also creates Creator, Extensions and HeartRateBpm objects,
  which are not modelled. The heart-rate values are the lap's integer fields.
  GPX waypoints keep their plain numeric and string fields; links and
  extensions are not modelled.
- Merge's `OrderBy` is a stable insertion sort on the cloned values. Any stable
  sort gives the same list.
- Decimal conversion of an out-of-range or non-finite double is an overflow.
  Within range the conversion is exact.
- The methods model the code as written. The intended behaviour behind the two
  findings below is proved about separate definitions, which the methods do not
  use.

## Findings

| source | as written | input that shows it | evidently intended | confidence | as-written member | corrected member |
|---|---|---|---|---|---|---|
| src/Spatial.Core/Helpers/TrackHelper.cs:49-54 | `if (coordId == 1) { points[0].Speed = 0; } else if (coordId > 1) …`: the second point's speed is never computed | Two located points 10 s apart at different places, as an adapter creates them (second speed NaN): MovingTime is 0 instead of 10 s | The second point gets its speed from the first, like every later point | medium, not executed | Speeds.FirstStepNeverMoving | Speeds.IntendedSpeedsMovingTime |
| src/Spatial.Core/Helpers/TrackHelper.cs:127 | RemoveNotMoving keeps a point when `Speed != 0`, which is true for NaN | `NotMoving.StaleSpeedTrack`: two fixes 10 s apart, speeds NaN; 10 s survive cleaning while TotalTime counts 0 s of moving time. This shows only together with the first row: the NaN comes from the second speed CalculateSpeeds never writes, since a computed speed on finite coordinates is NaN only over a zero span | The `Speed > 0` test of TotalTime (line 100), which the shared comment at lines 96 and 123 describes | medium, not executed | NotMoving.NonZeroKeepsStillTime | NotMoving.CleanedPositiveElapsed |
