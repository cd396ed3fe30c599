/**
  * GeoFile and GeoFileRoute: the format-neutral document the adapters convert
  * to and from. A route holds the point objects themselves, so the adapters and
  * TrackHelper can share them.
  */
module GeoFiles {
  import opened Wrappers
  import opened Geo

  /** A route's name (null when never set) and its ordered points. */
  datatype GeoRoute = GeoRoute(name: Option<string>, points: seq<Point>)

  /** The file's name and author (null when never set) and its routes. */
  datatype GeoFile = GeoFile(name: Option<string>, author: Option<string>, routes: seq<GeoRoute>)
}
