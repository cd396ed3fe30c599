/**
  * The older revision of TrackHelper. Its CalculateSpeeds and
  * CalculateTotalDistance do what the current ones do, so the model has them
  * once, in TrackHelper; its TotalTime reads the speeds already stored in the
  * points and changes nothing. The current TotalTime is this one after a
  * CalculateSpeeds.
  */
module LegacyTrackHelper {
  import opened Wrappers
  import opened Geo
  import opened Speeds

  /**
    * The span from the first point to the last (ActualTime), or the spans into
    * the points whose stored speed is above zero (MovingTime). ActualTime of an
    * empty list indexes outside it.
    */
  method TotalTime(points: seq<Point>, timeCalculationType: TimeCalculationType) returns (r: Result<int>)
    ensures r == TotalTimeOf(Fixes(points), timeCalculationType)
  {
    match timeCalculationType
    case ActualTime =>
      if |points| == 0 {
        r := Err(ArgumentOutOfRange);
      } else {
        r := Ok(points[|points| - 1].time - points[0].time);
      }
    case MovingTime =>
      ghost var fs := Fixes(points);
      var result := 0;
      var coordId := 1;
      while coordId < |points|
        invariant 1 <= coordId && (coordId <= |points| || |points| == 0)
        invariant |points| == 0 ==> result == 0
        invariant |points| == 0 || result == MovingTicks(fs[..coordId])
      {
        assert fs[..coordId + 1][..coordId] == fs[..coordId];
        if points[coordId].speed.IsPositive() {
          result := result + (points[coordId].time - points[coordId - 1].time);
        }
        coordId := coordId + 1;
      }
      if |points| > 0 {
        assert fs[..coordId] == fs;
      }
      r := Ok(result);
  }
}
