/**
  * What TrackHelper.RemoveNotMoving computes, as functions of the point values:
  * on a copy with fresh speeds, the points after the first whose speed counts as
  * movement are kept, and their times are rebuilt from the first point's time
  * by adding up, in order, the span from each kept point's original predecessor.
  */
module NotMoving {
  import opened Ieee
  import opened Geo
  import opened Speeds

  /** Which speeds count as movement: RemoveNotMoving tests `!= 0`, TotalTime's moving time `> 0`. */
  datatype Movement = NonZero | Positive

  predicate Moves(m: Movement, speed: Double) {
    match m
    case NonZero => speed.IsNonZero()
    case Positive => speed.IsPositive()
  }

  /** A kept point and the time from the point before it in the reference list. */
  datatype Interval = Interval(delta: int, point: Fix)

  /** The intervals the first loop of RemoveNotMoving records over `ref`. */
  function Recorded(ref: seq<Fix>, m: Movement): (rs: seq<Interval>)
    ensures |rs| < |ref| || |ref| == 0
    decreases |ref|
  {
    if |ref| < 2 then []
    else
      var n := |ref|;
      Recorded(ref[..n - 1], m)
      + (if Moves(m, ref[n - 1].speed) then [Interval(ref[n - 1].time - ref[n - 2].time, ref[n - 1])] else [])
  }

  /** The indices from 1 on whose speed counts as movement, in increasing order. */
  function MovingIndices(ref: seq<Fix>, m: Movement): seq<int>
    decreases |ref|
  {
    if |ref| < 2 then []
    else
      var n := |ref|;
      MovingIndices(ref[..n - 1], m) + (if Moves(m, ref[n - 1].speed) then [n - 1] else [])
  }

  /** The recorded deltas added up. */
  function SumDeltas(rs: seq<Interval>): int
    decreases |rs|
  {
    if rs == [] then 0 else SumDeltas(rs[..|rs| - 1]) + rs[|rs| - 1].delta
  }

  /** The deltas of intervals 0 to `k` added up. */
  function DeltasThrough(rs: seq<Interval>, k: int): int
    requires -1 <= k < |rs|
    decreases k + 1
  {
    if k < 0 then 0 else DeltasThrough(rs, k - 1) + rs[k].delta
  }

  /** The sum over the first k + 1 intervals, two ways. */
  lemma {:induction false} SumDeltasThrough(rs: seq<Interval>, k: int)
    requires -1 <= k < |rs|
    ensures SumDeltas(rs[..k + 1]) == DeltasThrough(rs, k)
    decreases k + 1
  {
    if k >= 0 {
      assert rs[..k + 1][..k] == rs[..k];
      SumDeltasThrough(rs, k - 1);
    }
  }

  /** A point moved to time `t`. */
  function AtTime(f: Fix, t: int): Fix {
    f.(time := t)
  }

  /** The points of the replay loop: each takes the start time plus the deltas up to and including its own. */
  function Replay(start: int, rs: seq<Interval>): (r: seq<Fix>)
    ensures |r| == |rs|
  {
    seq(|rs|, k requires 0 <= k < |rs| => AtTime(rs[k].point, start + DeltasThrough(rs, k)))
  }

  /** The cleaned list built from the reference list `ref`, before its speeds are recomputed. */
  function Rebuilt(ref: seq<Fix>, m: Movement): (r: seq<Fix>)
    requires |ref| >= 1
    ensures |r| == 1 + |Recorded(ref, m)|
  {
    [ref[0]] + Replay(ref[0].time, Recorded(ref, m))
  }

  /** RemoveNotMoving on values, with the movement test `m`. */
  function Cleaned(fs: seq<Fix>, m: Movement): seq<Fix>
    requires |fs| >= 1 && SpeedsComputable(fs)
  {
    SpeedsOnlyChangeSpeed(fs);
    RebuiltComputable(WithSpeeds(fs), m);
    WithSpeeds(Rebuilt(WithSpeeds(fs), m))
  }

  /** The moving indices are increasing, lie after the first point, and are exactly the points that move. */
  lemma {:induction false} MovingIndicesSpec(ref: seq<Fix>, m: Movement)
    ensures forall k :: 0 <= k < |MovingIndices(ref, m)| ==>
              1 <= MovingIndices(ref, m)[k] < |ref| && Moves(m, ref[MovingIndices(ref, m)[k]].speed)
    ensures forall k, l :: 0 <= k < l < |MovingIndices(ref, m)| ==> MovingIndices(ref, m)[k] < MovingIndices(ref, m)[l]
    ensures forall i :: 1 <= i < |ref| && Moves(m, ref[i].speed) ==> i in MovingIndices(ref, m)
    decreases |ref|
  {
    if |ref| >= 2 {
      var n := |ref|;
      var front := ref[..n - 1];
      MovingIndicesSpec(front, m);
      assert forall i :: 0 <= i < n - 1 ==> front[i] == ref[i];
    }
  }

  /** The k-th recorded interval is the k-th moving point with the span from its predecessor. */
  lemma {:induction false} RecordedAt(ref: seq<Fix>, m: Movement)
    ensures |Recorded(ref, m)| == |MovingIndices(ref, m)|
    ensures forall k :: 0 <= k < |Recorded(ref, m)| ==>
              var j := MovingIndices(ref, m)[k];
              1 <= j < |ref| &&
              Recorded(ref, m)[k] == Interval(ref[j].time - ref[j - 1].time, ref[j])
    decreases |ref|
  {
    if |ref| >= 2 {
      var n := |ref|;
      var front := ref[..n - 1];
      RecordedAt(front, m);
      var rs, fr := Recorded(ref, m), Recorded(front, m);
      var ms, fm := MovingIndices(ref, m), MovingIndices(front, m);
      assert rs[..|fr|] == fr && ms[..|fm|] == fm;
      forall k | 0 <= k < |rs|
        ensures 1 <= ms[k] < n && rs[k] == Interval(ref[ms[k]].time - ref[ms[k] - 1].time, ref[ms[k]])
      {
        if k < |fr| {
          var j := fm[k];
          assert ms[k] == j && rs[k] == fr[k];
          assert front[j] == ref[j] && front[j - 1] == ref[j - 1];
        } else {
          assert ms[k] == n - 1;
        }
      }
    }
  }

  /** One interval is recorded per moving point. */
  lemma {:induction false} RecordedLength(ref: seq<Fix>, m: Movement)
    ensures |Recorded(ref, m)| == |MovingIndices(ref, m)|
    decreases |ref|
  {
    if |ref| >= 2 {
      RecordedLength(ref[..|ref| - 1], m);
    }
  }

  /** RecordedAt for one interval. */
  lemma RecordedAtIndex(ref: seq<Fix>, m: Movement, k: int)
    requires 0 <= k < |MovingIndices(ref, m)|
    ensures |Recorded(ref, m)| == |MovingIndices(ref, m)|
    ensures 1 <= MovingIndices(ref, m)[k] < |ref|
    ensures Recorded(ref, m)[k].point == ref[MovingIndices(ref, m)[k]]
    ensures Recorded(ref, m)[k].delta == ref[MovingIndices(ref, m)[k]].time - ref[MovingIndices(ref, m)[k] - 1].time
  {
    RecordedAt(ref, m);
  }

  /** Interval `k`'s point once the first `done` intervals have been replayed from `start`. */
  function ReplayedUpTo(start: int, rs: seq<Interval>, done: int, k: int): Fix
    requires 0 <= k < |rs|
  {
    if k < done then AtTime(rs[k].point, start + DeltasThrough(rs, k)) else rs[k].point
  }

  /** A list whose every point is replayed is the replay. */
  lemma ReplayFromPoints(start: int, rs: seq<Interval>, vs: seq<Fix>)
    requires |vs| == |rs|
    requires forall k :: 0 <= k < |rs| ==> vs[k] == ReplayedUpTo(start, rs, |rs|, k)
    ensures vs == Replay(start, rs)
  {
  }

  /** CalculateSpeeds can run on a list rebuilt from a reference list it can run on. */
  lemma RebuiltComputable(ref: seq<Fix>, m: Movement)
    requires |ref| >= 1 && SpeedsComputable(ref)
    ensures SpeedsComputable(Rebuilt(ref, m))
  {
    var rs := Recorded(ref, m);
    var r := Rebuilt(ref, m);
    if |r| >= 3 {
      RecordedAt(ref, m);
      forall i | 1 <= i < |r|
        ensures r[i].Located()
      {
        assert r[i] == Replay(ref[0].time, rs)[i - 1];
      }
    }
  }

  /** The cleaned list has the first point and one point per moving point after it. */
  lemma CleanedLength(fs: seq<Fix>, m: Movement)
    requires |fs| >= 1 && SpeedsComputable(fs)
    ensures |Cleaned(fs, m)| == 1 + |MovingIndices(WithSpeeds(fs), m)|
  {
    RecordedAt(WithSpeeds(fs), m);
  }

  /** The first point keeps its place and its time. */
  lemma CleanedFirst(fs: seq<Fix>, m: Movement)
    requires |fs| >= 1 && SpeedsComputable(fs)
    ensures Unsped(Cleaned(fs, m)[0]) == Unsped(fs[0])
  {
    CleanedKeepsRebuilt(fs, m, 0);
    SpeedAtUnsped(fs, 0);
  }

  /**
    * The point after the k-th recorded interval is the k-th moving point of the
    * input, in place and flag, at the first time plus the first k + 1 deltas.
    */
  lemma CleanedAt(fs: seq<Fix>, m: Movement, k: int)
    requires |fs| >= 1 && SpeedsComputable(fs)
    requires 0 <= k < |MovingIndices(WithSpeeds(fs), m)|
    ensures |Cleaned(fs, m)| == 1 + |MovingIndices(WithSpeeds(fs), m)|
    ensures 1 <= MovingIndices(WithSpeeds(fs), m)[k] < |fs|
    ensures Unsped(Cleaned(fs, m)[k + 1])
         == AtTime(Unsped(fs[MovingIndices(WithSpeeds(fs), m)[k]]), fs[0].time + DeltasThrough(Recorded(WithSpeeds(fs), m), k))
  {
    var ref := WithSpeeds(fs);
    var at := MovingIndices(ref, m)[k];
    RebuiltAt(ref, m, k);
    CleanedKeepsRebuilt(fs, m, k + 1);
    SpeedAtUnsped(fs, at);
    SpeedAtUnsped(fs, 0);
    TimeAfter(ref[0], fs[0]);
    Retimed(Cleaned(fs, m)[k + 1], ref[at], fs[at], fs[0].time + DeltasThrough(Recorded(ref, m), k));
  }

  /** Cleaning recomputes the speeds of the rebuilt list and changes nothing else. */
  lemma CleanedKeepsRebuilt(fs: seq<Fix>, m: Movement, i: int)
    requires |fs| >= 1 && SpeedsComputable(fs)
    requires 0 <= i < |Rebuilt(WithSpeeds(fs), m)|
    ensures |Cleaned(fs, m)| == |Rebuilt(WithSpeeds(fs), m)|
    ensures Unsped(Cleaned(fs, m)[i]) == Unsped(Rebuilt(WithSpeeds(fs), m)[i])
  {
    SpeedsOnlyChangeSpeed(fs);
    RebuiltComputable(WithSpeeds(fs), m);
    SpeedAtUnsped(Rebuilt(WithSpeeds(fs), m), i);
  }

  /** The rebuilt point after the k-th interval: the k-th moving point at the start time plus the first k + 1 deltas. */
  lemma RebuiltAt(ref: seq<Fix>, m: Movement, k: int)
    requires |ref| >= 1 && 0 <= k < |MovingIndices(ref, m)|
    ensures |Rebuilt(ref, m)| == 1 + |MovingIndices(ref, m)|
    ensures 1 <= MovingIndices(ref, m)[k] < |ref|
    ensures Rebuilt(ref, m)[k + 1]
         == AtTime(ref[MovingIndices(ref, m)[k]], ref[0].time + DeltasThrough(Recorded(ref, m), k))
  {
    var rs := Recorded(ref, m);
    RecordedAtIndex(ref, m, k);
    ReplayAt(ref[0].time, rs, k);
    PrependAt(ref[0], Replay(ref[0].time, rs), k);
  }

  /** Interval `k` replayed from `start`. */
  lemma ReplayAt(start: int, rs: seq<Interval>, k: int)
    requires 0 <= k < |rs|
    ensures Replay(start, rs)[k] == AtTime(rs[k].point, start + DeltasThrough(rs, k))
  {
  }

  lemma PrependAt(x: Fix, s: seq<Fix>, k: int)
    requires 0 <= k < |s|
    ensures ([x] + s)[k + 1] == s[k]
  {
  }

  /** A point alike but for speed to `x` moved to time `t` is alike, but for speed, to `y` moved there when `x` and `y` are. */
  lemma Retimed(c: Fix, x: Fix, y: Fix, t: int)
    requires Unsped(c) == Unsped(AtTime(x, t)) && Unsped(x) == Unsped(y)
    ensures Unsped(c) == AtTime(Unsped(y), t)
  {
  }

  /** The cleaned list spans exactly the recorded deltas. */
  lemma CleanedElapsed(fs: seq<Fix>, m: Movement)
    requires |fs| >= 1 && SpeedsComputable(fs)
    ensures ElapsedTicks(Cleaned(fs, m)) == SumDeltas(Recorded(WithSpeeds(fs), m))
  {
    CleanedLength(fs, m);
    CleanedFirst(fs, m);
    TimeAfter(Cleaned(fs, m)[0], fs[0]);
    if Recorded(WithSpeeds(fs), m) != [] {
      CleanedLast(fs, m);
    }
  }

  /** The last point of the cleaned list sits at the first time plus all recorded deltas. */
  lemma CleanedLast(fs: seq<Fix>, m: Movement)
    requires |fs| >= 1 && SpeedsComputable(fs)
    requires Recorded(WithSpeeds(fs), m) != []
    ensures |Cleaned(fs, m)| == 1 + |Recorded(WithSpeeds(fs), m)|
    ensures Cleaned(fs, m)[|Cleaned(fs, m)| - 1].time == fs[0].time + SumDeltas(Recorded(WithSpeeds(fs), m))
  {
    var ref := WithSpeeds(fs);
    var rs := Recorded(ref, m);
    var k := |rs| - 1;
    RecordedLength(ref, m);
    RebuiltAt(ref, m, k);
    SumDeltasThrough(rs, k);
    assert rs[..k + 1] == rs;
    CleanedKeepsRebuilt(fs, m, k + 1);
    TimeAfter(Cleaned(fs, m)[k + 1], Rebuilt(ref, m)[k + 1]);
    SpeedAtUnsped(fs, 0);
    TimeAfter(ref[0], fs[0]);
  }

  lemma TimeAfter(c: Fix, f: Fix)
    requires Unsped(c) == Unsped(f)
    ensures c.time == f.time
  {
    assert Unsped(c).time == Unsped(f).time;
  }

  lemma TimeAt(c: Fix, y: Fix, t: int)
    requires Unsped(c) == AtTime(y, t)
    ensures c.time == t
  {
    assert Unsped(c).time == AtTime(y, t).time;
  }

  /** Moving time is the sum of the deltas of the intervals whose speed is above zero. */
  lemma {:induction false} MovingTicksAsDeltas(ref: seq<Fix>)
    ensures MovingTicks(ref) == SumDeltas(Recorded(ref, Positive))
    decreases |ref|
  {
    if |ref| >= 2 {
      var n := |ref|;
      MovingTicksAsDeltas(ref[..n - 1]);
      var front := Recorded(ref[..n - 1], Positive);
      if Moves(Positive, ref[n - 1].speed) {
        var rs := Recorded(ref, Positive);
        assert rs[..|rs| - 1] == front;
      } else {
        assert Recorded(ref, Positive) == front;
      }
    }
  }

  /**
    * Keeping exactly the intervals whose speed is above zero, the cleaned list's
    * actual time is the input's moving time, as computed by TotalTime.
    */
  lemma CleanedPositiveElapsed(fs: seq<Fix>)
    requires |fs| >= 1 && SpeedsComputable(fs)
    ensures ElapsedTicks(Cleaned(fs, Positive)) == MovingTicks(WithSpeeds(fs))
  {
    CleanedElapsed(fs, Positive);
    MovingTicksAsDeltas(WithSpeeds(fs));
  }

  /** Two fixes ten seconds apart whose second speed is still NaN, as after loading a file. */
  function StaleSpeedTrack(): seq<Fix> {
    [Fix(Zero, Zero, Zero, 0, NaN, false), Fix(Zero, Zero, Zero, 10 * TicksPerSecond, NaN, false)]
  }

  /**
    * With the `!= 0` test the NaN speed at index 1, which CalculateSpeeds never
    * writes, counts as movement: ten seconds survive cleaning but none of them
    * is moving time.
    */
  lemma NonZeroKeepsStillTime()
    ensures ElapsedTicks(Cleaned(StaleSpeedTrack(), NonZero)) == 10 * TicksPerSecond
    ensures MovingTicks(WithSpeeds(StaleSpeedTrack())) == 0
  {
    var fs := StaleSpeedTrack();
    var ref := WithSpeeds(fs);
    assert ref[1].speed == NaN && ref[0].time == 0 && ref[1].time == 10 * TicksPerSecond;
    assert ref[..1] == [ref[0]];
    assert Recorded(ref, NonZero) == [Interval(10 * TicksPerSecond, ref[1])];
    CleanedElapsed(fs, NonZero);
    var rs := Recorded(ref, NonZero);
    assert rs[..0] == [];
    assert ref[..|ref| - 1] == [ref[0]];
  }
}
