/**
  * What TrackHelper.CalculateSpeeds, CalculateTotalDistance and TotalTime
  * compute, as functions of the point values.
  */
module Speeds {
  import opened Wrappers
  import opened Ieee
  import opened Geo

  /** Every speed CalculateSpeeds computes has both of its points located. */
  predicate SpeedsComputable(fs: seq<Fix>) {
    |fs| >= 3 ==> forall i :: 1 <= i < |fs| ==> fs[i].Located()
  }

  /**
    * Point `i` after CalculateSpeeds: with two points or more the first gets
    * speed 0, the second is never written, every later one gets its speed from
    * the point before it. A list of fewer than two points is left alone.
    */
  function SpeedAt(fs: seq<Fix>, i: int): Fix
    requires SpeedsComputable(fs) && 0 <= i < |fs|
  {
    if i == 0 && |fs| >= 2 then fs[0].(speed := Zero)
    else if i >= 2 then fs[i].(speed := SpeedFrom(fs[i], fs[i - 1]))
    else fs[i]
  }

  function WithSpeeds(fs: seq<Fix>): (r: seq<Fix>)
    requires SpeedsComputable(fs)
    ensures |r| == |fs|
  {
    seq(|fs|, i requires 0 <= i < |fs| => SpeedAt(fs, i))
  }

  /** The fields of a point other than its speed. */
  function Unsped(f: Fix): Fix {
    f.(speed := Zero)
  }

  /** CalculateSpeeds changes speeds and nothing else. */
  lemma SpeedsOnlyChangeSpeed(fs: seq<Fix>)
    requires SpeedsComputable(fs)
    ensures forall i :: 0 <= i < |fs| ==> Unsped(WithSpeeds(fs)[i]) == Unsped(fs[i])
    ensures SpeedsComputable(WithSpeeds(fs))
  {
  }

  /** CalculateSpeeds leaves point `i` alone but for its speed. */
  lemma SpeedAtUnsped(fs: seq<Fix>, i: int)
    requires SpeedsComputable(fs) && 0 <= i < |fs|
    ensures Unsped(WithSpeeds(fs)[i]) == Unsped(fs[i])
  {
  }

  /**
    * One step of CalculateSpeeds: the speed taken from the point before, after
    * that point has had its own speed set, is the one `SpeedAt` gives.
    */
  lemma SpeedStep(fs: seq<Fix>, i: int, previous: Fix)
    requires SpeedsComputable(fs) && 2 <= i < |fs|
    requires previous == SpeedAt(fs, i - 1)
    ensures fs[i].Located() && previous.Located()
    ensures fs[i].(speed := SpeedFrom(fs[i], previous)) == SpeedAt(fs, i)
  {
    assert previous.lat == fs[i - 1].lat && previous.lon == fs[i - 1].lon && previous.time == fs[i - 1].time;
  }

  /** The speeds depend only on positions and times, so a second run changes nothing. */
  lemma SpeedsIdempotent(fs: seq<Fix>)
    requires SpeedsComputable(fs)
    ensures WithSpeeds(WithSpeeds(fs)) == WithSpeeds(fs)
  {
    var r := WithSpeeds(fs);
    forall i | 0 <= i < |fs|
      ensures WithSpeeds(r)[i] == r[i]
    {
      if i >= 2 {
        assert Unsped(r[i]) == Unsped(fs[i]) && Unsped(r[i - 1]) == Unsped(fs[i - 1]);
        assert SpeedFrom(r[i], r[i - 1]) == SpeedFrom(fs[i], fs[i - 1]);
      }
    }
  }

  /** Lists that differ only in speeds get the same speeds from CalculateSpeeds from index 2 on. */
  lemma SpeedsIgnoreOldSpeeds(fs: seq<Fix>, gs: seq<Fix>, i: int)
    requires SpeedsComputable(fs) && |gs| == |fs|
    requires forall k :: 0 <= k < |fs| ==> Unsped(gs[k]) == Unsped(fs[k])
    requires 2 <= i < |fs|
    ensures SpeedsComputable(gs)
    ensures WithSpeeds(gs)[i] == WithSpeeds(fs)[i]
  {
    forall k | 1 <= k < |gs|
      ensures fs[k].Located() ==> gs[k].Located()
    {
      assert Unsped(gs[k]) == Unsped(fs[k]);
    }
    assert Unsped(gs[i]) == Unsped(fs[i]) && Unsped(gs[i - 1]) == Unsped(fs[i - 1]);
  }

  /** CalculateTotalDistance calls GetDistanceTo on every point once there are two. */
  predicate DistancesComputable(fs: seq<Fix>) {
    |fs| >= 2 ==> forall i :: 0 <= i < |fs| ==> fs[i].Located()
  }

  /** The distances between consecutive points, added up from the start. */
  function SumDistances(fs: seq<Fix>): (d: real)
    requires DistancesComputable(fs)
    ensures d >= 0.0
    ensures |fs| < 2 ==> d == 0.0
    decreases |fs|
  {
    if |fs| < 2 then 0.0
    else
      var front := fs[..|fs| - 1];
      assert forall i :: 0 <= i < |front| ==> front[i] == fs[i];
      SumDistances(front) + Distance(fs[|fs| - 1], fs[|fs| - 2])
  }

  /** The total distance of two lists joined is both totals plus the distance across the join. */
  lemma {:induction false} SumDistancesAppend(a: seq<Fix>, b: seq<Fix>)
    requires |a| >= 1 && |b| >= 1 && DistancesComputable(a + b)
    ensures DistancesComputable(a) && DistancesComputable(b)
    ensures a[|a| - 1].Located() && b[0].Located()
    ensures SumDistances(a + b) == SumDistances(a) + Distance(b[0], a[|a| - 1]) + SumDistances(b)
    decreases |b|
  {
    assert forall i :: 0 <= i < |a| ==> a[i] == (a + b)[i];
    assert forall i :: 0 <= i < |b| ==> b[i] == (a + b)[|a| + i];
    var n := |a + b|;
    if |b| >= 2 {
      var b' := b[..|b| - 1];
      assert (a + b)[..n - 1] == a + b';
      SumDistancesAppend(a, b');
      assert b'[0] == b[0];
    } else {
      assert (a + b)[..n - 1] == a;
    }
  }

  /** CalculateTotalDistance does not look at speeds. */
  lemma {:induction false} SumDistancesIgnoreSpeeds(fs: seq<Fix>, gs: seq<Fix>)
    requires DistancesComputable(fs) && |gs| == |fs|
    requires forall k :: 0 <= k < |fs| ==> Unsped(gs[k]) == Unsped(fs[k])
    ensures DistancesComputable(gs)
    ensures SumDistances(gs) == SumDistances(fs)
    decreases |fs|
  {
    assert forall k :: 0 <= k < |fs| ==> gs[k].lat == fs[k].lat && gs[k].lon == fs[k].lon by {
      forall k | 0 <= k < |fs| ensures gs[k].lat == fs[k].lat && gs[k].lon == fs[k].lon {
        assert Unsped(gs[k]) == Unsped(fs[k]);
      }
    }
    if |fs| >= 2 {
      SumDistancesIgnoreSpeeds(fs[..|fs| - 1], gs[..|gs| - 1]);
    }
  }

  /** The times of the points never go back. */
  predicate NonDecreasing(fs: seq<Fix>) {
    forall i, j :: 0 <= i <= j < |fs| ==> fs[i].time <= fs[j].time
  }

  /** ActualTime: the span from the first point to the last, in ticks. */
  function ElapsedTicks(fs: seq<Fix>): int
    requires |fs| >= 1
  {
    fs[|fs| - 1].time - fs[0].time
  }

  /** MovingTime: the spans into the points from the second on whose speed is above zero, in ticks. */
  function MovingTicks(fs: seq<Fix>): int
    decreases |fs|
  {
    if |fs| < 2 then 0
    else MovingTicks(fs[..|fs| - 1])
         + (if fs[|fs| - 1].speed.IsPositive() then fs[|fs| - 1].time - fs[|fs| - 2].time else 0)
  }

  /** With times in order, the moving time is at least zero and at most the actual time. */
  lemma {:induction false} MovingWithinElapsed(fs: seq<Fix>)
    requires |fs| >= 1 && NonDecreasing(fs)
    ensures 0 <= MovingTicks(fs) <= ElapsedTicks(fs)
    decreases |fs|
  {
    if |fs| >= 2 {
      MovingWithinElapsed(fs[..|fs| - 1]);
    }
  }

  /** No speed above zero after the first point: no moving time. */
  lemma {:induction false} MovingWhenStill(fs: seq<Fix>)
    requires forall i :: 1 <= i < |fs| ==> !fs[i].speed.IsPositive()
    ensures MovingTicks(fs) == 0
    decreases |fs|
  {
    if |fs| >= 2 {
      MovingWhenStill(fs[..|fs| - 1]);
    }
  }

  /** Every speed after the first point above zero: the moving time is the actual time. */
  lemma {:induction false} MovingWhenAlwaysMoving(fs: seq<Fix>)
    requires |fs| >= 1
    requires forall i :: 1 <= i < |fs| ==> fs[i].speed.IsPositive()
    ensures MovingTicks(fs) == ElapsedTicks(fs)
    decreases |fs|
  {
    if |fs| >= 2 {
      MovingWhenAlwaysMoving(fs[..|fs| - 1]);
    }
  }

  /** Every step after the first point takes time and covers ground. */
  predicate AlwaysMoving(fs: seq<Fix>) {
    DistancesComputable(fs) &&
    forall i :: 1 <= i < |fs| ==> fs[i - 1].time < fs[i].time && Distance(fs[i], fs[i - 1]) > 0.0
  }

  /** A step that takes time and covers ground gets a speed above zero. */
  lemma SpeedFromPositive(f: Fix, previous: Fix)
    requires f.Located() && previous.Located()
    requires previous.time < f.time && Distance(f, previous) > 0.0
    ensures SpeedFrom(f, previous).IsPositive()
  {
    var d := Distance(f, previous);
    var s := TotalSeconds(f.time - previous.time);
    assert s > 0.0;
    assert SpeedFrom(f, previous) == Finite(d / s);
  }

  /**
    * A step back in time between two different places gives a negative speed.
    * The Speed setter of the external coordinate type throws on a negative value;
    * the model stores it.
    */
  lemma SpeedFromNegative(f: Fix, previous: Fix)
    requires f.Located() && previous.Located()
    requires f.time < previous.time && Distance(f, previous) > 0.0
    ensures SpeedFrom(f, previous).IsNegative()
  {
    var d := Distance(f, previous);
    var s := TotalSeconds(f.time - previous.time);
    assert s < 0.0;
    assert SpeedFrom(f, previous) == Finite(d / s);
  }

  /** A step that does not go back in time never gives a negative speed. */
  lemma SpeedFromNotNegative(f: Fix, previous: Fix)
    requires f.Located() && previous.Located()
    requires previous.time <= f.time
    ensures !SpeedFrom(f, previous).IsNegative()
  {
    var s := TotalSeconds(f.time - previous.time);
    assert s >= 0.0;
    if s > 0.0 {
      assert SpeedFrom(f, previous) == Finite(Distance(f, previous) / s);
    }
  }

  /**
    * On times in order and with no negative speed stored (the setter refuses
    * one), CalculateSpeeds stores no negative speed either: there the exception
    * the model leaves out cannot occur.
    */
  lemma SpeedsNeverNegative(fs: seq<Fix>)
    requires SpeedsComputable(fs) && NonDecreasing(fs)
    requires forall i :: 0 <= i < |fs| ==> !fs[i].speed.IsNegative()
    ensures forall i :: 0 <= i < |fs| ==> !WithSpeeds(fs)[i].speed.IsNegative()
  {
    forall i | 2 <= i < |fs|
      ensures !WithSpeeds(fs)[i].speed.IsNegative()
    {
      SpeedFromNotNegative(fs[i], fs[i - 1]);
    }
  }

  /** Every speed above zero but the second's: the moving time misses exactly the first step. */
  lemma {:induction false} MovingAllButFirst(gs: seq<Fix>)
    requires |gs| >= 2 && !gs[1].speed.IsPositive()
    requires forall i :: 2 <= i < |gs| ==> gs[i].speed.IsPositive()
    ensures MovingTicks(gs) == ElapsedTicks(gs) - (gs[1].time - gs[0].time)
    decreases |gs|
  {
    var front := gs[..|gs| - 1];
    if |gs| > 2 {
      MovingAllButFirst(front);
    } else {
      assert MovingTicks(front) == 0;
    }
  }

  /**
    * As written, CalculateSpeeds never sets the second point's speed, so on a
    * track that always moves but whose second point has no speed above zero
    * (a fresh coordinate's speed is NaN) the first step is never moving time.
    */
  lemma FirstStepNeverMoving(fs: seq<Fix>)
    requires |fs| >= 2 && AlwaysMoving(fs) && !fs[1].speed.IsPositive()
    ensures MovingTicks(WithSpeeds(fs)) == ElapsedTicks(fs) - (fs[1].time - fs[0].time)
    ensures MovingTicks(WithSpeeds(fs)) < ElapsedTicks(fs)
  {
    var r := WithSpeeds(fs);
    forall i | 2 <= i < |r|
      ensures r[i].speed.IsPositive()
    {
      assert r[i].speed == SpeedFrom(fs[i], fs[i - 1]);
      SpeedFromPositive(fs[i], fs[i - 1]);
    }
    assert r[0].time == fs[0].time && r[1] == fs[1] && r[|r| - 1].time == fs[|fs| - 1].time;
    MovingAllButFirst(r);
  }

  /** CalculateSpeeds as evidently intended: the second point gets its speed from the first, like every later one. */
  function IntendedSpeedAt(fs: seq<Fix>, i: int): Fix
    requires DistancesComputable(fs) && 0 <= i < |fs|
  {
    if i == 0 && |fs| >= 2 then fs[0].(speed := Zero)
    else if i >= 1 then fs[i].(speed := SpeedFrom(fs[i], fs[i - 1]))
    else fs[i]
  }

  function WithIntendedSpeeds(fs: seq<Fix>): (r: seq<Fix>)
    requires DistancesComputable(fs)
    ensures |r| == |fs|
  {
    seq(|fs|, i requires 0 <= i < |fs| => IntendedSpeedAt(fs, i))
  }

  /** With the intended speeds, the moving time of a track that always moves is its whole time. */
  lemma IntendedSpeedsMovingTime(fs: seq<Fix>)
    requires |fs| >= 1 && AlwaysMoving(fs)
    ensures MovingTicks(WithIntendedSpeeds(fs)) == ElapsedTicks(fs)
  {
    var r := WithIntendedSpeeds(fs);
    forall i | 1 <= i < |r|
      ensures r[i].speed.IsPositive()
    {
      SpeedFromPositive(fs[i], fs[i - 1]);
    }
    MovingWhenAlwaysMoving(r);
  }

  datatype TimeCalculationType = ActualTime | MovingTime

  /**
    * TotalTime on points whose speeds are already in place: ActualTime of an
    * empty list indexes outside it; MovingTime of a short list is zero.
    */
  function TotalTimeOf(fs: seq<Fix>, kind: TimeCalculationType): (r: Result<int>)
    ensures r.Err? <==> kind == ActualTime && fs == []
    ensures r.Err? ==> r.fault == ArgumentOutOfRange
  {
    match kind
    case ActualTime => if fs == [] then Err(ArgumentOutOfRange) else Ok(ElapsedTicks(fs))
    case MovingTime => Ok(MovingTicks(fs))
  }

  /** On times in order both kinds of time are non-negative and the moving time is the smaller. */
  lemma TotalTimeOrdered(fs: seq<Fix>)
    requires |fs| >= 1 && NonDecreasing(fs)
    ensures TotalTimeOf(fs, ActualTime).Ok? && TotalTimeOf(fs, MovingTime).Ok?
    ensures 0 <= TotalTimeOf(fs, MovingTime).value <= TotalTimeOf(fs, ActualTime).value
  {
    MovingWithinElapsed(fs);
  }
}
