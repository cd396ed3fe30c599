/**
  * Track comparison (TrackHelper.Round, Delta and Compare) as functions of the
  * point values: both lists are snapped to a 5 metre grid, and a point of the
  * first list matches when some point of the second has the same latitude and
  * longitude.
  */
module Similarity {
  import opened Ieee
  import opened Geo

  /** The grid Delta snaps both lists to, in metres. */
  const DeltaMeters: real := 5.0

  /** Which half of the delta to return: `Differences` stands for every value the switch sends to its default branch. */
  datatype CompareType = Matches | Differences

  /** The activity kind Delta and Compare accept, by its enumeration value; they do not use it. */
  datatype ActivityType = ActivityType(code: int)

  /** The coordinate equality of the point type: latitude and longitude, each compared with Double.Equals. */
  predicate SameSpot(a: Fix, b: Fix) {
    a.lat == b.lat && a.lon == b.lon
  }

  /** Every point snapped to a grid of `meters`. */
  function RoundedAll(fs: seq<Fix>, meters: real): (r: seq<Fix>)
    ensures |r| == |fs|
  {
    seq(|fs|, i requires 0 <= i < |fs| => Snapped(fs[i], meters))
  }

  /** Some point of `cs` is at the spot of `x`. */
  predicate AnySame(x: Fix, cs: seq<Fix>) {
    exists j :: 0 <= j < |cs| && SameSpot(x, cs[j])
  }

  /** Whether Delta keeps a point: matches keep the points found in `cs`, differences the others. */
  predicate Kept(x: Fix, cs: seq<Fix>, ct: CompareType) {
    if ct == Matches then AnySame(x, cs) else !AnySame(x, cs)
  }

  /** The points of `ss` that Delta keeps, in order. */
  function Select(ss: seq<Fix>, cs: seq<Fix>, ct: CompareType): (r: seq<Fix>)
    ensures |r| <= |ss|
    decreases |ss|
  {
    if ss == [] then []
    else Select(ss[..|ss| - 1], cs, ct) + (if Kept(ss[|ss| - 1], cs, ct) then [ss[|ss| - 1]] else [])
  }

  /** What Delta returns for the two lists' values. */
  function DeltaOf(ps: seq<Fix>, cs: seq<Fix>, ct: CompareType): seq<Fix> {
    Select(RoundedAll(ps, DeltaMeters), RoundedAll(cs, DeltaMeters), ct)
  }

  /**
    * `(1.0 / n) * count`, then a negative score replaced by 0: with no point the
    * quotient is infinite and the product NaN.
    */
  function Score(n: nat, count: nat): Double {
    var s := Mul(Div(Finite(1.0), Finite(n as real)), Finite(count as real));
    if s.IsNegative() then Zero else s
  }

  /** What Compare returns for the two lists' values. */
  function CompareOf(ps: seq<Fix>, cs: seq<Fix>): Double {
    Score(|ps|, |DeltaOf(ps, cs, Matches)|)
  }

  /** A point is kept exactly when it is in `ss` and passes the test. */
  lemma {:induction false} SelectMembers(ss: seq<Fix>, cs: seq<Fix>, ct: CompareType, x: Fix)
    ensures x in Select(ss, cs, ct) <==> x in ss && Kept(x, cs, ct)
    decreases |ss|
  {
    if ss != [] {
      var front := ss[..|ss| - 1];
      SelectMembers(front, cs, ct, x);
      assert ss == front + [ss[|ss| - 1]];
    }
  }

  /** Matches and differences split the list: together they hold every point once. */
  lemma {:induction false} SelectPartition(ss: seq<Fix>, cs: seq<Fix>)
    ensures |Select(ss, cs, Matches)| + |Select(ss, cs, Differences)| == |ss|
    ensures multiset(Select(ss, cs, Matches)) + multiset(Select(ss, cs, Differences)) == multiset(ss)
    decreases |ss|
  {
    if ss != [] {
      var front, x := ss[..|ss| - 1], ss[|ss| - 1];
      var m, d := Select(front, cs, Matches), Select(front, cs, Differences);
      SelectPartition(front, cs);
      assert multiset(ss) == multiset(front) + multiset{x} by {
        assert ss == front + [x];
      }
      if Kept(x, cs, Matches) {
        assert Select(ss, cs, Matches) == m + [x];
        assert Select(ss, cs, Differences) == d;
      } else {
        assert Select(ss, cs, Matches) == m;
        assert Select(ss, cs, Differences) == d + [x];
      }
    }
  }

  /** Selecting from two pieces is selecting from each, in order. */
  lemma {:induction false} SelectConcat(a: seq<Fix>, b: seq<Fix>, cs: seq<Fix>, ct: CompareType)
    ensures Select(a + b, cs, ct) == Select(a, cs, ct) + Select(b, cs, ct)
    decreases |b|
  {
    if b == [] {
      assert a + b == a;
    } else {
      var front := b[..|b| - 1];
      SelectConcat(a, front, cs, ct);
      assert (a + b)[..|a + b| - 1] == a + front;
    }
  }

  /** Every point of a list is found in a list that contains it. */
  lemma {:induction false} SelectWithin(ss: seq<Fix>, cs: seq<Fix>)
    requires forall i :: 0 <= i < |ss| ==> AnySame(ss[i], cs)
    ensures Select(ss, cs, Matches) == ss
    ensures Select(ss, cs, Differences) == []
    decreases |ss|
  {
    if ss != [] {
      var front := ss[..|ss| - 1];
      SelectWithin(front, cs);
      assert ss == front + [ss[|ss| - 1]];
    }
  }

  /** No point of a list is found in a list with nothing at its spots. */
  lemma {:induction false} SelectApart(ss: seq<Fix>, cs: seq<Fix>)
    requires forall i :: 0 <= i < |ss| ==> !AnySame(ss[i], cs)
    ensures Select(ss, cs, Matches) == []
    ensures Select(ss, cs, Differences) == ss
    decreases |ss|
  {
    if ss != [] {
      var front := ss[..|ss| - 1];
      SelectApart(front, cs);
      assert ss == front + [ss[|ss| - 1]];
    }
  }

  /** A track compared with itself matches everywhere and differs nowhere. */
  lemma DeltaSelf(ps: seq<Fix>)
    ensures DeltaOf(ps, ps, Matches) == RoundedAll(ps, DeltaMeters)
    ensures DeltaOf(ps, ps, Differences) == []
  {
    var rs := RoundedAll(ps, DeltaMeters);
    forall i | 0 <= i < |rs|
      ensures AnySame(rs[i], rs)
    {
      assert SameSpot(rs[i], rs[i]);
    }
    SelectWithin(rs, rs);
  }

  /** With at least one point and no more matches than points, the score is a finite value in [0, 1], in the exact-real model. */
  lemma ScoreBounds(n: nat, count: nat)
    requires 0 < n && count <= n
    ensures Score(n, count).Finite?
    ensures 0.0 <= Score(n, count).v <= 1.0
    ensures count == n ==> Score(n, count) == Finite(1.0)
    ensures count == 0 ==> Score(n, count) == Zero
  {
    var q := 1.0 / n as real;
    assert Div(Finite(1.0), Finite(n as real)) == Finite(q);
    assert q > 0.0 && q * n as real == 1.0;
    var s := q * count as real;
    assert Mul(Finite(q), Finite(count as real)) == Finite(s);
    assert 0.0 <= s <= q * n as real by {
      assert q * (n as real - count as real) >= 0.0;
    }
  }

  /** Compare scores a non-empty track in [0, 1]; an empty one scores NaN. */
  lemma CompareBounds(ps: seq<Fix>, cs: seq<Fix>)
    ensures ps == [] ==> CompareOf(ps, cs).NaN?
    ensures ps != [] ==> CompareOf(ps, cs).Finite? && 0.0 <= CompareOf(ps, cs).v <= 1.0
  {
    if ps != [] {
      ScoreBounds(|ps|, |DeltaOf(ps, cs, Matches)|);
    }
  }

  /** A non-empty track compared with itself scores 1, in the exact-real model. */
  lemma CompareSelf(ps: seq<Fix>)
    requires ps != []
    ensures CompareOf(ps, ps) == Finite(1.0)
  {
    DeltaSelf(ps);
    ScoreBounds(|ps|, |ps|);
  }

  /** A non-empty track none of whose snapped points is on the other's snapped points scores 0. */
  lemma CompareApart(ps: seq<Fix>, cs: seq<Fix>)
    requires ps != []
    requires forall i :: 0 <= i < |ps| ==> !AnySame(Snapped(ps[i], DeltaMeters), RoundedAll(cs, DeltaMeters))
    ensures CompareOf(ps, cs) == Zero
  {
    SelectApart(RoundedAll(ps, DeltaMeters), RoundedAll(cs, DeltaMeters));
    ScoreBounds(|ps|, 0);
  }

  /** Delta's list of point objects: the objects of `ps` whose values are kept, in order. */
  function SelectPoints(ps: seq<Point>, cs: seq<Fix>, ct: CompareType): (r: seq<Point>)
    reads ps
    ensures Fixes(r) == Select(Fixes(ps), cs, ct)
    ensures forall p :: p in r ==> p in ps
    decreases |ps|
  {
    if ps == [] then []
    else
      var front := ps[..|ps| - 1];
      assert Fixes(front) == Fixes(ps)[..|ps| - 1];
      SelectPoints(front, cs, ct) + (if Kept(ps[|ps| - 1].Value(), cs, ct) then [ps[|ps| - 1]] else [])
  }
}
