/**
  * TrackHelper.Merge as a function of the point values: the tracks one after
  * another, every speed set to 0, then `OrderBy(item => item.Time)`, a stable
  * sort by time written as an insertion sort.
  */
module Ordering {
  import opened Ieee
  import opened Geo
  import opened Speeds

  predicate SortedByTime(fs: seq<Fix>) {
    forall i, j :: 0 <= i < j < |fs| ==> fs[i].time <= fs[j].time
  }

  /** `x` placed after every point of `acc` whose time is not later than its own. */
  function Insert(acc: seq<Fix>, x: Fix): (r: seq<Fix>)
    ensures |r| == |acc| + 1
    decreases |acc|
  {
    if acc == [] || acc[|acc| - 1].time <= x.time then acc + [x]
    else Insert(acc[..|acc| - 1], x) + [acc[|acc| - 1]]
  }

  /** The list ordered by time, points of equal time in their original order. */
  function SortByTime(fs: seq<Fix>): (r: seq<Fix>)
    ensures |r| == |fs|
    decreases |fs|
  {
    if fs == [] then [] else Insert(SortByTime(fs[..|fs| - 1]), fs[|fs| - 1])
  }

  /** The points of `fs` at time `t`, in order. */
  function AtTimeOf(fs: seq<Fix>, t: int): seq<Fix>
    decreases |fs|
  {
    if fs == [] then []
    else AtTimeOf(fs[..|fs| - 1], t) + (if fs[|fs| - 1].time == t then [fs[|fs| - 1]] else [])
  }

  /** `Insert` adds `x` and loses nothing. */
  lemma {:induction false} InsertPermutes(acc: seq<Fix>, x: Fix)
    ensures multiset(Insert(acc, x)) == multiset(acc) + multiset{x}
    decreases |acc|
  {
    if acc != [] && acc[|acc| - 1].time > x.time {
      var front := acc[..|acc| - 1];
      assert acc == front + [acc[|acc| - 1]];
      InsertPermutes(front, x);
    }
  }

  /** A time bound that holds for `acc` and `x` holds for every point `Insert` returns. */
  lemma {:induction false} InsertBounded(acc: seq<Fix>, x: Fix, b: int)
    requires forall i :: 0 <= i < |acc| ==> acc[i].time <= b
    requires x.time <= b
    ensures forall i :: 0 <= i < |acc| + 1 ==> Insert(acc, x)[i].time <= b
    decreases |acc|
  {
    if acc != [] && acc[|acc| - 1].time > x.time {
      InsertBounded(acc[..|acc| - 1], x, b);
    }
  }

  lemma {:induction false} InsertSorted(acc: seq<Fix>, x: Fix)
    requires SortedByTime(acc)
    ensures SortedByTime(Insert(acc, x))
    decreases |acc|
  {
    if acc != [] && acc[|acc| - 1].time > x.time {
      var front := acc[..|acc| - 1];
      var last := acc[|acc| - 1];
      InsertSorted(front, x);
      InsertBounded(front, x, last.time);
    }
  }

  /** Inserting keeps the points of each time in order, `x` after those already there. */
  lemma {:induction false} InsertAtTime(acc: seq<Fix>, x: Fix, t: int)
    ensures AtTimeOf(Insert(acc, x), t) == AtTimeOf(acc, t) + (if x.time == t then [x] else [])
    decreases |acc|
  {
    var r := Insert(acc, x);
    if acc == [] || acc[|acc| - 1].time <= x.time {
      assert r[..|r| - 1] == acc;
    } else {
      var front := acc[..|acc| - 1];
      var last := acc[|acc| - 1];
      InsertAtTime(front, x, t);
      assert r[..|r| - 1] == Insert(front, x);
      if last.time == t {
        assert x.time != t;
      }
    }
  }

  /** The sorted list is ordered by time. */
  lemma {:induction false} SortSorted(fs: seq<Fix>)
    ensures SortedByTime(SortByTime(fs))
    ensures multiset(SortByTime(fs)) == multiset(fs)
    decreases |fs|
  {
    if fs != [] {
      var front := fs[..|fs| - 1];
      SortSorted(front);
      InsertSorted(SortByTime(front), fs[|fs| - 1]);
      InsertPermutes(SortByTime(front), fs[|fs| - 1]);
      assert fs == front + [fs[|fs| - 1]];
    }
  }

  /** The sort is stable: the points of any one time keep their relative order. */
  lemma {:induction false} SortStable(fs: seq<Fix>, t: int)
    ensures AtTimeOf(SortByTime(fs), t) == AtTimeOf(fs, t)
    decreases |fs|
  {
    if fs != [] {
      SortStable(fs[..|fs| - 1], t);
      InsertAtTime(SortByTime(fs[..|fs| - 1]), fs[|fs| - 1], t);
    }
  }

  /** A list already in time order is left as it is. */
  lemma {:induction false} SortOfSorted(fs: seq<Fix>)
    requires SortedByTime(fs)
    ensures SortByTime(fs) == fs
    decreases |fs|
  {
    if fs != [] {
      var front := fs[..|fs| - 1];
      SortOfSorted(front);
      assert fs == front + [fs[|fs| - 1]];
    }
  }

  /** `OrderBy` on the point objects: the objects of `ps` in the order `SortByTime` gives their values. */
  function SortPoints(ps: seq<Point>): (r: seq<Point>)
    reads set q | q in ps
    ensures Fixes(r) == SortByTime(Fixes(ps))
    ensures forall q :: q in r ==> q in ps
    decreases |ps|
  {
    if ps == [] then []
    else
      var front := ps[..|ps| - 1];
      assert Fixes(front) == Fixes(ps)[..|ps| - 1];
      assert ps == front + [ps[|ps| - 1]];
      InsertPoint(SortPoints(front), ps[|ps| - 1])
  }

  /** `Insert` on the point objects. */
  function InsertPoint(acc: seq<Point>, p: Point): (r: seq<Point>)
    reads (set q | q in acc), p
    ensures Fixes(r) == Insert(Fixes(acc), p.Value())
    ensures forall q :: q in r ==> q in acc || q == p
    decreases |acc|
  {
    if acc == [] || acc[|acc| - 1].time <= p.time then
      FixesSnoc(acc, p);
      acc + [p]
    else
      var front := acc[..|acc| - 1];
      var last := acc[|acc| - 1];
      var rest := InsertPoint(front, p);
      assert acc == front + [last];
      FixesSnoc(front, last);
      FixesSnoc(rest, last);
      assert Fixes(acc)[..|acc| - 1] == Fixes(front);
      rest + [last]
  }

  /** `OrderBy` returns the same objects, each once: a permutation of its input. */
  lemma {:induction false} SortPointsPermutes(ps: seq<Point>)
    ensures multiset(SortPoints(ps)) == multiset(ps)
    decreases |ps|
  {
    if ps != [] {
      var front := ps[..|ps| - 1];
      assert ps == front + [ps[|ps| - 1]];
      SortPointsPermutes(front);
      InsertPointPermutes(SortPoints(front), ps[|ps| - 1]);
    }
  }

  /** Inserting a point adds exactly that object. */
  lemma {:induction false} InsertPointPermutes(acc: seq<Point>, p: Point)
    ensures multiset(InsertPoint(acc, p)) == multiset(acc) + multiset{p}
    decreases |acc|
  {
    if !(acc == [] || acc[|acc| - 1].time <= p.time) {
      var front := acc[..|acc| - 1];
      assert acc == front + [acc[|acc| - 1]];
      InsertPointPermutes(front, p);
    }
  }

  /** Every point with its speed set to 0, as the `ForEach` of Merge does. */
  function ZeroSpeeds(fs: seq<Fix>): (r: seq<Fix>)
    ensures |r| == |fs|
  {
    seq(|fs|, i requires 0 <= i < |fs| => Unsped(fs[i]))
  }

  /** The values Merge returns for the values of the merged list. */
  function Merged(fs: seq<Fix>): seq<Fix> {
    SortByTime(ZeroSpeeds(fs))
  }

  /**
    * The merged track is in time order, holds exactly the input points with
    * speed 0, and keeps the points of any one time in their input order.
    */
  lemma MergedSorted(fs: seq<Fix>, t: int)
    ensures |Merged(fs)| == |fs|
    ensures SortedByTime(Merged(fs))
    ensures multiset(Merged(fs)) == multiset(ZeroSpeeds(fs))
    ensures forall i :: 0 <= i < |fs| ==> Merged(fs)[i].speed == Zero
    ensures AtTimeOf(Merged(fs), t) == AtTimeOf(ZeroSpeeds(fs), t)
  {
    var z := ZeroSpeeds(fs);
    var m := SortByTime(z);
    SortSorted(z);
    SortStable(z, t);
    PermutedSpeeds(z, m);
  }

  /** A permutation of points of speed 0 has only points of speed 0. */
  lemma PermutedSpeeds(z: seq<Fix>, m: seq<Fix>)
    requires multiset(m) == multiset(z)
    requires forall i :: 0 <= i < |z| ==> z[i].speed == Zero
    ensures forall i :: 0 <= i < |m| ==> m[i].speed == Zero
  {
    forall i | 0 <= i < |m|
      ensures m[i].speed == Zero
    {
      assert m[i] in multiset(z);
      var j :| 0 <= j < |z| && z[j] == m[i];
    }
  }

  /** Merging one track that is already in time order only sets its speeds to 0. */
  lemma MergedInOrder(fs: seq<Fix>)
    requires SortedByTime(fs)
    ensures Merged(fs) == ZeroSpeeds(fs)
  {
    SortOfSorted(ZeroSpeeds(fs));
  }
}
