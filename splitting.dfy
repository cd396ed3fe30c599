/**
  * TrackHelper.Split as a function of the point values: the points before the
  * split time, and the points at it or after it, each in their original order.
  */
module Splitting {
  import opened Wrappers
  import opened Geo
  import opened Speeds

  /** The points of `fs` before `t` (`early`) or not before it (`!early`), in order. */
  function Part(fs: seq<Fix>, t: int, early: bool): (r: seq<Fix>)
    ensures |r| <= |fs|
    decreases |fs|
  {
    if fs == [] then []
    else Part(fs[..|fs| - 1], t, early) + (if (fs[|fs| - 1].time < t) == early then [fs[|fs| - 1]] else [])
  }

  /** The split time: the first point's time plus the offset; an empty list has no first point. */
  function SplitTime(fs: seq<Fix>, offset: int): (r: Result<int>)
    ensures r.Err? <==> fs == []
    ensures r.Err? ==> r.fault == ArgumentOutOfRange
  {
    if fs == [] then Err(ArgumentOutOfRange) else Ok(fs[0].time + offset)
  }

  /** A point is in a part exactly when it is in the list and on that side of `t`. */
  lemma {:induction false} PartMembers(fs: seq<Fix>, t: int, early: bool, x: Fix)
    ensures x in Part(fs, t, early) <==> x in fs && (x.time < t) == early
    decreases |fs|
  {
    if fs != [] {
      var front := fs[..|fs| - 1];
      PartMembers(front, t, early, x);
      assert fs == front + [fs[|fs| - 1]];
    }
  }

  /** The two parts hold every point exactly once between them. */
  lemma {:induction false} PartPartition(fs: seq<Fix>, t: int)
    ensures |Part(fs, t, true)| + |Part(fs, t, false)| == |fs|
    ensures multiset(Part(fs, t, true)) + multiset(Part(fs, t, false)) == multiset(fs)
    decreases |fs|
  {
    if fs != [] {
      var front, x := fs[..|fs| - 1], fs[|fs| - 1];
      PartPartition(front, t);
      assert fs == front + [x];
      if x.time < t {
        assert Part(fs, t, true) == Part(front, t, true) + [x];
        assert Part(fs, t, false) == Part(front, t, false);
      } else {
        assert Part(fs, t, true) == Part(front, t, true);
        assert Part(fs, t, false) == Part(front, t, false) + [x];
      }
    }
  }

  /** Every point is on one side: a list entirely on one side is its own part and the other part is empty. */
  lemma {:induction false} PartOneSided(fs: seq<Fix>, t: int, early: bool)
    requires forall i :: 0 <= i < |fs| ==> (fs[i].time < t) == early
    ensures Part(fs, t, early) == fs
    ensures Part(fs, t, !early) == []
    decreases |fs|
  {
    if fs != [] {
      var front := fs[..|fs| - 1];
      PartOneSided(front, t, early);
      assert fs == front + [fs[|fs| - 1]];
    }
  }

  /** Parts of a concatenation are the concatenations of the parts. */
  lemma {:induction false} PartConcat(a: seq<Fix>, b: seq<Fix>, t: int, early: bool)
    ensures Part(a + b, t, early) == Part(a, t, early) + Part(b, t, early)
    decreases |b|
  {
    if b == [] {
      assert a + b == a;
    } else {
      PartConcat(a, b[..|b| - 1], t, early);
      assert (a + b)[..|a + b| - 1] == a + b[..|b| - 1];
    }
  }

  /** With times in order, the list is the first part followed by the second. */
  lemma {:induction false} PartsInOrder(fs: seq<Fix>, t: int)
    requires NonDecreasing(fs)
    ensures Part(fs, t, true) + Part(fs, t, false) == fs
    decreases |fs|
  {
    if fs != [] {
      var last := fs[|fs| - 1];
      var front := fs[..|fs| - 1];
      if last.time < t {
        PartOneSided(fs, t, true);
      } else {
        PartsInOrder(front, t);
        assert fs == front + [last];
      }
    }
  }

  /** With times in order, splitting at an offset up to zero leaves the first part empty. */
  lemma SplitAtStart(fs: seq<Fix>, offset: int)
    requires fs != [] && NonDecreasing(fs) && offset <= 0
    ensures Part(fs, SplitTime(fs, offset).value, true) == []
    ensures Part(fs, SplitTime(fs, offset).value, false) == fs
  {
    PartOneSided(fs, fs[0].time + offset, false);
  }

  /** With times in order, splitting beyond the last point leaves the second part empty. */
  lemma SplitAfterEnd(fs: seq<Fix>, offset: int)
    requires fs != [] && NonDecreasing(fs) && offset > ElapsedTicks(fs)
    ensures Part(fs, SplitTime(fs, offset).value, true) == fs
    ensures Part(fs, SplitTime(fs, offset).value, false) == []
  {
    PartOneSided(fs, fs[0].time + offset, true);
  }

  /** Split's lists of point objects: the objects of `ps` on that side of `t`, in order. */
  function PartPoints(ps: seq<Point>, t: int, early: bool): (r: seq<Point>)
    reads ps
    ensures Fixes(r) == Part(Fixes(ps), t, early)
    ensures forall p :: p in r ==> p in ps
    decreases |ps|
  {
    if ps == [] then []
    else
      var front := ps[..|ps| - 1];
      assert Fixes(front) == Fixes(ps)[..|ps| - 1];
      PartPoints(front, t, early) + (if (ps[|ps| - 1].time < t) == early then [ps[|ps| - 1]] else [])
  }
}
