/**
  * Gap infill (TrackHelper.InfillPositions) as a function of the point values:
  * a bad point takes latitude, longitude and altitude from the last good point
  * before it and becomes good; bad points before any good point stay bad.
  */
module Infill {
  import opened Wrappers
  import opened Ieee
  import opened Geo

  /** The part of a point InfillPositions copies. */
  datatype Place = Place(lat: Double, lon: Double, alt: Double)

  function PlaceOf(f: Fix): Place {
    Place(f.lat, f.lon, f.alt)
  }

  /** A bad point given `p`'s position: only latitude, longitude, altitude and the flag change. */
  function Fill(f: Fix, p: Place): (g: Fix)
    ensures !g.bad && PlaceOf(g) == p
    ensures g.time == f.time && g.speed == f.speed
  {
    f.(lat := p.lat, lon := p.lon, alt := p.alt, bad := false)
  }

  /** The value one step of InfillPositions leaves in `f`, `last` being the last good position seen. */
  function Step(last: Option<Place>, f: Fix): Fix {
    if !f.bad then f
    else if last.Some? then Fill(f, last.value)
    else f
  }

  /** The last good position after one step. A filled point becomes the new last good one, at the same place. */
  function Next(last: Option<Place>, f: Fix): Option<Place> {
    if !f.bad then Some(PlaceOf(f)) else last
  }

  /** The values InfillPositions leaves in `fs`, starting with `last` as the last good position. */
  function InfillFrom(last: Option<Place>, fs: seq<Fix>): (r: seq<Fix>)
    ensures |r| == |fs|
    decreases |fs|
  {
    if fs == [] then [] else [Step(last, fs[0])] + InfillFrom(Next(last, fs[0]), fs[1..])
  }

  /** The last good position once `fs` has been walked. */
  function LastAfter(last: Option<Place>, fs: seq<Fix>): Option<Place>
    decreases |fs|
  {
    if fs == [] then last else LastAfter(Next(last, fs[0]), fs[1..])
  }

  /** InfillPositions over a whole list: no good position is known at the start. */
  function Infilled(fs: seq<Fix>): seq<Fix> {
    InfillFrom(None, fs)
  }

  predicate NoBad(fs: seq<Fix>) {
    forall i :: 0 <= i < |fs| ==> !fs[i].bad
  }

  /** Walking `a + b` is walking `a`, then walking `b` from where `a` left off. */
  lemma {:induction false} InfillConcat(last: Option<Place>, a: seq<Fix>, b: seq<Fix>)
    ensures InfillFrom(last, a + b) == InfillFrom(last, a) + InfillFrom(LastAfter(last, a), b)
    ensures LastAfter(last, a + b) == LastAfter(LastAfter(last, a), b)
    decreases |a|
  {
    if a != [] {
      assert (a + b)[0] == a[0];
      assert (a + b)[1..] == a[1..] + b;
      InfillConcat(Next(last, a[0]), a[1..], b);
    } else {
      assert a + b == b;
    }
  }

  /** One more point appended: the step the loop of InfillPositions takes. */
  lemma InfillSnoc(last: Option<Place>, a: seq<Fix>, f: Fix)
    ensures InfillFrom(last, a + [f]) == InfillFrom(last, a) + [Step(LastAfter(last, a), f)]
    ensures LastAfter(last, a + [f]) == Next(LastAfter(last, a), f)
  {
    InfillConcat(last, a, [f]);
    assert [f][1..] == [];
  }

  /** Point `i` after infill is the step at `i` with the last good position of the points before it. */
  lemma InfillAt(last: Option<Place>, fs: seq<Fix>, i: int)
    requires 0 <= i < |fs|
    ensures InfillFrom(last, fs)[i] == Step(LastAfter(last, fs[..i]), fs[i])
  {
    assert fs == fs[..i] + fs[i..];
    InfillConcat(last, fs[..i], fs[i..]);
    assert InfillFrom(last, fs)[i] == InfillFrom(LastAfter(last, fs[..i]), fs[i..])[0];
  }

  /**
    * The last good position after `s` is the place of the last good point of `s`;
    * when `s` has none, it is the position known before `s`.
    */
  lemma {:induction false} LastAfterIsLastGood(last: Option<Place>, s: seq<Fix>)
    ensures (forall k :: 0 <= k < |s| ==> s[k].bad) ==> LastAfter(last, s) == last
    ensures forall j :: 0 <= j < |s| && !s[j].bad && (forall k :: j < k < |s| ==> s[k].bad)
                        ==> LastAfter(last, s) == Some(PlaceOf(s[j]))
  {
    if forall k :: 0 <= k < |s| ==> s[k].bad {
      LastAfterAllBad(last, s);
    }
    forall j | 0 <= j < |s| && !s[j].bad && (forall k :: j < k < |s| ==> s[k].bad)
      ensures LastAfter(last, s) == Some(PlaceOf(s[j]))
    {
      assert s == s[..j] + [s[j]] + s[j + 1..];
      InfillConcat(last, s[..j] + [s[j]], s[j + 1..]);
      InfillSnoc(last, s[..j], s[j]);
      LastAfterAllBad(Some(PlaceOf(s[j])), s[j + 1..]);
    }
  }

  /** Bad points alone do not change the last good position. */
  lemma {:induction false} LastAfterAllBad(last: Option<Place>, s: seq<Fix>)
    requires forall k :: 0 <= k < |s| ==> s[k].bad
    ensures LastAfter(last, s) == last
    decreases |s|
  {
    if s != [] {
      LastAfterAllBad(last, s[1..]);
    }
  }

  /** Infill changes no time and no speed, and leaves every good point as it was. */
  lemma InfillShape(last: Option<Place>, fs: seq<Fix>)
    ensures |InfillFrom(last, fs)| == |fs|
    ensures forall i :: 0 <= i < |fs| ==>
              InfillFrom(last, fs)[i].time == fs[i].time && InfillFrom(last, fs)[i].speed == fs[i].speed
    ensures forall i :: 0 <= i < |fs| && !fs[i].bad ==> InfillFrom(last, fs)[i] == fs[i]
  {
    forall i | 0 <= i < |fs|
      ensures InfillFrom(last, fs)[i].time == fs[i].time && InfillFrom(last, fs)[i].speed == fs[i].speed
      ensures !fs[i].bad ==> InfillFrom(last, fs)[i] == fs[i]
    {
      InfillAt(last, fs, i);
    }
  }

  /**
    * A bad point with a good point before it takes the position of the latest
    * such point and becomes good; nothing else of it changes.
    */
  lemma InfillTakesLastGood(fs: seq<Fix>, i: int, j: int)
    requires 0 <= j < i < |fs| && fs[i].bad && !fs[j].bad
    requires forall k :: j < k < i ==> fs[k].bad
    ensures Infilled(fs)[i] == Fill(fs[i], PlaceOf(fs[j]))
  {
    InfillAt(None, fs, i);
    LastAfterIsLastGood(None, fs[..i]);
    assert !fs[..i][j].bad;
  }

  /** A point is bad after infill exactly when it and every point before it were bad. */
  lemma InfillBad(fs: seq<Fix>, i: int)
    requires 0 <= i < |fs|
    ensures Infilled(fs)[i].bad <==> (forall k :: 0 <= k <= i ==> fs[k].bad)
  {
    var before := fs[..i];
    InfillAt(None, fs, i);
    if exists k :: 0 <= k < i && !fs[k].bad {
      var k :| 0 <= k < i && !fs[k].bad;
      var j := LatestGood(fs, k, i);
      assert !before[j].bad && forall m :: j < m < i ==> before[m].bad;
      LastAfterIsLastGood(None, before);
      assert LastAfter(None, before).Some?;
    } else {
      assert forall m :: 0 <= m < i ==> before[m].bad;
      LastAfterAllBad(None, before);
    }
  }

  /** The latest good point before `i`, given that `k` is one. */
  function LatestGood(fs: seq<Fix>, k: int, i: int): (j: int)
    requires 0 <= k < i <= |fs| && !fs[k].bad
    ensures k <= j < i && !fs[j].bad
    ensures forall m :: j < m < i ==> fs[m].bad
    decreases i - k
  {
    if exists m :: k < m < i && !fs[m].bad then
      var m :| k < m < i && !fs[m].bad;
      LatestGood(fs, m, i)
    else k
  }

  /** With no bad point, infill changes nothing. */
  lemma {:induction false} InfillNoBad(last: Option<Place>, fs: seq<Fix>)
    requires NoBad(fs)
    ensures InfillFrom(last, fs) == fs
    decreases |fs|
  {
    if fs != [] {
      InfillNoBad(Next(last, fs[0]), fs[1..]);
    }
  }

  /**
    * Walking the result of an infill again: a position the first walk knew wins,
    * otherwise the one the second walk brings in.
    */
  lemma {:induction false} InfillTwice(last: Option<Place>, known: Option<Place>, fs: seq<Fix>)
    ensures InfillFrom(last, InfillFrom(known, fs)) == InfillFrom(if known.Some? then known else last, fs)
    ensures fs != [] || known.None? ==>
              LastAfter(last, InfillFrom(known, fs)) == LastAfter(if known.Some? then known else last, fs)
    decreases |fs|
  {
    if fs != [] {
      var f := fs[0];
      var inner := InfillFrom(known, fs);
      assert inner[0] == Step(known, f) && inner[1..] == InfillFrom(Next(known, f), fs[1..]);
      var start := if known.Some? then known else last;
      var start' := if Next(known, f).Some? then Next(known, f) else Next(last, Step(known, f));
      assert start' == Next(start, f);
      assert Step(last, Step(known, f)) == Step(start, f);
      InfillTwice(Next(last, Step(known, f)), Next(known, f), fs[1..]);
      assert InfillFrom(last, inner) == [Step(start, f)] + InfillFrom(start', fs[1..]);
    }
  }

  /** Infill is idempotent. */
  lemma InfillIdempotent(fs: seq<Fix>)
    ensures Infilled(Infilled(fs)) == Infilled(fs)
  {
    InfillTwice(None, None, fs);
  }

  /** Each track infilled on its own. */
  function InfilledEach(tracks: seq<seq<Fix>>): (r: seq<seq<Fix>>)
    ensures |r| == |tracks|
  {
    seq(|tracks|, i requires 0 <= i < |tracks| => Infilled(tracks[i]))
  }

  /**
    * Infilling each track and then infilling the concatenation gives the same
    * points as infilling the concatenation of the raw tracks.
    */
  lemma {:induction false} InfillTracks(last: Option<Place>, tracks: seq<seq<Fix>>)
    ensures InfillFrom(last, Concat(InfilledEach(tracks))) == InfillFrom(last, Concat(tracks))
    decreases |tracks|
  {
    var filled := InfilledEach(tracks);
    if tracks != [] {
      var t := tracks[0];
      var rest := tracks[1..];
      assert filled[1..] == InfilledEach(rest);
      assert Concat(filled) == Infilled(t) + Concat(InfilledEach(rest));
      InfillConcat(last, Infilled(t), Concat(InfilledEach(rest)));
      InfillTwice(last, None, t);
      InfillTracks(LastAfter(last, t), rest);
      InfillConcat(last, t, Concat(rest));
    }
  }
}
