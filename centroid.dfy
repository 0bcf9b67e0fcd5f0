/**
  The position of a province's aggregate marker: the arithmetic mean of its
  members' latitudes and of their longitudes, each computed as a left-to-right
  sum starting at 0 (`reduce((sum, m) => sum + m.lat, 0)`) divided by the
  number of members. Arithmetic is exact.
 */
module Centroid {
  import opened Museums

  /** A map position `[lat, lng]`. */
  datatype Position = Position(lat: real, lng: real)

  /** The sum a `reduce` starting at 0 computes, adding from left to right. */
  function Sum(xs: seq<real>): real
  {
    if xs == [] then 0.0 else Sum(xs[..|xs| - 1]) + xs[|xs| - 1]
  }

  /** The smallest element. */
  function Min(xs: seq<real>): (r: real)
    requires |xs| > 0
    ensures r in xs && forall i :: 0 <= i < |xs| ==> r <= xs[i]
  {
    if |xs| == 1 then xs[0]
    else
      var m := Min(xs[1..]);
      assert forall i :: 1 <= i < |xs| ==> xs[i] == xs[1..][i - 1];
      if xs[0] <= m then xs[0] else m
  }

  /** The largest element. */
  function Max(xs: seq<real>): (r: real)
    requires |xs| > 0
    ensures r in xs && forall i :: 0 <= i < |xs| ==> xs[i] <= r
  {
    if |xs| == 1 then xs[0]
    else
      var m := Max(xs[1..]);
      assert forall i :: 1 <= i < |xs| ==> xs[i] == xs[1..][i - 1];
      if m <= xs[0] then xs[0] else m
  }

  /** A lower bound of every element bounds the sum from below, count times over. */
  lemma {:induction false} SumAtLeast(xs: seq<real>, lo: real)
    requires forall i :: 0 <= i < |xs| ==> lo <= xs[i]
    ensures |xs| as real * lo <= Sum(xs)
  {
    if xs != [] {
      SumAtLeast(xs[..|xs| - 1], lo);
    }
  }

  /** An upper bound of every element bounds the sum from above, count times over. */
  lemma {:induction false} SumAtMost(xs: seq<real>, hi: real)
    requires forall i :: 0 <= i < |xs| ==> xs[i] <= hi
    ensures Sum(xs) <= |xs| as real * hi
  {
    if xs != [] {
      SumAtMost(xs[..|xs| - 1], hi);
    }
  }

  /** The arithmetic mean; it lies between the smallest and the largest element. */
  function Mean(xs: seq<real>): (r: real)
    requires |xs| > 0
    ensures Min(xs) <= r <= Max(xs)
  {
    MeanWithin(xs, Min(xs), Max(xs));
    Sum(xs) / |xs| as real
  }

  /** The sum divided by the count lies within any bounds of the elements. */
  lemma MeanWithin(xs: seq<real>, lo: real, hi: real)
    requires |xs| > 0
    requires forall i :: 0 <= i < |xs| ==> lo <= xs[i] <= hi
    ensures lo <= Sum(xs) / |xs| as real <= hi
  {
    SumAtLeast(xs, lo);
    SumAtMost(xs, hi);
    MeanBetween(Sum(xs), |xs| as real, lo, hi);
  }

  /** Dividing a sum that lies between `n * lo` and `n * hi` by `n` lands between `lo` and `hi`. */
  lemma MeanBetween(s: real, n: real, lo: real, hi: real)
    requires n > 0.0 && n * lo <= s <= n * hi
    ensures lo <= s / n <= hi
  {
  }

  /** The members' latitudes, in member order. */
  function Lats(ms: seq<Museum>): seq<real>
  {
    seq(|ms|, i requires 0 <= i < |ms| => ms[i].lat)
  }

  /** The members' longitudes, in member order. */
  function Lngs(ms: seq<Museum>): seq<real>
  {
    seq(|ms|, i requires 0 <= i < |ms| => ms[i].lng)
  }

  /** The aggregate marker's position for a non-empty member list. */
  function CentroidOf(ms: seq<Museum>): (c: Position)
    requires |ms| > 0
    ensures Min(Lats(ms)) <= c.lat <= Max(Lats(ms))
    ensures Min(Lngs(ms)) <= c.lng <= Max(Lngs(ms))
  {
    Position(Mean(Lats(ms)), Mean(Lngs(ms)))
  }

  /** The centroid lies within the members' bounding box: some member is at or
      south-west of it on each axis, and some member at or north-east of it. */
  lemma CentroidWithinMembers(ms: seq<Museum>)
    requires |ms| > 0
    ensures exists i :: 0 <= i < |ms| && ms[i].lat <= CentroidOf(ms).lat
    ensures exists i :: 0 <= i < |ms| && CentroidOf(ms).lat <= ms[i].lat
    ensures exists i :: 0 <= i < |ms| && ms[i].lng <= CentroidOf(ms).lng
    ensures exists i :: 0 <= i < |ms| && CentroidOf(ms).lng <= ms[i].lng
  {
    var c := CentroidOf(ms);
    var lats, lngs := Lats(ms), Lngs(ms);
    var a :| 0 <= a < |lats| && lats[a] == Min(lats);
    var b :| 0 <= b < |lats| && lats[b] == Max(lats);
    var d :| 0 <= d < |lngs| && lngs[d] == Min(lngs);
    var e :| 0 <= e < |lngs| && lngs[e] == Max(lngs);
    assert ms[a].lat <= c.lat && c.lat <= ms[b].lat;
    assert ms[d].lng <= c.lng && c.lng <= ms[e].lng;
  }

  /** A group with one member is drawn at that member's own position. */
  lemma CentroidOfOne(m: Museum)
    ensures CentroidOf([m]) == Position(m.lat, m.lng)
  {
  }

  /** Every member at the same position puts the centroid at that position. */
  lemma CentroidOfCoincident(ms: seq<Museum>, p: Position)
    requires |ms| > 0
    requires forall i :: 0 <= i < |ms| ==> ms[i].lat == p.lat && ms[i].lng == p.lng
    ensures CentroidOf(ms) == p
  {
  }
}
