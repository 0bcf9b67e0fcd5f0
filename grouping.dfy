/**
  The province grouping done when the museum list is loaded: one pass over the
  list that creates a bucket for a province on first sight and appends each
  museum to its province's bucket.

  The method `GroupByProvince` is the loop; `Group` is its declarative
  specification: the distinct provinces in order of first appearance, each
  mapped to the museums of that province in input order.
 */
module RegionGrouper {
  import opened Museums
  import opened OrderedMaps

  /** The `Map<string, Museum[]>` the component keeps as its `provinces` state. */
  type Groups = OrderedMap<string, seq<Museum>>

  /** The museums of `ms` that lie in province `p`, in input order. */
  function Members(ms: seq<Museum>, p: string): seq<Museum>
  {
    if ms == [] then []
    else (if ms[0].province == p then [ms[0]] else []) + Members(ms[1..], p)
  }

  /** The distinct provinces of `ms`, in order of first appearance. */
  function Provinces(ms: seq<Museum>): seq<string>
  {
    if ms == [] then []
    else
      var earlier := Provinces(ms[..|ms| - 1]);
      var p := ms[|ms| - 1].province;
      if p in earlier then earlier else earlier + [p]
  }

  /** The set of provinces that occur in `ms`. */
  ghost function ProvinceSet(ms: seq<Museum>): set<string>
  {
    set m | m in ms :: m.province
  }

  /** The positions of `ms` that hold a museum of province `p`. */
  ghost function IndicesIn(ms: seq<Museum>, p: string): set<nat>
  {
    set i: nat | i < |ms| && ms[i].province == p
  }

  /** The grouping the component is meant to compute. */
  function Group(ms: seq<Museum>): Groups
  {
    OrderedMap(Provinces(ms), map p | p in Provinces(ms) :: Members(ms, p))
  }

  /** All buckets concatenated in the map's iteration order. */
  function Flatten(keys: seq<string>, values: map<string, seq<Museum>>): seq<Museum>
  {
    if keys == [] then []
    else (if keys[0] in values then values[keys[0]] else []) + Flatten(keys[1..], values)
  }

  /** The grouping loop of `loadMuseums`: `forEach` over the list, creating an
      empty bucket with `set` when `has` fails, then `get(...).push(museum)`. */
  method GroupByProvince(museums: seq<Museum>) returns (grouped: Groups)
    ensures grouped == Group(museums)
  {
    grouped := Empty();
    var i := 0;
    while i < |museums|
      invariant 0 <= i <= |museums|
      invariant Tracks(grouped, museums[..i])
    {
      var museum := museums[i];
      ghost var before := grouped;
      if !grouped.Has(museum.province) {
        grouped := grouped.Set(museum.province, []);
      }
      grouped := grouped.Set(museum.province, grouped.Get(museum.province) + [museum]);
      TracksStep(before, museums, i);
      i := i + 1;
    }
    assert museums[..i] == museums;
    TracksIsGroup(grouped, museums);
  }

  /** The loop invariant: `g` is the grouping of the museums seen so far. */
  ghost predicate Tracks(g: Groups, seen: seq<Museum>)
  {
    && g.keys == Provinces(seen)
    && (forall p :: g.Has(p) <==> p in g.keys)
    && (forall p :: g.Has(p) ==> g.Get(p) == Members(seen, p))
    && (forall p :: !g.Has(p) ==> Members(seen, p) == [])
  }

  /** One iteration of the loop extends the grouping by the museum at position `i`. */
  lemma TracksStep(g: Groups, ms: seq<Museum>, i: nat)
    requires i < |ms| && Tracks(g, ms[..i])
    ensures var q := ms[i].province;
            var g1 := if g.Has(q) then g else g.Set(q, []);
            Tracks(g1.Set(q, g1.Get(q) + [ms[i]]), ms[..i + 1])
  {
    assert ms[..i + 1] == ms[..i] + [ms[i]];
    TracksAppend(g, ms[..i], ms[i]);
  }

  /** Creating the bucket if needed and pushing `m` onto it extends the grouping by `m`. */
  lemma TracksAppend(g: Groups, seen: seq<Museum>, m: Museum)
    requires Tracks(g, seen)
    ensures var q := m.province;
            var g1 := if g.Has(q) then g else g.Set(q, []);
            Tracks(g1.Set(q, g1.Get(q) + [m]), seen + [m])
  {
    var q := m.province;
    var g1 := if g.Has(q) then g else g.Set(q, []);
    var g2 := g1.Set(q, g1.Get(q) + [m]);
    var next := seen + [m];
    ProvincesAppend(seen, m);
    assert g2.keys == Provinces(next);
    forall p
      ensures g2.Has(p) <==> p in g2.keys
      ensures g2.Has(p) ==> g2.Get(p) == Members(next, p)
      ensures !g2.Has(p) ==> Members(next, p) == []
    {
      MembersConcat(seen, [m], p);
    }
  }

  /** Appending a museum adds its province at the end unless it was already listed. */
  lemma ProvincesAppend(seen: seq<Museum>, m: Museum)
    ensures Provinces(seen + [m])
         == if m.province in Provinces(seen) then Provinces(seen) else Provinces(seen) + [m.province]
  {
  }

  /** When the whole list has been seen, the invariant pins down the result. */
  lemma TracksIsGroup(g: Groups, ms: seq<Museum>)
    requires Tracks(g, ms)
    ensures g == Group(ms)
  {
  }

  /** Filtering distributes over concatenation. */
  lemma {:induction false} MembersConcat(a: seq<Museum>, b: seq<Museum>, p: string)
    ensures Members(a + b, p) == Members(a, p) + Members(b, p)
  {
    if a == [] {
      assert a + b == b;
    } else {
      var ab := a + b;
      assert ab[0] == a[0] && ab[1..] == a[1..] + b;
      MembersConcat(a[1..], b, p);
      var head := if a[0].province == p then [a[0]] else [];
      assert Members(ab, p) == head + Members(a[1..] + b, p);
      assert Members(a, p) == head + Members(a[1..], p);
    }
  }

  /** Every member of a bucket lies in that bucket's province, and each museum
      occurs in its own province's bucket exactly as often as in the input. */
  lemma {:induction false} MembersMultiplicity(ms: seq<Museum>, p: string, m: Museum)
    ensures multiset(Members(ms, p))[m] == if m.province == p then multiset(ms)[m] else 0
  {
    if ms != [] {
      MembersMultiplicity(ms[1..], p, m);
      assert ms == [ms[0]] + ms[1..];
      assert multiset(ms) == multiset([ms[0]]) + multiset(ms[1..]);
    }
  }

  /** The provinces are listed once each. */
  lemma {:induction false} ProvincesDistinct(ms: seq<Museum>)
    ensures forall i, j :: 0 <= i < j < |Provinces(ms)| ==> Provinces(ms)[i] != Provinces(ms)[j]
  {
    if ms != [] {
      ProvincesDistinct(ms[..|ms| - 1]);
    }
  }

  /** The listed provinces are exactly the provinces occurring in the input. */
  lemma {:induction false} ProvincesExact(ms: seq<Museum>)
    ensures forall p :: p in Provinces(ms) <==> p in ProvinceSet(ms)
  {
    if ms != [] {
      var init := ms[..|ms| - 1];
      ProvincesExact(init);
      assert ms == init + [ms[|ms| - 1]];
      assert ProvinceSet(ms) == ProvinceSet(init) + {ms[|ms| - 1].province};
    }
  }

  /** The grouping satisfies the representation invariant of a `Map`. */
  lemma GroupValid(ms: seq<Museum>)
    ensures Group(ms).Valid()
  {
    ProvincesDistinct(ms);
  }

  /** An empty list gives an empty map. */
  lemma GroupEmpty()
    ensures Group([]).keys == [] && Group([]).values == map[]
  {
  }

  /** The map's keys are exactly the distinct provinces of the input. */
  lemma GroupKeys(ms: seq<Museum>)
    ensures forall p :: Group(ms).Has(p) <==> p in ProvinceSet(ms)
    ensures forall i, j :: 0 <= i < j < |Group(ms).keys| ==> Group(ms).keys[i] != Group(ms).keys[j]
  {
    ProvincesExact(ms);
    ProvincesDistinct(ms);
  }

  /** A museum is in the bucket of `p` exactly when it is in the input and lies in `p`. */
  lemma MembersMembership(ms: seq<Museum>, p: string, m: Museum)
    ensures m in Members(ms, p) <==> m in ms && m.province == p
  {
  }

  /** Grouping is a partition: every input museum is in the bucket of its own
      province, a bucket holds only museums of its province, and each museum
      occurs in its bucket as many times as in the input (none dropped, none doubled). */
  lemma GroupIsPartition(ms: seq<Museum>)
    ensures forall i :: 0 <= i < |ms| ==> Group(ms).Has(ms[i].province) && ms[i] in Group(ms).Get(ms[i].province)
    ensures forall p, m :: Group(ms).Has(p) && m in Group(ms).Get(p) ==> m.province == p
    ensures forall p, m :: Group(ms).Has(p) ==>
      multiset(Group(ms).Get(p))[m] == if m.province == p then multiset(ms)[m] else 0
  {
    var g := Group(ms);
    ProvincesExact(ms);
    forall p, m | g.Has(p)
      ensures multiset(g.Get(p))[m] == if m.province == p then multiset(ms)[m] else 0
      ensures m in g.Get(p) ==> m.province == p
    {
      MembersMultiplicity(ms, p, m);
      MembersMembership(ms, p, m);
    }
    forall i | 0 <= i < |ms|
      ensures g.Has(ms[i].province) && ms[i] in g.Get(ms[i].province)
    {
      assert ms[i].province in ProvinceSet(ms);
      MembersMembership(ms, ms[i].province, ms[i]);
    }
  }

  /** Concatenating the buckets of distinct keys counts each museum once per
      occurrence in the input, provided its province is among the keys. */
  lemma {:induction false} FlattenMultiplicity(ms: seq<Museum>, keys: seq<string>, m: Museum)
    requires forall i, j :: 0 <= i < j < |keys| ==> keys[i] != keys[j]
    ensures multiset(Flatten(keys, Group(ms).values))[m]
         == if m.province in keys && m.province in Provinces(ms) then multiset(ms)[m] else 0
  {
    if keys != [] {
      FlattenMultiplicity(ms, keys[1..], m);
      MembersMultiplicity(ms, keys[0], m);
      assert keys == [keys[0]] + keys[1..];
      assert m.province in keys <==> m.province == keys[0] || m.province in keys[1..];
    }
  }

  /** All buckets together are the input, up to order: the union of the groups
      holds every museum exactly as often as the list does. */
  lemma GroupCoversInput(ms: seq<Museum>)
    ensures multiset(Flatten(Group(ms).keys, Group(ms).values)) == multiset(ms)
  {
    ProvincesDistinct(ms);
    ProvincesExact(ms);
    forall m
      ensures multiset(Flatten(Group(ms).keys, Group(ms).values))[m] == multiset(ms)[m]
    {
      FlattenMultiplicity(ms, Provinces(ms), m);
      if m in ms {
        assert m.province in ProvinceSet(ms);
      }
    }
  }

  /** Every bucket is non-empty, and its length (the aggregate marker's count)
      is the number of input positions holding a museum of that province. */
  lemma {:induction false} MembersCount(ms: seq<Museum>, p: string)
    ensures |Members(ms, p)| == |IndicesIn(ms, p)|
  {
    if ms != [] {
      var n := |ms| - 1;
      var init := ms[..n];
      MembersCount(init, p);
      assert ms == init + [ms[n]];
      MembersConcat(init, [ms[n]], p);
      assert IndicesIn(ms, p) == IndicesIn(init, p) + (if ms[n].province == p then {n} else {});
    }
  }

  lemma GroupCounts(ms: seq<Museum>)
    ensures forall p :: Group(ms).Has(p) ==> |Group(ms).Get(p)| == |IndicesIn(ms, p)| > 0
  {
    ProvincesExact(ms);
    forall p | Group(ms).Has(p)
      ensures |Group(ms).Get(p)| == |IndicesIn(ms, p)| > 0
    {
      MembersCount(ms, p);
      var m :| m in ms && m.province == p;
      MembersMultiplicity(ms, p, m);
    }
  }

  /** Indices of `ms` shifted by one place, for the tail step of `MemberIndices`. */
  ghost function Shifted(idx: seq<nat>): (r: seq<nat>)
    ensures |r| == |idx| && forall k :: 0 <= k < |r| ==> r[k] == idx[k] + 1
  {
    seq(|idx|, k requires 0 <= k < |idx| => idx[k] + 1)
  }

  /** The positions in `ms` from which the members of province `p` are taken. */
  ghost function MemberIndices(ms: seq<Museum>, p: string): seq<nat>
  {
    if ms == [] then []
    else
      var rest := Shifted(MemberIndices(ms[1..], p));
      if ms[0].province == p then [0] + rest else rest
  }

  /** Each member is taken from the input at the position `MemberIndices` gives. */
  lemma {:induction false} MemberIndicesPick(ms: seq<Museum>, p: string)
    ensures |MemberIndices(ms, p)| == |Members(ms, p)|
    ensures forall k :: 0 <= k < |MemberIndices(ms, p)| ==>
      MemberIndices(ms, p)[k] < |ms| && Members(ms, p)[k] == ms[MemberIndices(ms, p)[k]]
  {
    if ms != [] {
      var tail := ms[1..];
      MemberIndicesPick(tail, p);
      var idx, sub := MemberIndices(ms, p), MemberIndices(tail, p);
      if ms[0].province == p {
        forall k | 0 <= k < |idx|
          ensures idx[k] < |ms| && Members(ms, p)[k] == ms[idx[k]]
        {
          if k > 0 {
            assert idx[k] == sub[k - 1] + 1;
            assert Members(ms, p)[k] == Members(tail, p)[k - 1];
          }
        }
      } else {
        assert Members(ms, p) == Members(tail, p);
      }
    }
  }

  /** The positions are strictly increasing. */
  lemma {:induction false} MemberIndicesIncreasing(ms: seq<Museum>, p: string)
    ensures forall k, l :: 0 <= k < l < |MemberIndices(ms, p)| ==> MemberIndices(ms, p)[k] < MemberIndices(ms, p)[l]
  {
    if ms != [] {
      MemberIndicesIncreasing(ms[1..], p);
    }
  }

  /** Every position holding a museum of `p` is among the positions. */
  lemma {:induction false} MemberIndicesCover(ms: seq<Museum>, p: string)
    ensures forall i :: 0 <= i < |ms| && ms[i].province == p ==> i in MemberIndices(ms, p)
  {
    if ms != [] {
      var tail := ms[1..];
      MemberIndicesCover(tail, p);
      var sub := MemberIndices(tail, p);
      var rest := Shifted(sub);
      forall i | 1 <= i < |ms| && ms[i].province == p
        ensures i in MemberIndices(ms, p)
      {
        assert tail[i - 1] == ms[i];
        var k :| 0 <= k < |sub| && sub[k] == i - 1;
        assert rest[k] == i;
      }
    }
  }

  /** A bucket is a subsequence of the input: its members are taken from strictly
      increasing positions, which are all the positions of that province, so the
      bucket keeps the input's relative order and misses no member. */
  lemma {:induction false} MembersKeepOrder(ms: seq<Museum>, p: string)
    ensures var idx := MemberIndices(ms, p);
      && |idx| == |Members(ms, p)|
      && (forall k :: 0 <= k < |idx| ==> idx[k] < |ms| && Members(ms, p)[k] == ms[idx[k]])
      && (forall k, l :: 0 <= k < l < |idx| ==> idx[k] < idx[l])
      && (forall i :: 0 <= i < |ms| && ms[i].province == p ==> i in idx)
  {
    MemberIndicesPick(ms, p);
    MemberIndicesIncreasing(ms, p);
    MemberIndicesCover(ms, p);
  }

  /** `p` occurs in `ms` at some position before every occurrence of `q`. */
  ghost predicate FirstSeenBefore(ms: seq<Museum>, p: string, q: string)
  {
    exists a :: 0 <= a < |ms| && ms[a].province == p &&
      forall b :: 0 <= b < |ms| && ms[b].province == q ==> a < b
  }

  /** The provinces are listed in the order in which each first occurs in the input,
      which is the iteration order of the `Map` and so the order of the aggregate markers. */
  lemma {:induction false} ProvincesInFirstSeenOrder(ms: seq<Museum>)
    ensures forall i, j :: 0 <= i < j < |Provinces(ms)| ==> FirstSeenBefore(ms, Provinces(ms)[i], Provinces(ms)[j])
  {
    if ms != [] {
      var n := |ms| - 1;
      var init := ms[..n];
      var keys, earlier := Provinces(ms), Provinces(init);
      ProvincesInFirstSeenOrder(init);
      ProvincesExact(init);
      forall i, j | 0 <= i < j < |keys|
        ensures FirstSeenBefore(ms, keys[i], keys[j])
      {
        assert keys[i] in earlier && keys[i] == earlier[i];
        assert keys[i] in ProvinceSet(init);
        var a :| 0 <= a < n && init[a].province == keys[i];
        if j < |earlier| {
          assert FirstSeenBefore(init, earlier[i], earlier[j]);
          var a' :| 0 <= a' < n && init[a'].province == earlier[i] &&
            forall b :: 0 <= b < n && init[b].province == earlier[j] ==> a' < b;
          assert ms[a'].province == keys[i];
          forall b | 0 <= b < |ms| && ms[b].province == keys[j] ensures a' < b {
            if b < n { assert init[b] == ms[b]; }
          }
        } else {
          assert keys[j] == ms[n].province && keys[j] !in earlier;
          assert keys[j] !in ProvinceSet(init);
          forall b | 0 <= b < n ensures ms[b].province != keys[j] {
            assert init[b] == ms[b] && init[b] in init;
          }
          assert ms[a] == init[a];
        }
      }
    }
  }
}
