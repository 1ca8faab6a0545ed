/** The map screen: the fixed catalog of recycling centres, ranked by their
    distance from the user's position with a stable ascending sort, and the
    loading/error outcome of asking for that position. The great-circle
    distance itself is a parameter of the model. */
module NearbyCenters {
  import opened Types

  datatype Coordinates = Coordinates(lat: real, lng: real)

  /** A recycling centre; `distance` is attached only when ranking. */
  datatype Center = Center(
    id: int,
    name: string,
    address: string,
    coordinates: Coordinates,
    distance: Option<real>)

  const Catalog: seq<Center> := [
    Center(1, "Eco-Friendly Recyclers", "123 Green Way, Chennai", Coordinates(13.0827, 80.2707), None),
    Center(2, "SIDCO Industrial Estate", "26, Thirumazhisai, Chennai, Tamil Nadu 600124", Coordinates(13.05, 80.05), None),
    Center(3, "Chennai Waste Management", "456 Recycle Ave, Chennai", Coordinates(13.01, 80.23), None),
    Center(4, "Planet Savers Inc.", "789 Earth St, Chennai", Coordinates(13.1, 80.15), None)
  ]

  /** The sort key `a.distance ?? 0`. */
  function Key(c: Center): real {
    c.distance.GetOr(0.0)
  }

  /** Each centre, with its distance from `location` attached. */
  function WithDistances(centers: seq<Center>, location: Coordinates,
                         distance: (Coordinates, Coordinates) -> real): (r: seq<Center>)
    ensures |r| == |centers|
    ensures forall i :: 0 <= i < |r| ==>
      r[i] == centers[i].(distance := Some(distance(location, centers[i].coordinates)))
  {
    seq(|centers|, i requires 0 <= i < |centers| =>
      centers[i].(distance := Some(distance(location, centers[i].coordinates))))
  }

  // ---- The stable sort, as a specification ----

  ghost predicate Sorted(s: seq<Center>) {
    forall i, j :: 0 <= i < j < |s| ==> Key(s[i]) <= Key(s[j])
  }

  /** The centres of `s` whose key is `k`, in their order in `s`. */
  function WithKey(s: seq<Center>, k: real): seq<Center> {
    if s == [] then []
    else WithKey(s[..|s| - 1], k) + (if Key(s[|s| - 1]) == k then [s[|s| - 1]] else [])
  }

  /** `t` orders the centres of same key as `s` does: the sort is stable. */
  ghost predicate SameOrderPerKey(t: seq<Center>, s: seq<Center>) {
    forall k :: WithKey(t, k) == WithKey(s, k)
  }

  /** Insert `x` into `s` after every element whose key is not above its own,
      scanning from the end. */
  function Insert(s: seq<Center>, x: Center): seq<Center> {
    if s == [] then [x]
    else if Key(s[|s| - 1]) <= Key(x) then s + [x]
    else Insert(s[..|s| - 1], x) + [s[|s| - 1]]
  }

  /** Insertion sort by key: the reference result of a stable ascending sort. */
  function SortByKey(s: seq<Center>): seq<Center> {
    if s == [] then [] else Insert(SortByKey(s[..|s| - 1]), s[|s| - 1])
  }

  lemma {:induction false} InsertPermutes(s: seq<Center>, x: Center)
    ensures multiset(Insert(s, x)) == multiset(s) + multiset{x}
  {
    if s != [] && Key(s[|s| - 1]) > Key(x) {
      InsertPermutes(s[..|s| - 1], x);
      assert s == s[..|s| - 1] + [s[|s| - 1]];
    }
  }

  lemma {:induction false} SortByKeyPermutes(s: seq<Center>)
    ensures multiset(SortByKey(s)) == multiset(s)
  {
    if s != [] {
      var init, last := s[..|s| - 1], s[|s| - 1];
      assert s == init + [last];
      SortByKeyPermutes(init);
      InsertPermutes(SortByKey(init), last);
      assert SortByKey(s) == Insert(SortByKey(init), last);
    }
  }

  lemma {:induction false} InsertSorted(s: seq<Center>, x: Center)
    requires Sorted(s)
    ensures Sorted(Insert(s, x))
  {
    if s != [] && Key(s[|s| - 1]) > Key(x) {
      var init, last := s[..|s| - 1], s[|s| - 1];
      InsertSorted(init, x);
      InsertPermutes(init, x);
      var r := Insert(init, x);
      forall y | y in r ensures Key(y) <= Key(last) {
        assert y in multiset(r);
        if y != x {
          assert y in multiset(init);
          var i :| 0 <= i < |init| && init[i] == y;
          assert s[i] == y;
        }
      }
      var r' := r + [last];
      forall i, j | 0 <= i < j < |r'| ensures Key(r'[i]) <= Key(r'[j]) {
        if j == |r| {
          assert r'[i] == r[i] && r[i] in r;
        } else {
          assert r'[i] == r[i] && r'[j] == r[j];
        }
      }
    }
  }

  lemma {:induction false} WithKeySnoc(s: seq<Center>, x: Center, k: real)
    ensures WithKey(s + [x], k) == WithKey(s, k) + (if Key(x) == k then [x] else [])
  {
    assert (s + [x])[..|s|] == s;
  }

  /** Inserting keeps, within each key, the old order with `x` after its equals. */
  lemma {:induction false} InsertStable(s: seq<Center>, x: Center, k: real)
    ensures WithKey(Insert(s, x), k) == WithKey(s, k) + (if Key(x) == k then [x] else [])
  {
    if s == [] {
      WithKeySnoc([], x, k);
    } else if Key(s[|s| - 1]) <= Key(x) {
      WithKeySnoc(s, x, k);
    } else {
      var init, last := s[..|s| - 1], s[|s| - 1];
      InsertStable(init, x, k);
      WithKeySnoc(Insert(init, x), last, k);
      WithKeySnoc(init, last, k);
      assert init + [last] == s;
    }
  }

  /** The reference sort is sorted, a permutation, and stable. */
  lemma {:induction false} SortByKeyCorrect(s: seq<Center>)
    ensures Sorted(SortByKey(s))
    ensures multiset(SortByKey(s)) == multiset(s)
    ensures SameOrderPerKey(SortByKey(s), s)
  {
    if s != [] {
      var init, last := s[..|s| - 1], s[|s| - 1];
      SortByKeyCorrect(init);
      SortByKeyPermutes(s);
      InsertSorted(SortByKey(init), last);
      forall k ensures WithKey(SortByKey(s), k) == WithKey(s, k) {
        InsertStable(SortByKey(init), last, k);
      }
    }
  }

  lemma {:induction false} WithKeyMembers(s: seq<Center>, k: real, x: Center)
    requires x in WithKey(s, k)
    ensures x in s && Key(x) == k
  {
    var init := s[..|s| - 1];
    if x in WithKey(init, k) {
      WithKeyMembers(init, k, x);
      assert forall y :: y in init ==> y in s;
    }
  }

  lemma WithKeyOfLast(s: seq<Center>)
    requires s != []
    ensures WithKey(s, Key(s[|s| - 1])) != []
  {
  }

  lemma SortedPrefix(s: seq<Center>)
    requires Sorted(s) && s != []
    ensures Sorted(s[..|s| - 1])
    ensures forall y :: y in s ==> Key(y) <= Key(s[|s| - 1])
  {
    forall y | y in s ensures Key(y) <= Key(s[|s| - 1]) {
      var i :| 0 <= i < |s| && s[i] == y;
    }
  }

  /** Two sorted sequences with the same centres per key end in the same key. */
  lemma SameLastKey(t: seq<Center>, u: seq<Center>)
    requires Sorted(t) && Sorted(u) && SameOrderPerKey(t, u) && t != [] && u != []
    ensures Key(t[|t| - 1]) == Key(u[|u| - 1])
  {
    var lt, lu := t[|t| - 1], u[|u| - 1];
    SortedPrefix(t);
    SortedPrefix(u);
    var wt := WithKey(t, Key(lt));
    assert wt == WithKey(t[..|t| - 1], Key(lt)) + [lt];
    assert WithKey(u, Key(lt)) == wt;
    WithKeyMembers(u, Key(lt), wt[|wt| - 1]);
    var wu := WithKey(u, Key(lu));
    assert wu == WithKey(u[..|u| - 1], Key(lu)) + [lu];
    assert WithKey(t, Key(lu)) == wu;
    WithKeyMembers(t, Key(lu), wu[|wu| - 1]);
  }

  /** When the last keys agree, so do the last centres, and what precedes
      them has the same centres per key. */
  lemma SameOrderDropLast(t: seq<Center>, u: seq<Center>)
    requires SameOrderPerKey(t, u) && t != [] && u != []
    requires Key(t[|t| - 1]) == Key(u[|u| - 1])
    ensures t[|t| - 1] == u[|u| - 1]
    ensures SameOrderPerKey(t[..|t| - 1], u[..|u| - 1])
  {
    var t', lt := t[..|t| - 1], t[|t| - 1];
    var u', lu := u[..|u| - 1], u[|u| - 1];
    var m := Key(lt);
    assert WithKey(t, m) == WithKey(t', m) + [lt];
    assert WithKey(u, m) == WithKey(u', m) + [lu];
    assert WithKey(t, m) == WithKey(u, m);
    assert lt == WithKey(t, m)[|WithKey(t, m)| - 1];
    assert lu == WithKey(u, m)[|WithKey(u, m)| - 1];
    forall k ensures WithKey(t', k) == WithKey(u', k) {
      var a, b := WithKey(t, k), WithKey(u, k);
      assert a == WithKey(t', k) + (if m == k then [lt] else []);
      assert b == WithKey(u', k) + (if m == k then [lu] else []);
      assert a == b;
      if m == k {
        assert WithKey(t', k) == a[..|a| - 1];
        assert WithKey(u', k) == b[..|b| - 1];
      } else {
        assert a == WithKey(t', k);
        assert b == WithKey(u', k);
      }
    }
  }

  /** A sorted, stable rearrangement is unique: any stable ascending sort of
      `s` (whatever its algorithm) gives exactly SortByKey(s). */
  lemma {:induction false} StableSortUnique(t: seq<Center>, u: seq<Center>)
    requires Sorted(t) && Sorted(u) && SameOrderPerKey(t, u)
    ensures t == u
    decreases |t| + |u|
  {
    if t == [] || u == [] {
      if t != [] {
        WithKeyOfLast(t);
      } else if u != [] {
        WithKeyOfLast(u);
      }
    } else {
      SameLastKey(t, u);
      SameOrderDropLast(t, u);
      SortedPrefix(t);
      SortedPrefix(u);
      StableSortUnique(t[..|t| - 1], u[..|u| - 1]);
      assert t == t[..|t| - 1] + [t[|t| - 1]];
      assert u == u[..|u| - 1] + [u[|u| - 1]];
    }
  }

  /** Whatever stable ascending sort the platform uses, its result is the
      reference sort's. */
  lemma AnyStableSortAgrees(s: seq<Center>, t: seq<Center>)
    requires Sorted(t) && SameOrderPerKey(t, s)
    ensures t == SortByKey(s)
  {
    SortByKeyCorrect(s);
    StableSortUnique(t, SortByKey(s));
  }

  // ---- The in-place sort ----

  /** Inserting at `j` is where Insert puts `x` when everything from `j` on
      has a larger key and the element before `j` does not. */
  lemma {:induction false} InsertAt(p: seq<Center>, x: Center, j: nat)
    requires j <= |p|
    requires j == 0 || Key(p[j - 1]) <= Key(x)
    requires forall k :: j <= k < |p| ==> Key(p[k]) > Key(x)
    ensures Insert(p, x) == p[..j] + [x] + p[j..]
    decreases |p|
  {
    if j < |p| {
      var init, last := p[..|p| - 1], p[|p| - 1];
      assert Key(last) > Key(x);
      assert Insert(p, x) == Insert(init, x) + [last];
      InsertAt(init, x, j);
      assert Insert(init, x) == init[..j] + [x] + init[j..];
      var A, C := p[..j], init[j..];
      assert init[..j] == A;
      assert C + [last] == p[j..];
      calc {
        Insert(p, x);
        Insert(init, x) + [last];
        (init[..j] + [x] + init[j..]) + [last];
        (A + [x] + C) + [last];
        A + [x] + (C + [last]);
        A + [x] + p[j..];
      }
    } else if p == [] {
      assert Insert(p, x) == [x];
    } else {
      assert Key(p[|p| - 1]) <= Key(x);
      assert Insert(p, x) == p + [x];
      assert p[..j] == p && p[j..] == [];
    }
  }

  /** One step of the insertion sort: move `a[i]` left past the larger
      keys before it. */
  method InsertLeft(a: array<Center>, i: nat)
    requires i < a.Length
    modifies a
    ensures a[..i + 1] == Insert(old(a[..i]), old(a[i]))
    ensures a[i + 1..] == old(a[i + 1..])
  {
    var x := a[i];
    ghost var p := a[..i];
    ghost var rest := a[i + 1..];
    var j := i;
    while j > 0 && Key(a[j - 1]) > Key(x)
      invariant 0 <= j <= i
      invariant a[..j] == p[..j]
      invariant a[j + 1..i + 1] == p[j..i]
      invariant a[i + 1..] == rest
      invariant forall k :: j <= k < i ==> Key(p[k]) > Key(x)
    {
      a[j] := a[j - 1];
      j := j - 1;
    }
    a[j] := x;
    InsertAt(p, x, j);
    assert a[..i + 1] == a[..j] + [a[j]] + a[j + 1..i + 1];
  }

  /** `centersWithDistance.sort((a, b) => (a.distance ?? 0) - (b.distance ?? 0))`,
      as an insertion sort: stable, as the comparator-based sort is. */
  method SortInPlace(a: array<Center>)
    modifies a
    ensures a[..] == SortByKey(old(a[..]))
  {
    ghost var s := a[..];
    var i := 0;
    while i < a.Length
      invariant 0 <= i <= a.Length
      invariant a[..i] == SortByKey(s[..i])
      invariant a[i..] == s[i..]
    {
      assert a[i] == s[i];
      InsertLeft(a, i);
      assert s[..i + 1][..i] == s[..i];
      assert SortByKey(s[..i + 1]) == Insert(SortByKey(s[..i]), s[i]);
      assert a[i + 1..] == s[i + 1..];
      i := i + 1;
    }
    assert a[..] == a[..a.Length] && s == s[..a.Length];
  }

  /** The ranking in the geolocation success callback: attach distances to a
      copy of the catalog and sort it. The result holds every centre once,
      unchanged but for its distance, sorted ascending, with ties in catalog
      order. */
  method Rank(location: Coordinates, distance: (Coordinates, Coordinates) -> real)
    returns (ranked: seq<Center>)
    ensures ranked == SortByKey(WithDistances(Catalog, location, distance))
    ensures Sorted(ranked)
    ensures multiset(ranked) == multiset(WithDistances(Catalog, location, distance))
    ensures SameOrderPerKey(ranked, WithDistances(Catalog, location, distance))
  {
    var centersWithDistance := WithDistances(Catalog, location, distance);
    var a := new Center[|centersWithDistance|](i requires 0 <= i < |centersWithDistance| => centersWithDistance[i]);
    assert a[..] == centersWithDistance;
    SortInPlace(a);
    ranked := a[..];
    SortByKeyCorrect(centersWithDistance);
  }

  /** Each ranked entry is a catalog centre with the distance from the
      user's position attached, and each catalog centre appears once. */
  lemma RankedAreCatalogCenters(location: Coordinates, distance: (Coordinates, Coordinates) -> real)
    ensures var ranked := SortByKey(WithDistances(Catalog, location, distance));
      && |ranked| == |Catalog|
      && (forall r :: r in ranked ==>
            r.distance == Some(distance(location, r.coordinates)) && r.(distance := None) in Catalog)
      && (forall c :: c in Catalog ==>
            c.(distance := Some(distance(location, c.coordinates))) in ranked)
  {
    var w := WithDistances(Catalog, location, distance);
    var ranked := SortByKey(w);
    SortByKeyCorrect(w);
    assert |ranked| == |multiset(ranked)| == |multiset(w)| == |w|;
    forall r | r in ranked
      ensures r.distance == Some(distance(location, r.coordinates)) && r.(distance := None) in Catalog
    {
      assert r in multiset(w);
      var i :| 0 <= i < |w| && w[i] == r;
      assert Catalog[i].distance == None;
    }
    forall c | c in Catalog ensures c.(distance := Some(distance(location, c.coordinates))) in ranked {
      var i :| 0 <= i < |Catalog| && Catalog[i] == c;
      assert w[i] in multiset(ranked);
    }
  }

  /** What the position request returned: no geolocation support, a
      position error of any kind (refused, unavailable, timed out), or a
      position. */
  datatype PositionOutcome = Unsupported | PositionError | Position(coords: Coordinates)

  /** The screen's state fields and their update by the position outcome. */
  class MapView {
    var userLocation: Option<Coordinates>
    var sortedCenters: seq<Center>
    var loading: bool
    var error: Option<string>

    constructor ()
      ensures userLocation == None && sortedCenters == [] && loading && error == None
    {
      userLocation, sortedCenters, loading, error := None, [], true, None;
    }

    /** The effect on mount: without geolocation support or when the
        position request fails, loading ends with an error and no centres;
        with a position, loading ends with the ranked catalog. */
    method Locate(outcome: PositionOutcome, distance: (Coordinates, Coordinates) -> real)
      modifies this
      ensures !loading
      ensures outcome.Unsupported? ==>
        error == Some("Geolocation is not supported by your browser.")
        && sortedCenters == old(sortedCenters) && userLocation == old(userLocation)
      ensures outcome.PositionError? ==>
        error == Some("Location access denied")
        && sortedCenters == old(sortedCenters) && userLocation == old(userLocation)
      ensures outcome.Position? ==>
        && userLocation == Some(outcome.coords)
        && sortedCenters == SortByKey(WithDistances(Catalog, outcome.coords, distance))
        && error == old(error)
    {
      match outcome {
        case Unsupported =>
          error := Some("Geolocation is not supported by your browser.");
          loading := false;
        case PositionError =>
          error := Some("Location access denied");
          loading := false;
        case Position(location) =>
          userLocation := Some(location);
          var ranked := Rank(location, distance);
          sortedCenters := ranked;
          loading := false;
      }
    }
  }
}
