/** The three ring lookups of the repository: the C++ one over an ordered map
(prototype/ConsistentHashing.h), the Java scan in any order (ConsistentHashing.java) and
ketama's binary search (ketama.c). All find the same point, `Successor`. */
module RingLookup {
  datatype Result<T> = Ok(value: T) | EmptyRing

  /** Point p serves hash h: it is the least point not below h, or, if all points are below h,
  the least point of the ring. */
  ghost predicate Serves(points: set<int>, h: int, p: int) {
    && p in points
    && (forall q :: q in points && h <= q ==> h <= p <= q)
    && ((forall q :: q in points ==> q < h) ==> forall q :: q in points ==> p <= q)
  }

  lemma ServesIsUnique(points: set<int>, h: int, p: int, q: int)
    requires Serves(points, h, p) && Serves(points, h, q)
    ensures p == q
  {
  }

  lemma Pick<T>(s: set<T>) returns (x: T)
    requires s != {}
    ensures x in s
  {
    x :| x in s;
  }

  lemma HasMember(s: set<int>)
    requires s != {}
    ensures exists x :: x in s
  {
    var x := Pick(s);
  }

  ghost function Least(s: set<int>): (m: int)
    requires s != {}
    ensures m in s && forall x :: x in s ==> m <= x
  {
    HasMember(s);
    var x :| x in s;
    if s == {x} then x
    else
      var m := Least(s - {x});
      assert forall y :: y in s ==> y == x || y in s - {x};
      if m < x then m else x
  }

  /** The point that serves h; every non-empty ring has exactly one. */
  ghost function Successor(points: set<int>, h: int): (p: int)
    requires points != {}
    ensures Serves(points, h, p)
  {
    var above := set q | q in points && h <= q;
    assert forall q :: q in points && h <= q ==> q in above;
    if above != {} then Least(above) else Least(points)
  }

  // ----- C++ -----

  ghost predicate Sorted(keys: seq<int>) {
    forall i, j :: 0 <= i < j < |keys| ==> keys[i] <= keys[j]
  }

  ghost function Points(keys: seq<int>): set<int> { set k | k in keys }

  /** `lower_bound`: index of the first key not below h, or the length. */
  function LowerBound(keys: seq<int>, h: int): (i: nat)
    ensures i <= |keys|
    ensures forall j :: 0 <= j < i ==> keys[j] < h
    ensures i < |keys| ==> h <= keys[i]
  {
    if keys == [] || h <= keys[0] then 0 else 1 + LowerBound(keys[1..], h)
  }

  /** The first key not below h, or the first key at all, serves h. */
  lemma FirstServes(keys: seq<int>, h: int)
    requires keys != [] && Sorted(keys)
    ensures var i := LowerBound(keys, h);
            keys[0] in Points(keys) && keys[if i == |keys| then 0 else i] == Successor(Points(keys), h)
  {
    var i := LowerBound(keys, h);
    var p := keys[if i == |keys| then 0 else i];
    assert keys[0] in Points(keys);
    forall q | q in Points(keys) ensures keys[0] <= q && (h <= q ==> h <= p <= q) {
      var j :| 0 <= j < |keys| && keys[j] == q;
    }
    if i < |keys| {
      assert keys[i] in Points(keys);
    }
    ServesIsUnique(Points(keys), h, p, Successor(Points(keys), h));
  }

  /** `getServer`, over the keys of the ordered map in increasing order. */
  function GetServer<T>(h: int, keys: seq<int>, ring: map<int, T>): Result<T>
    requires forall k :: k in keys ==> k in ring
  {
    if keys == [] then EmptyRing
    else
      var i := LowerBound(keys, h);
      Ok(ring[keys[if i == |keys| then 0 else i]])
  }

  lemma GetServerIsSuccessor<T>(h: int, keys: seq<int>, ring: map<int, T>)
    requires Sorted(keys) && Points(keys) == ring.Keys
    ensures GetServer(h, keys, ring).EmptyRing? <==> ring == map[]
    ensures ring != map[] ==> GetServer(h, keys, ring) == Ok(ring[Successor(ring.Keys, h)])
  {
    if keys != [] {
      FirstServes(keys, h);
    } else {
      assert ring.Keys == {};
    }
  }

  // ----- Java -----

  /** The scan over the key set in whatever order the map iterates. */
  method ScanServer<T>(h: int, order: seq<int>, ring: map<int, T>) returns (r: Result<T>)
    requires (set k | k in order) == ring.Keys
    ensures r.EmptyRing? <==> ring == map[]
    ensures ring != map[] ==> r == Ok(ring[Successor(ring.Keys, h)])
  {
    if |order| == 0 {
      assert ring.Keys == {};
      return EmptyRing;
    }
    assert order[0] in ring.Keys;
    var minHash, lb := 0, 0;
    var find1, find2 := false, false;
    for i := 0 to |order|
      invariant find1 <==> i > 0
      invariant find1 ==> minHash in order && forall j :: 0 <= j < i ==> minHash <= order[j]
      invariant find2 <==> exists j :: 0 <= j < i && h <= order[j]
      invariant find2 ==> lb in order && h <= lb && forall j :: 0 <= j < i && h <= order[j] ==> lb <= order[j]
    {
      var x := order[i];
      if !find1 || x < minHash {
        find1 := true;
        minHash := x;
      }
      if x < h {
        continue;
      }
      if !find2 || x < lb {
        find2 := true;
        lb := x;
      }
    }
    var p := if find2 then lb else minHash;
    assert forall q :: q in ring.Keys <==> q in order;
    ServesIsUnique(ring.Keys, h, p, Successor(ring.Keys, h));
    return Ok(ring[p]);
  }

  // ----- ketama -----

  /** Comparing a point with the hash tells on which side of the lower bound it is. */
  lemma SideOf(points: seq<int>, h: int, m: nat)
    requires Sorted(points) && m < |points|
    ensures points[m] < h <==> m < LowerBound(points, h)
  {
  }

  /** ketama's binary search over the sorted continuum, for an unsigned hash: it ends at the lower
  bound, or at 0 when there is none. */
  method SearchIndex(points: seq<int>, h: int) returns (r: nat)
    requires |points| > 0 && Sorted(points) && 0 <= h
    ensures r == if LowerBound(points, h) == |points| then 0 else LowerBound(points, h)
  {
    ghost var a := LowerBound(points, h);
    var n := |points|;
    var lowp, highp := 0, n;
    while true
      invariant 0 <= lowp <= a <= highp <= n
      decreases highp - lowp
    {
      var midp := (lowp + highp) / 2;
      if midp == n {
        return 0;
      }
      SideOf(points, h, midp);
      if midp > 0 { SideOf(points, h, midp - 1); }
      var midval := points[midp];
      var midval1 := if midp == 0 then 0 else points[midp - 1];
      if h <= midval && h > midval1 {
        return midp;
      }
      if midval < h {
        lowp := midp + 1;
      } else {
        highp := midp - 1;
      }
      if lowp > highp {
        return 0;
      }
    }
  }

  /** The point it finds serves the hash. Points may repeat; the first of equal ones is found. */
  method KetamaSearch(points: seq<int>, h: int) returns (r: nat)
    requires |points| > 0 && Sorted(points) && 0 <= h
    ensures r < |points| && points[0] in Points(points) && points[r] == Successor(Points(points), h)
    ensures forall j :: 0 <= j < r ==> points[j] < points[r]
  {
    FirstServes(points, h);
    r := SearchIndex(points, h);
  }
}
