/** The view service (prototype/view.cpp): numbered views, each a list of servers and a ring of
points with replica lists, and what a change of view does to the placement of keys. */
module ViewService {
  import opened VersionVectors
  import opened RingLookup

  /** One entry of the ordered map from points to replica lists. */
  datatype Point = Point(hash: int, servers: seq<Server>)
  type Ring = seq<Point>
  type View = seq<Server>

  ghost predicate Ordered(ring: Ring) {
    forall i, j :: 0 <= i < j < |ring| ==> ring[i].hash < ring[j].hash
  }

  function Hashes(ring: Ring): (s: seq<int>)
    ensures |s| == |ring| && forall i :: 0 <= i < |ring| ==> s[i] == ring[i].hash
  {
    seq(|ring|, i requires 0 <= i < |ring| => ring[i].hash)
  }

  ghost function PointSet(ring: Ring): set<int> {
    set i | 0 <= i < |ring| :: ring[i].hash
  }

  /** Where `getServer` looks: the entry that serves a hash value. */
  function Serving(ring: Ring, h: int): (i: nat)
    requires ring != []
    ensures i < |ring|
  {
    var i := LowerBound(Hashes(ring), h);
    if i == |ring| then 0 else i
  }

  lemma ServingIsSuccessor(ring: Ring, h: int)
    requires ring != [] && Ordered(ring)
    ensures ring[0].hash in PointSet(ring) && ring[Serving(ring, h)].hash == Successor(PointSet(ring), h)
  {
    FirstServes(Hashes(ring), h);
    assert Points(Hashes(ring)) == PointSet(ring);
    assert ring[0].hash in PointSet(ring);
  }

  /** The entry of a point. */
  ghost predicate Has(ring: Ring, p: int, servers: seq<Server>) {
    exists i :: 0 <= i < |ring| && ring[i] == Point(p, servers)
  }

  /** On an ordered ring, the replicas of a hash value are those of its successor point. */
  lemma ServedBy(ring: Ring, h: int, p: int, servers: seq<Server>)
    requires ring != [] && Ordered(ring) && Has(ring, p, servers)
    requires PointSet(ring) != {} && p == Successor(PointSet(ring), h)
    ensures ring[Serving(ring, h)] == Point(p, servers)
  {
    ServingIsSuccessor(ring, h);
  }

  // ----- The changes -----

  /** `newHash[p] = servers`: inserts the point or overwrites its replica list. */
  function Put(ring: Ring, p: int, servers: seq<Server>): Ring {
    var i := LowerBound(Hashes(ring), p);
    if i < |ring| && ring[i].hash == p then ring[i := Point(p, servers)]
    else ring[..i] + [Point(p, servers)] + ring[i..]
  }

  /** Index of the first point that has a server, or the length. */
  function FirstWith(ring: Ring, master: Server): (i: nat)
    ensures i <= |ring|
    ensures i < |ring| ==> master in ring[i].servers
    ensures forall j :: 0 <= j < i ==> master !in ring[j].servers
  {
    if ring == [] || master in ring[0].servers then 0 else 1 + FirstWith(ring[1..], master)
  }

  /** Appends s to the replica list of the first point that has `master`, if there is one. */
  function PutReplica(ring: Ring, s: Server, master: Server): Ring {
    var i := FirstWith(ring, master);
    if i < |ring| then ring[i := Point(ring[i].hash, ring[i].servers + [s])] else ring
  }

  function Alive(servers: seq<Server>, dead: seq<Server>): seq<Server> {
    if servers == [] then []
    else (if servers[0] in dead then [] else [servers[0]]) + Alive(servers[1..], dead)
  }

  /** Drops dead replicas, and points left without any. */
  function Survivors(ring: Ring, dead: seq<Server>): Ring {
    if ring == [] then []
    else
      var left := Alive(ring[0].servers, dead);
      (if left == [] then [] else [Point(ring[0].hash, left)]) + Survivors(ring[1..], dead)
  }

  // ----- Every published view is sound -----

  ghost predicate GoodPoint(p: Point, view: View) {
    p.servers != [] && forall s :: s in p.servers ==> s in view
  }

  /** Points are in order and every replica list is a non-empty list of members of the view. */
  ghost predicate Sound(ring: Ring, view: View) {
    Ordered(ring) && forall i {:trigger ring[i]} :: 0 <= i < |ring| ==> GoodPoint(ring[i], view)
  }

  /** The index in the old ring of the entry now at j (other than the new entry itself). */
  function PutFrom(ring: Ring, p: int, j: nat): int {
    var i := LowerBound(Hashes(ring), p);
    if j < i || (i < |ring| && ring[i].hash == p) then j else j - 1
  }

  lemma PutEntries(ring: Ring, p: int, servers: seq<Server>)
    ensures var i, r := LowerBound(Hashes(ring), p), Put(ring, p, servers);
            && i < |r| && r[i] == Point(p, servers)
            && forall j :: 0 <= j < |r| && j != i ==>
                 0 <= PutFrom(ring, p, j) < |ring| && r[j] == ring[PutFrom(ring, p, j)]
  {
    var i, r := LowerBound(Hashes(ring), p), Put(ring, p, servers);
    forall j | 0 <= j < |r| && j != i
      ensures 0 <= PutFrom(ring, p, j) < |ring| && r[j] == ring[PutFrom(ring, p, j)]
    {
      if !(i < |ring| && ring[i].hash == p) && j > i {
        assert r[j] == ring[i..][j - i - 1];
      }
    }
  }

  lemma PutKeepsOthers(ring: Ring, p: int, l: seq<Server>, k: nat)
    requires k < |ring| && ring[k].hash != p
    ensures exists j :: 0 <= j < |Put(ring, p, l)| && Put(ring, p, l)[j] == ring[k]
  {
    var i, r := LowerBound(Hashes(ring), p), Put(ring, p, l);
    if k < i || (i < |ring| && ring[i].hash == p) {
      assert k < |r| && r[k] == ring[k];
    } else {
      assert k + 1 < |r| && r[k + 1] == ring[i..][k - i];
    }
  }

  lemma PutIsSound(ring: Ring, view: View, p: int, s: Server)
    requires Sound(ring, view)
    ensures Sound(Put(ring, p, [s]), view + [s])
  {
    var i, r := LowerBound(Hashes(ring), p), Put(ring, p, [s]);
    PutEntries(ring, p, [s]);
    forall a, b | 0 <= a < b < |r| ensures r[a].hash < r[b].hash {
      var _ := PutFrom(ring, p, a);
      var _ := PutFrom(ring, p, b);
    }
    forall j | 0 <= j < |r| ensures GoodPoint(r[j], view + [s]) {
      if j != i {
        assert GoodPoint(ring[PutFrom(ring, p, j)], view);
      }
    }
  }

  lemma PutPoints(ring: Ring, p: int, l: seq<Server>)
    ensures PointSet(Put(ring, p, l)) == PointSet(ring) + {p}
    ensures Has(Put(ring, p, l), p, l)
  {
    var i, r := LowerBound(Hashes(ring), p), Put(ring, p, l);
    PutEntries(ring, p, l);
    assert r[i] == Point(p, l);
    forall q | q in PointSet(ring) ensures q in PointSet(r) {
      var k :| 0 <= k < |ring| && ring[k].hash == q;
      if q != p {
        PutKeepsOthers(ring, p, l, k);
      }
    }
  }

  // ----- Adding a server moves only the keys of its arc -----

  /** Going up the ring from h, with wrap-around, point p comes before every point of the set. */
  ghost predicate InArc(points: set<int>, p: int, h: int) {
    if h <= p then forall q :: q in points ==> !(h <= q < p)
    else forall q :: q in points ==> p <= q < h
  }

  lemma SuccessorWith(points: set<int>, p: int, h: int)
    requires points != {}
    ensures Successor(points + {p}, h) == if InArc(points, p, h) then p else Successor(points, h)
  {
    var r := if InArc(points, p, h) then p else Successor(points, h);
    var all := points + {p};
    forall q | q in all && h <= q ensures h <= r <= q {
      if q in points { assert q in points && h <= q; }
    }
    if forall q :: q in all ==> q < h {
      assert p in all;
      forall q | q in all ensures r <= q {
        assert q == p || q in points;
      }
    }
    assert Serves(all, h, r);
    ServesIsUnique(all, h, r, Successor(all, h));
  }

  /** Adding server s at point p hands exactly the keys of the arc below p to s and leaves every
  other key with the replicas it had. */
  lemma AddServerMovesOnlyArc(ring: Ring, view: View, p: int, s: Server, h: int)
    requires Sound(ring, view) && ring != []
    ensures Put(ring, p, [s]) != []
    ensures var r := Put(ring, p, [s]);
            r[Serving(r, h)] == if InArc(PointSet(ring), p, h) then Point(p, [s]) else ring[Serving(ring, h)]
  {
    var r := Put(ring, p, [s]);
    PutIsSound(ring, view, p, s);
    PutPoints(ring, p, [s]);
    ServingIsSuccessor(ring, h);
    SuccessorWith(PointSet(ring), p, h);
    if InArc(PointSet(ring), p, h) {
      ServedBy(r, h, p, [s]);
    } else {
      var e := ring[Serving(ring, h)];
      assert e.hash != p;
      PutKeepsOthers(ring, p, [s], Serving(ring, h));
      ServedBy(r, h, e.hash, e.servers);
    }
  }

  /** A server has a place on the ring: some point lists it. */
  ghost predicate OnRing(ring: Ring, x: Server) {
    exists i :: 0 <= i < |ring| && x in ring[i].servers
  }

  /** A point other than p lists the server. */
  ghost predicate OnRingBeside(ring: Ring, p: int, x: Server) {
    exists i :: 0 <= i < |ring| && ring[i].hash != p && x in ring[i].servers
  }

  /** Who is on the ring after server s was added at point p: s, and whoever another point lists. */
  lemma OnRingAfterAdd(ring: Ring, view: View, p: int, s: Server, x: Server)
    requires Sound(ring, view)
    ensures OnRing(Put(ring, p, [s]), x) <==> x == s || OnRingBeside(ring, p, x)
  {
    var n, r := LowerBound(Hashes(ring), p), Put(ring, p, [s]);
    PutEntries(ring, p, [s]);
    PutIsSound(ring, view, p, s);
    if x == s {
      assert x in r[n].servers;
    }
    if OnRingBeside(ring, p, x) {
      var i :| 0 <= i < |ring| && ring[i].hash != p && x in ring[i].servers;
      PutKeepsOthers(ring, p, [s], i);
    }
    if OnRing(r, x) && x != s {
      var j :| 0 <= j < |r| && x in r[j].servers;
      assert j != n;
      assert ring[PutFrom(ring, p, j)] == r[j] && r[j].hash != r[n].hash;
    }
  }

  /** If point p was already in use, exactly those of its replicas that no other point lists, and
  that are not s, lose their place on the ring, while the view goes on listing them. */
  lemma CollisionDropsReplicas(ring: Ring, view: View, p: int, s: Server, i: nat, x: Server)
    requires Sound(ring, view) && i < |ring| && ring[i].hash == p && x in ring[i].servers
    ensures PointSet(Put(ring, p, [s])) == PointSet(ring)
    ensures !OnRing(Put(ring, p, [s]), x) <==> x != s && forall j :: 0 <= j < |ring| && j != i ==> x !in ring[j].servers
    ensures x in view + [s]
  {
    PutPoints(ring, p, [s]);
    assert p in PointSet(ring);
    assert GoodPoint(ring[i], view);
    OnRingAfterAdd(ring, view, p, s, x);
  }

  // ----- Adding a replica moves no key -----

  lemma PutReplicaIsSound(ring: Ring, view: View, s: Server, master: Server)
    requires Sound(ring, view)
    ensures Sound(PutReplica(ring, s, master), view + [s])
    ensures Hashes(PutReplica(ring, s, master)) == Hashes(ring)
  {
    var r := PutReplica(ring, s, master);
    forall i | 0 <= i < |r| ensures r[i].hash == ring[i].hash && GoodPoint(r[i], view + [s]) {
      assert GoodPoint(ring[i], view);
    }
  }

  /** Adding a replica moves no key to another point; a key gains at most the new server. */
  lemma AddReplicaMovesNothing(ring: Ring, view: View, s: Server, master: Server, h: int)
    requires Sound(ring, view) && ring != []
    ensures |PutReplica(ring, s, master)| == |ring|
    ensures var i, r := Serving(ring, h), PutReplica(ring, s, master);
            Serving(r, h) == i && r[i].hash == ring[i].hash
            && (r[i].servers == ring[i].servers || (master in ring[i].servers && r[i].servers == ring[i].servers + [s]))
  {
    PutReplicaIsSound(ring, view, s, master);
  }

  /** With the master on the ring exactly one point gains the new server, at the end of its list: the first
  point that lists the master. Without it, the ring stays. */
  lemma AddReplicaGains(ring: Ring, s: Server, master: Server, i: nat)
    requires i < |ring|
    ensures |PutReplica(ring, s, master)| == |ring|
    ensures var first := master in ring[i].servers && forall j :: 0 <= j < i ==> master !in ring[j].servers;
            PutReplica(ring, s, master)[i] == if first then Point(ring[i].hash, ring[i].servers + [s]) else ring[i]
    ensures !OnRing(ring, master) ==> PutReplica(ring, s, master) == ring
  {
  }

  // ----- Removing servers moves only the keys that lost all replicas -----

  lemma {:induction false} AliveMembers(l: seq<Server>, dead: seq<Server>)
    ensures forall x :: x in Alive(l, dead) <==> x in l && x !in dead
  {
    if l != [] {
      AliveMembers(l[1..], dead);
      assert forall x :: x in l <==> x == l[0] || x in l[1..];
    }
  }

  lemma {:induction false} SurvivorHasOrigin(ring: Ring, dead: seq<Server>, k: nat) returns (i: nat)
    requires k < |Survivors(ring, dead)|
    ensures i < |ring| && Survivors(ring, dead)[k] == Point(ring[i].hash, Alive(ring[i].servers, dead))
    ensures Alive(ring[i].servers, dead) != []
  {
    var left := Alive(ring[0].servers, dead);
    if left == [] {
      i := SurvivorHasOrigin(ring[1..], dead, k);
      i := i + 1;
    } else if k == 0 {
      i := 0;
    } else {
      i := SurvivorHasOrigin(ring[1..], dead, k - 1);
      i := i + 1;
    }
  }

  lemma {:induction false} SurvivorStays(ring: Ring, dead: seq<Server>, i: nat) returns (k: nat)
    requires i < |ring| && Alive(ring[i].servers, dead) != []
    ensures k < |Survivors(ring, dead)| && Survivors(ring, dead)[k] == Point(ring[i].hash, Alive(ring[i].servers, dead))
  {
    if i == 0 {
      k := 0;
    } else {
      k := SurvivorStays(ring[1..], dead, i - 1);
      if Alive(ring[0].servers, dead) != [] {
        k := k + 1;
      }
    }
  }

  lemma {:induction false} SurvivorsOrdered(ring: Ring, dead: seq<Server>)
    requires Ordered(ring)
    ensures Ordered(Survivors(ring, dead))
  {
    if ring != [] {
      var rest, tail := ring[1..], Survivors(ring[1..], dead);
      SurvivorsOrdered(rest, dead);
      forall j | 0 <= j < |tail| ensures ring[0].hash < tail[j].hash {
        var i := SurvivorHasOrigin(rest, dead, j);
        assert rest[i] == ring[i + 1];
      }
    }
  }

  lemma SuccessorWithin(points: set<int>, fewer: set<int>, h: int)
    requires points != {} && fewer <= points && Successor(points, h) in fewer
    ensures Successor(fewer, h) == Successor(points, h)
  {
    var p := Successor(points, h);
    if forall q :: q in fewer ==> q < h {
      assert forall q :: q in points ==> q < h;
    }
    assert Serves(fewer, h, p);
    ServesIsUnique(fewer, h, p, Successor(fewer, h));
  }

  /** A key with a surviving replica stays at its point, with its surviving replicas in order. */
  lemma RemovalMovesOnlyOrphans(ring: Ring, view: View, dead: seq<Server>, h: int)
    requires Sound(ring, view) && ring != []
    ensures var e := ring[Serving(ring, h)];
            Alive(e.servers, dead) != [] ==>
              var r := Survivors(ring, dead);
              r != [] && r[Serving(r, h)] == Point(e.hash, Alive(e.servers, dead))
  {
    var e, r := ring[Serving(ring, h)], Survivors(ring, dead);
    var left := Alive(e.servers, dead);
    if left != [] {
      SurvivorsOrdered(ring, dead);
      var k := SurvivorStays(ring, dead, Serving(ring, h));
      ServingIsSuccessor(ring, h);
      assert PointSet(r) <= PointSet(ring) by {
        forall q | q in PointSet(r) ensures q in PointSet(ring) {
          var j :| 0 <= j < |r| && r[j].hash == q;
          var i := SurvivorHasOrigin(ring, dead, j);
        }
      }
      assert e.hash in PointSet(r);
      SuccessorWithin(PointSet(ring), PointSet(r), h);
      ServedBy(r, h, e.hash, left);
    }
  }

  lemma SurvivorsAreSound(ring: Ring, view: View, dead: seq<Server>)
    requires Sound(ring, view)
    ensures Sound(Survivors(ring, dead), Alive(view, dead))
  {
    SurvivorsOrdered(ring, dead);
    AliveMembers(view, dead);
    var r := Survivors(ring, dead);
    forall j | 0 <= j < |r| ensures GoodPoint(r[j], Alive(view, dead)) {
      var i := SurvivorHasOrigin(ring, dead, j);
      assert GoodPoint(ring[i], view);
      AliveMembers(ring[i].servers, dead);
    }
  }

  // ----- The service -----

  datatype Reply = Reply(viewNum: nat, ring: Ring)

  class Handler {
    var viewNum: nat
    var views: seq<View>
    var rings: seq<Ring>

    /** Every view published so far is sound; the last one is current. */
    ghost predicate Valid()
      reads this
    {
      && |views| == |rings| == viewNum + 1
      && forall n {:trigger rings[n]} :: 0 <= n <= viewNum ==> Sound(rings[n], views[n])
    }

    constructor ()
      ensures Valid() && viewNum == 0 && views == [[]] && rings == [[]]
    {
      viewNum, views, rings := 0, [[]], [[]];
    }

    method GetView() returns (r: Reply)
      requires Valid()
      ensures r == Reply(viewNum, rings[viewNum])
      ensures r.viewNum + 1 == |rings| && Sound(r.ring, views[r.viewNum])
    {
      r := Reply(viewNum, rings[viewNum]);
    }

    /** Publishing never touches an earlier view. */
    method Publish(view: View, ring: Ring)
      requires Valid() && Sound(ring, view)
      modifies this
      ensures Valid() && viewNum == old(viewNum) + 1
      ensures views == old(views) + [view] && rings == old(rings) + [ring]
    {
      views := views + [view];
      rings := rings + [ring];
      viewNum := viewNum + 1;
    }

    /** `addServer`, at a point drawn at random. */
    method AddServer(s: Server, point: int)
      requires Valid()
      modifies this
      ensures Valid() && viewNum == old(viewNum) + 1
      ensures views == old(views) + [old(views)[old(viewNum)] + [s]]
      ensures rings == old(rings) + [Put(old(rings)[old(viewNum)], point, [s])]
    {
      PutIsSound(rings[viewNum], views[viewNum], point, s);
      Publish(views[viewNum] + [s], Put(rings[viewNum], point, [s]));
    }

    /** `addReplica`: ignored unless the master is in the current view. */
    method AddReplica(s: Server, master: Server)
      requires Valid()
      modifies this
      ensures Valid()
      ensures if master in old(views)[old(viewNum)] then
                && viewNum == old(viewNum) + 1
                && views == old(views) + [old(views)[old(viewNum)] + [s]]
                && rings == old(rings) + [PutReplica(old(rings)[old(viewNum)], s, master)]
              else views == old(views) && rings == old(rings) && viewNum == old(viewNum)
    {
      var view, ring := views[viewNum], rings[viewNum];
      var ok := false;
      for i := 0 to |view|
        invariant !ok && master !in view[..i]
      {
        if view[i] == master {
          ok := true;
          break;
        }
      }
      if !ok {
        assert view[..|view|] == view;
        return;
      }
      var newRing := ring;
      PutReplicaIsSound(ring, view, s, master);
      for i := 0 to |ring|
        invariant newRing == ring && forall j :: 0 <= j < i ==> master !in ring[j].servers
      {
        if master in ring[i].servers {
          newRing := ring[i := Point(ring[i].hash, ring[i].servers + [s])];
          assert newRing == PutReplica(ring, s, master);
          break;
        }
      }
      assert newRing == PutReplica(ring, s, master);
      Publish(view + [s], newRing);
    }

    /** The view change of `checkPings`, for the servers found dead. */
    method RemoveDead(dead: seq<Server>)
      requires Valid()
      modifies this
      ensures Valid()
      ensures if dead != [] then
                && viewNum == old(viewNum) + 1
                && views == old(views) + [Alive(old(views)[old(viewNum)], dead)]
                && rings == old(rings) + [Survivors(old(rings)[old(viewNum)], dead)]
              else views == old(views) && rings == old(rings) && viewNum == old(viewNum)
    {
      if dead == [] {
        return;
      }
      var view := Filter(views[viewNum], dead);
      var ring := FilterRing(rings[viewNum], dead);
      SurvivorsAreSound(rings[viewNum], views[viewNum], dead);
      Publish(view, ring);
    }
  }

  lemma {:induction false} AliveSplit(a: seq<Server>, b: seq<Server>, dead: seq<Server>)
    ensures Alive(a + b, dead) == Alive(a, dead) + Alive(b, dead)
  {
    if a == [] {
      assert a + b == b;
    } else {
      assert (a + b)[1..] == a[1..] + b;
      AliveSplit(a[1..], b, dead);
    }
  }

  lemma {:induction false} SurvivorsSplit(a: Ring, b: Ring, dead: seq<Server>)
    ensures Survivors(a + b, dead) == Survivors(a, dead) + Survivors(b, dead)
  {
    if a == [] {
      assert a + b == b;
    } else {
      assert (a + b)[1..] == a[1..] + b;
      SurvivorsSplit(a[1..], b, dead);
    }
  }

  method Filter(servers: seq<Server>, dead: seq<Server>) returns (r: seq<Server>)
    ensures r == Alive(servers, dead)
  {
    r := [];
    for i := 0 to |servers|
      invariant r == Alive(servers[..i], dead)
    {
      assert servers[..i + 1] == servers[..i] + [servers[i]];
      AliveSplit(servers[..i], [servers[i]], dead);
      if servers[i] !in dead {
        r := r + [servers[i]];
      }
    }
    assert servers[..|servers|] == servers;
  }

  method FilterRing(ring: Ring, dead: seq<Server>) returns (r: Ring)
    ensures r == Survivors(ring, dead)
  {
    r := [];
    for i := 0 to |ring|
      invariant r == Survivors(ring[..i], dead)
    {
      assert ring[..i + 1] == ring[..i] + [ring[i]];
      SurvivorsSplit(ring[..i], [ring[i]], dead);
      var left := Filter(ring[i].servers, dead);
      if left != [] {
        r := r + [Point(ring[i].hash, left)];
      }
    }
    assert ring[..|ring|] == ring;
  }
}
