/** Per-key version vectors of the replicated cache (prototype/server.cpp).

A version is a list of (server, counter) pairs, searched linearly, exactly as the
node stores it. `AtMost` is the order the nested loops of `atMost` decide. */
module VersionVectors {
  type Bytes = seq<bv8>
  datatype Server = Server(address: Bytes, port: int)
  datatype VersionEntry = VersionEntry(server: Server, version: int)
  type Version = seq<VersionEntry>

  predicate Mentions(v: Version, s: Server) {
    exists j :: 0 <= j < |v| && v[j].server == s
  }

  /** What the two loop nests of `atMost` test, literally. */
  predicate AtMost(v1: Version, v2: Version) {
    && (forall i, j :: 0 <= i < |v1| && 0 <= j < |v2| && v1[i].server == v2[j].server
          ==> v1[i].version <= v2[j].version)
    && (forall i :: 0 <= i < |v1| ==> Mentions(v2, v1[i].server))
  }

  /** Index of the first pair for a server, or the length of the list. */
  function Find(v: Version, s: Server): (i: nat)
    ensures i <= |v|
    ensures i < |v| ==> v[i].server == s
    ensures forall k :: 0 <= k < i ==> v[k].server != s
  {
    if v == [] || v[0].server == s then 0 else 1 + Find(v[1..], s)
  }

  /** The counter a version holds for a server; 0 when the server is not mentioned. */
  function Component(v: Version, s: Server): int {
    if Find(v, s) < |v| then v[Find(v, s)].version else 0
  }

  /** What every version built by puts satisfies: one positive counter per server. */
  ghost predicate WellFormed(v: Version) {
    && (forall i, j :: 0 <= i < j < |v| ==> v[i].server != v[j].server)
    && (forall i :: 0 <= i < |v| ==> v[i].version >= 1)
  }

  method ComputeAtMost(v1: Version, v2: Version) returns (r: bool)
    ensures r <==> AtMost(v1, v2)
  {
    for i := 0 to |v1|
      invariant forall a, b :: 0 <= a < i && 0 <= b < |v2| && v1[a].server == v2[b].server
                  ==> v1[a].version <= v2[b].version
    {
      for j := 0 to |v2|
        invariant forall b :: 0 <= b < j && v1[i].server == v2[b].server
                    ==> v1[i].version <= v2[b].version
      {
        if v1[i].server == v2[j].server && v1[i].version > v2[j].version {
          return false;
        }
      }
    }
    for i := 0 to |v1|
      invariant forall a :: 0 <= a < i ==> Mentions(v2, v1[a].server)
    {
      var ok := false;
      for j := 0 to |v2|
        invariant !ok
        invariant forall b :: 0 <= b < j ==> v1[i].server != v2[b].server
      {
        if v1[i].server == v2[j].server {
          ok := true;
          break;
        }
      }
      if !ok {
        assert !Mentions(v2, v1[i].server);
        return false;
      }
    }
    return true;
  }

  /** On well-formed versions the loops decide the componentwise order. */
  lemma AtMostIsComponentwise(v1: Version, v2: Version)
    requires WellFormed(v1) && WellFormed(v2)
    ensures AtMost(v1, v2) <==> forall s :: Component(v1, s) <= Component(v2, s)
  {
    if AtMost(v1, v2) {
      forall s ensures Component(v1, s) <= Component(v2, s) {
        var i := Find(v1, s);
        if i < |v1| {
          assert Mentions(v2, v1[i].server);
        }
      }
    }
    if forall s :: Component(v1, s) <= Component(v2, s) {
      forall i | 0 <= i < |v1|
        ensures Mentions(v2, v1[i].server)
        ensures forall j :: 0 <= j < |v2| && v1[i].server == v2[j].server ==> v1[i].version <= v2[j].version
      {
        var s := v1[i].server;
        assert Find(v1, s) == i;
        assert Component(v1, s) <= Component(v2, s);
        assert v2[Find(v2, s)].server == s;
      }
    }
  }

  /** What a put does to the version of a live entry: increment this server's counter, or
  start it at 1. */
  function Bump(v: Version, s: Server): Version {
    var i := Find(v, s);
    if i < |v| then v[i := VersionEntry(s, v[i].version + 1)] else v + [VersionEntry(s, 1)]
  }

  method ComputeBump(v: Version, s: Server) returns (r: Version)
    ensures r == Bump(v, s)
  {
    for i := 0 to |v|
      invariant forall k :: 0 <= k < i ==> v[k].server != s
    {
      if v[i].server == s {
        return v[i := VersionEntry(s, v[i].version + 1)];
      }
    }
    r := v + [VersionEntry(s, 1)];
  }

  /** A put raises its own server's counter by one and no other. */
  lemma BumpComponents(v: Version, s: Server)
    requires WellFormed(v)
    ensures WellFormed(Bump(v, s))
    ensures forall t :: Component(Bump(v, s), t) == Component(v, t) + (if t == s then 1 else 0)
  {
    var i, r := Find(v, s), Bump(v, s);
    forall t ensures Component(r, t) == Component(v, t) + (if t == s then 1 else 0) {
      var a, b := Find(v, t), Find(r, t);
      if t == s {
        assert r[i].server == s && forall k :: 0 <= k < i ==> r[k] == v[k];
        assert b == i;
      } else if a < |v| {
        assert r[a] == v[a] && b == a;
      } else {
        assert b == |r|;
      }
    }
  }

  /** What `propagate` does with an incoming version for a key that is already live. */
  datatype Outcome = Skip | Replace | Merge | Invalidate

  function Resolve(current: Version, currentValue: Bytes, incoming: Version, incomingValue: Bytes): Outcome {
    if AtMost(incoming, current) then Skip
    else if AtMost(current, incoming) then Replace
    else if incomingValue == currentValue then Merge
    else Invalidate
  }

  /** Two copies that neither had seen: equal values are merged, different ones are given up. A copy the
  other had seen loses, and the outcome does not depend on the values then. */
  lemma ResolveDecides(current: Version, currentValue: Bytes, incoming: Version, incomingValue: Bytes)
    ensures var r := Resolve(current, currentValue, incoming, incomingValue);
            && (r == Skip <==> AtMost(incoming, current))
            && (r == Replace <==> AtMost(current, incoming) && !AtMost(incoming, current))
            && (r in {Merge, Invalidate} <==> !AtMost(current, incoming) && !AtMost(incoming, current))
            && (r == Merge ==> currentValue == incomingValue)
            && (r == Invalidate ==> currentValue != incomingValue)
  {
  }

  method ComputeResolve(current: Version, currentValue: Bytes, incoming: Version, incomingValue: Bytes)
    returns (r: Outcome)
    ensures r == Resolve(current, currentValue, incoming, incomingValue)
  {
    var stale := ComputeAtMost(incoming, current);
    if stale {
      return Skip;
    }
    var newer := ComputeAtMost(current, incoming);
    if newer {
      return Replace;
    }
    r := if incomingValue == currentValue then Merge else Invalidate;
  }

  /** `updateVersion`: raises the counters of a server that is already mentioned. */
  function Update(v: Version, e: VersionEntry): (r: Version)
    ensures |r| == |v|
  {
    seq(|v|, i requires 0 <= i < |v| =>
      if e.server == v[i].server && v[i].version < e.version then e else v[i])
  }

  /** It takes the larger counter for that server and leaves the others. */
  lemma UpdateRaises(v: Version, e: VersionEntry, s: Server)
    requires WellFormed(v)
    ensures Component(Update(v, e), s) ==
            if s == e.server && Mentions(v, s) && Component(v, s) < e.version then e.version else Component(v, s)
  {
    var r, i := Update(v, e), Find(v, s);
    assert forall k :: 0 <= k < |v| ==> r[k].server == v[k].server;
    assert Find(r, s) == i;
    if Mentions(v, s) {
      var j :| 0 <= j < |v| && v[j].server == s;
      assert i == j;
    }
  }

  /** `maximumVersion`: starts from an empty list and only ever updates existing pairs, so
  it returns the empty version for every input. */
  method MaximumVersion(v1: Version, v2: Version) returns (r: Version)
    ensures r == []
  {
    r := [];
    for i := 0 to |v1|
      invariant r == []
    {
      r := Update(r, v1[i]);
    }
    for i := 0 to |v2|
      invariant r == []
    {
      r := Update(r, v2[i]);
    }
  }

  /** Hence the merged version bounds its arguments only when they are empty themselves,
  while every version at all bounds it. */
  lemma EmptyVersionIsBelowAll(v: Version)
    ensures AtMost([], v)
    ensures AtMost(v, []) <==> v == []
  {
    if v != [] {
      assert !Mentions([], v[0].server);
    }
  }
}
