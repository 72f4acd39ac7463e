/** One key of a cache node is a replica of the anti-entropy protocol: what a node does to its entry
for the key is what the protocol's steps do to the server's copy (prototype/server.cpp). */
module NodeReplica {
  import opened VersionVectors
  import C = CacheSpec
  import R = Replication

  /** The node's entry for k and the server's copy have the same value and version. */
  ghost predicate Same(es: C.Entries, k: Bytes, st: R.State, self: Server) {
    var i := C.IndexOf(es, k);
    && (i < |es| <==> self in st.replicas)
    && (i < |es| ==> es[i].value == st.replicas[self].value && es[i].version == st.replicas[self].version)
  }

  function Replay(st: R.State, steps: seq<R.Step>): R.State {
    if steps == [] then st else R.Next(Replay(st, steps[..|steps| - 1]), steps[|steps| - 1])
  }

  /** Eviction of k, if the operation evicts it. */
  function Evicted(es: C.Entries, self: Server, op: C.Op, k: Bytes): seq<R.Step> {
    if C.IndexOf(es, k) < |es| && C.IndexOf(C.Base(es, op), k) == |C.Base(es, op)| then [R.Remove(self)] else []
  }

  /** The protocol's step for an operation on k itself; the copy of an arrival is named by id. */
  function Own(es: C.Entries, self: Server, op: C.Op, k: Bytes, id: nat): seq<R.Step> {
    if C.KeyOf(op) != k then []
    else match op
      case Put(_, v) => [R.Put(self, v)]
      case Propagate(e) => [R.Deliver(R.Message(self, R.Copy(e.value, e.version, id)))]
      case Remove(_) => if C.IndexOf(es, k) < |es| then [R.Remove(self)] else []
      case Get(_) => []
  }

  /** All steps the operation amounts to for k. */
  function StepsOf(es: C.Entries, self: Server, op: C.Op, k: Bytes, id: nat): seq<R.Step> {
    Evicted(es, self, op, k) + Own(es, self, op, k, id)
  }

  /** With distinct keys the look-up finds an entry where it is. */
  lemma At(es: C.Entries, k: Bytes, i: nat)
    requires C.DistinctKeys(es) && i < |es| && es[i].key == k
    ensures C.IndexOf(es, k) == i
  {
  }

  lemma EvictionIsRemoval(es: C.Entries, self: Server, op: C.Op, k: Bytes, st: R.State)
    requires C.DistinctKeys(es) && Same(es, k, st, self)
    ensures C.DistinctKeys(C.Base(es, op))
    ensures Same(C.Base(es, op), k, Replay(st, Evicted(es, self, op, k)), self)
  {
    var base := C.Base(es, op);
    C.EvictKeepsLongestFittingPrefix(es);
    var i, j := C.IndexOf(es, k), C.IndexOf(base, k);
    if j < |base| {
      assert base[j] == es[j];
      At(es, k, j);
    } else if i < |es| {
      var steps := [R.Remove(self)];
      assert steps[..0] == [] && Replay(st, steps) == R.Removed(st, self);
    }
  }

  /** An operation on another key leaves the entry of k. */
  lemma OthersKeep(es: C.Entries, self: Server, op: C.Op, k: Bytes)
    requires C.DistinctKeys(es) && (C.KeyOf(op) != k || op.Get?)
    ensures var i, after := C.IndexOf(es, k), C.Do(es, C.EditOf(es, self, op));
            var j := C.IndexOf(after, k);
            (i < |es| <==> j < |after|) && (i < |es| ==> after[j] == es[i])
  {
    var ed := C.EditOf(es, self, op);
    var i, after := C.IndexOf(es, k), C.Do(es, ed);
    var j := C.IndexOf(after, k);
    C.DoKeepsDistinct(es, ed);
    if j < |after| {
      C.DoOrigins(es, ed, j);
      At(es, k, if C.Origin(ed, j) < 0 then ed.index else C.Origin(ed, j));
    } else if i < |es| {
      var n := C.NewIndex(es, ed, i);
    }
  }

  /** The entry an operation on k leaves, when the key is in front or gone. */
  lemma OwnIsStep(es: C.Entries, self: Server, op: C.Op, k: Bytes, id: nat, st: R.State)
    requires C.DistinctKeys(es) && Same(es, k, st, self) && C.KeyOf(op) == k && !op.Get?
    ensures Same(C.Do(es, C.EditOf(es, self, op)), k, Replay(st, Own(es, self, op, k, id)), self)
  {
    var ed, steps := C.EditOf(es, self, op), Own(es, self, op, k, id);
    var after := C.Do(es, ed);
    C.DoKeepsDistinct(es, ed);
    if steps != [] {
      assert steps[..0] == [] && Replay(st, steps) == R.Next(st, steps[0]);
    }
    if ed.Push? || ed.Front? {
      At(after, k, 0);
    } else if ed.Change? {
      At(after, k, ed.index);
    } else if ed.Cut? && C.IndexOf(after, k) < |after| {
      C.DoOrigins(es, ed, C.IndexOf(after, k));
    }
  }

  lemma {:induction false} ReplayConcat(st: R.State, a: seq<R.Step>, b: seq<R.Step>)
    ensures Replay(st, a + b) == Replay(Replay(st, a), b)
  {
    if b == [] {
      assert a + b == a;
    } else {
      var n := |b| - 1;
      assert (a + b)[..|a + b| - 1] == a + b[..n];
      ReplayConcat(st, a, b[..n]);
    }
  }

  /** One operation of a node, whatever it does to the rest of the cache, is at most two steps of
  the protocol for k: an eviction and the step of the operation itself. */
  lemma OperationIsSteps(es: C.Entries, self: Server, op: C.Op, k: Bytes, id: nat, st: R.State)
    requires C.DistinctKeys(es) && Same(es, k, st, self)
    ensures |StepsOf(es, self, op, k, id)| <= 2
    ensures Same(C.Apply(es, self, op), k, Replay(st, StepsOf(es, self, op, k, id)), self)
  {
    var base := C.Base(es, op);
    var gone, own := Evicted(es, self, op, k), Own(es, self, op, k, id);
    EvictionIsRemoval(es, self, op, k, st);
    ReplayConcat(st, gone, own);
    if C.KeyOf(op) != k || op.Get? {
      OthersKeep(base, self, op, k);
    } else {
      OwnIsStep(base, self, op, k, id, Replay(st, gone));
    }
  }

  /** The steps of a whole run; ids name the copies that arrive. */
  function RunSteps(self: Server, ops: seq<C.Op>, k: Bytes, ids: seq<nat>): seq<R.Step>
    requires |ids| == |ops|
  {
    if ops == [] then []
    else
      var n := |ops| - 1;
      RunSteps(self, ops[..n], k, ids[..n]) + StepsOf(C.Run(self, ops[..n]), self, ops[n], k, ids[n])
  }

  /** After any run of a node, its entry for any key is the copy the protocol gives its server. */
  lemma {:induction false} RunIsReplica(self: Server, ops: seq<C.Op>, k: Bytes, ids: seq<nat>)
    requires |ids| == |ops|
    ensures Same(C.Run(self, ops), k, Replay(R.Initial, RunSteps(self, ops, k, ids)), self)
  {
    if ops != [] {
      var n := |ops| - 1;
      var before := RunSteps(self, ops[..n], k, ids[..n]);
      RunIsReplica(self, ops[..n], k, ids[..n]);
      C.RunKeepsDistinct(self, ops[..n]);
      OperationIsSteps(C.Run(self, ops[..n]), self, ops[n], k, ids[n], Replay(R.Initial, before));
      ReplayConcat(R.Initial, before, StepsOf(C.Run(self, ops[..n]), self, ops[n], k, ids[n]));
    }
  }
}
