/** Cache nodes that exchange entries (prototype/server.cpp): for every key, what a cluster does is a
run of the anti-entropy protocol, up to the first merge of the key and the first loss of a copy that
counts puts of the node losing it. */
module Cluster {
  import opened Sequences
  import opened VersionVectors
  import opened NodeReplica
  import C = CacheSpec
  import R = Replication

  datatype Parcel = Parcel(to: Server, entry: C.Entry)

  /** The caches of the nodes, and the entries on their way. Parcels may come late, repeatedly or
  never. */
  datatype State = State(nodes: map<Server, C.Entries>, parcels: set<Parcel>)

  datatype Step =
    | Local(server: Server, op: C.Op)                 // a put, a get, or a removal another node asks for
    | Send(server: Server, to: Server, key: Bytes)
    | Deliver(parcel: Parcel)

  const Initial := State(map[], {})

  function At(st: State, s: Server): C.Entries {
    if s in st.nodes then st.nodes[s] else []
  }

  predicate Enabled(st: State, step: Step) {
    match step
    case Local(_, op) => !op.Propagate?
    case Send(s, _, k) => C.IndexOf(At(st, s), k) < |At(st, s)|
    case Deliver(p) => p in st.parcels
  }

  /** The node that acts and what it does, for steps that change a cache. */
  function ServerOf(step: Step): Server {
    if step.Deliver? then step.parcel.to else step.server
  }

  function OpOf(step: Step): C.Op
    requires !step.Send?
  {
    if step.Deliver? then C.Propagate(step.parcel.entry) else step.op
  }

  function Next(st: State, step: Step): State
    requires Enabled(st, step)
  {
    if step.Send? then
      var es := At(st, step.server);
      st.(parcels := st.parcels + {Parcel(step.to, es[C.IndexOf(es, step.key)])})
    else
      var s := ServerOf(step);
      st.(nodes := st.nodes[s := C.Apply(At(st, s), s, OpOf(step))])
  }

  ghost predicate IsRun(steps: seq<Step>, states: seq<State>) {
    && |states| == |steps| + 1
    && states[0] == Initial
    && forall i :: 0 <= i < |steps| ==> IsStep(steps, states, i)
  }

  ghost predicate IsStep(steps: seq<Step>, states: seq<State>, i: nat)
    requires i < |steps| && |states| == |steps| + 1
  {
    Enabled(states[i], steps[i]) && states[i + 1] == Next(states[i], steps[i])
  }

  // ----- What ends the run of a key -----

  /** The operation evicts no copy of k that counts puts of this node, removes none, and does not
  merge one. */
  predicate Harmless(es: C.Entries, self: Server, op: C.Op, k: Bytes) {
    var i, base := C.IndexOf(es, k), C.Base(es, op);
    var j := C.IndexOf(base, k);
    && (i < |es| && j == |base| ==> Component(es[i].version, self) == 0)
    && (C.KeyOf(op) == k && op.Remove? && i < |es| ==> Component(es[i].version, self) == 0)
    && (C.KeyOf(op) == k && op.Propagate? && j < |base| ==>
          var outcome := Resolve(base[j].version, base[j].value, op.entry.version, op.entry.value);
          outcome != Merge && (outcome == Invalidate ==> Component(base[j].version, self) == 0))
  }

  predicate HarmlessStep(st: State, step: Step, k: Bytes) {
    step.Send? || Harmless(At(st, ServerOf(step)), ServerOf(step), OpOf(step), k)
  }

  /** A get is always harmless, and so is a put while the cache is within its limit, for every key. */
  lemma UseIsHarmless(es: C.Entries, self: Server, op: C.Op, k: Bytes)
    requires op.Get? || (op.Put? && C.Size(es) <= 0x4000_0000)
    ensures Harmless(es, self, op, k)
  {
  }

  // ----- The simulation -----

  function PutOf(step: Step, k: Bytes): seq<(Server, Bytes)> {
    if step.Local? && step.op.Put? && step.op.key == k then [(step.server, step.op.value)] else []
  }

  /** The puts of k, in the order in which they were made. */
  function PutsOf(steps: seq<Step>, k: Bytes): seq<(Server, Bytes)> {
    if steps == [] then [] else PutsOf(steps[..|steps| - 1], k) + PutOf(steps[|steps| - 1], k)
  }

  lemma PutsGrow(steps: seq<Step>, k: Bytes, n: nat)
    requires 0 < n <= |steps|
    ensures PutsOf(steps[..n], k) == PutsOf(steps[..n - 1], k) + PutOf(steps[n - 1], k)
  {
    assert steps[..n][..n - 1] == steps[..n - 1];
  }

  function Origins(log: seq<R.PutEvent>): seq<(Server, Bytes)> {
    seq(|log|, i requires 0 <= i < |log| => (log[i].origin, log[i].value))
  }

  ghost predicate Carried(st: R.State, p: Parcel) {
    exists m :: m in st.messages && m.to == p.to && m.copy.value == p.entry.value && m.copy.version == p.entry.version
  }

  ghost predicate SameNodes(st: State, k: Bytes, rst: R.State) {
    forall s :: C.DistinctKeys(At(st, s)) && Same(At(st, s), k, rst, s)
  }

  /** The nodes hold the copies of the protocol's replicas, and every parcel is one of its messages. */
  ghost predicate Sim(st: State, k: Bytes, rst: R.State) {
    SameNodes(st, k, rst) && forall p :: p in st.parcels && p.entry.key == k ==> Carried(rst, p)
  }

  ghost predicate AllEnabled(st: R.State, steps: seq<R.Step>) {
    forall i :: 0 <= i < |steps| ==> R.Enabled(Replay(st, steps[..i]), steps[i])
  }

  predicate ActsAt(step: R.Step, s: Server) {
    match step
    case Put(t, _) => t == s
    case Deliver(m) => m.to == s
    case Remove(t) => t == s
    case Send(_, _) => false
  }

  /** Steps at one server leave the other servers and the messages alone. */
  lemma {:induction false} ActsLocally(st: R.State, steps: seq<R.Step>, s: Server)
    requires forall i :: 0 <= i < |steps| ==> ActsAt(steps[i], s)
    ensures Replay(st, steps).messages == st.messages
    ensures forall t :: t != s ==>
              && (t in Replay(st, steps).replicas <==> t in st.replicas)
              && (t in st.replicas ==> Replay(st, steps).replicas[t] == st.replicas[t])
  {
    if steps != [] {
      ActsLocally(st, steps[..|steps| - 1], s);
    }
  }

  lemma StepsAreLocal(es: C.Entries, self: Server, op: C.Op, k: Bytes, id: nat)
    ensures var steps := StepsOf(es, self, op, k, id);
            forall i :: 0 <= i < |steps| ==> ActsAt(steps[i], self)
  {
  }

  lemma NextLog(st: R.State, step: R.Step)
    ensures Origins(R.Next(st, step).log) == Origins(st.log) + if step.Put? then [(step.server, step.value)] else []
  {
  }

  lemma ReplayOne(st: R.State, steps: seq<R.Step>)
    requires |steps| <= 1
    ensures Replay(st, steps) == if steps == [] then st else R.Next(st, steps[0])
  {
    if steps != [] { assert steps[..0] == []; }
  }

  lemma TwoStepsLog(st: R.State, gone: seq<R.Step>, own: seq<R.Step>)
    requires |gone| <= 1 && |own| <= 1 && (gone != [] ==> !gone[0].Put?)
    ensures Origins(Replay(st, gone + own).log) ==
            Origins(st.log) + if own != [] && own[0].Put? then [(own[0].server, own[0].value)] else []
  {
    var mid := Replay(st, gone);
    ReplayConcat(st, gone, own);
    ReplayOne(st, gone);
    ReplayOne(mid, own);
    if gone != [] { NextLog(st, gone[0]); }
    if own != [] { NextLog(mid, own[0]); }
  }

  /** The log grows by the put, if the operation is one. */
  lemma StepsLog(es: C.Entries, self: Server, op: C.Op, k: Bytes, id: nat, st: R.State)
    ensures var log := Replay(st, StepsOf(es, self, op, k, id)).log;
            Origins(log) == Origins(st.log) + if op.Put? && op.key == k then [(self, op.value)] else []
  {
    TwoStepsLog(st, Evicted(es, self, op, k), Own(es, self, op, k, id));
  }

  /** A harmless operation is made of steps the protocol allows. */
  lemma StepsEnabled(es: C.Entries, self: Server, op: C.Op, k: Bytes, id: nat, st: R.State)
    requires C.DistinctKeys(es) && Same(es, k, st, self) && Harmless(es, self, op, k)
    requires op.Propagate? && op.entry.key == k ==>
               R.Message(self, R.Copy(op.entry.value, op.entry.version, id)) in st.messages
    ensures AllEnabled(st, StepsOf(es, self, op, k, id))
  {
    var gone, own := Evicted(es, self, op, k), Own(es, self, op, k, id);
    var steps, mid := gone + own, Replay(st, gone);
    EvictionIsRemoval(es, self, op, k, st);
    ReplayOne(st, gone);
    assert own != [] ==> R.Enabled(mid, own[0]);
    forall i | 0 <= i < |steps| ensures R.Enabled(Replay(st, steps[..i]), steps[i]) {
      if i < |gone| {
        assert steps[..i] == [] && steps[i] == gone[0];
      } else {
        assert steps[..i] == gone && steps[i] == own[0];
      }
    }
  }

  /** A message of the protocol that a delivered parcel stands for. */
  ghost function IdOf(rst: R.State, p: Parcel): (id: nat)
    requires Carried(rst, p)
    ensures R.Message(p.to, R.Copy(p.entry.value, p.entry.version, id)) in rst.messages
  {
    var m :| m in rst.messages && m.to == p.to && m.copy.value == p.entry.value && m.copy.version == p.entry.version;
    assert m == R.Message(p.to, R.Copy(p.entry.value, p.entry.version, m.copy.id));
    m.copy.id
  }

  /** The protocol's steps for a step of the cluster. */
  ghost function Steps(st: State, step: Step, k: Bytes, rst: R.State): seq<R.Step>
    requires Enabled(st, step) && Sim(st, k, rst)
  {
    if step.Send? then (if step.key == k then [R.Send(step.server, step.to)] else [])
    else
      var id := if step.Deliver? && step.parcel.entry.key == k then IdOf(rst, step.parcel) else 0;
      StepsOf(At(st, ServerOf(step)), ServerOf(step), OpOf(step), k, id)
  }

  lemma OpIsSteps(st: State, step: Step, k: Bytes, rst: R.State)
    requires Enabled(st, step) && Sim(st, k, rst) && !step.Send? && HarmlessStep(st, step, k)
    ensures AllEnabled(rst, Steps(st, step, k, rst))
    ensures Sim(Next(st, step), k, Replay(rst, Steps(st, step, k, rst)))
  {
    var self, op := ServerOf(step), OpOf(step);
    var es, rsteps := At(st, self), Steps(st, step, k, rst);
    var id := if step.Deliver? && step.parcel.entry.key == k then IdOf(rst, step.parcel) else 0;
    assert C.DistinctKeys(es) && Same(es, k, rst, self);
    StepsEnabled(es, self, op, k, id, rst);
    OperationIsSteps(es, self, op, k, id, rst);
    ApplyKeepsDistinct(es, self, op);
    StepsAreLocal(es, self, op, k, id);
    ActsLocally(rst, rsteps, self);
    OthersStay(st, step, k, rst, Replay(rst, rsteps));
  }

  lemma ApplyKeepsDistinct(es: C.Entries, self: Server, op: C.Op)
    requires C.DistinctKeys(es)
    ensures C.DistinctKeys(C.Apply(es, self, op))
  {
    C.EvictKeepsLongestFittingPrefix(es);
    C.DoKeepsDistinct(C.Base(es, op), C.EditOf(C.Base(es, op), self, op));
  }

  lemma OthersStay(st: State, step: Step, k: Bytes, rst: R.State, rst': R.State)
    requires Enabled(st, step) && Sim(st, k, rst) && !step.Send?
    requires rst'.messages == rst.messages
    requires forall t :: t != ServerOf(step) ==>
               && (t in rst'.replicas <==> t in rst.replicas)
               && (t in rst.replicas ==> rst'.replicas[t] == rst.replicas[t])
    requires C.DistinctKeys(At(Next(st, step), ServerOf(step)))
    requires Same(At(Next(st, step), ServerOf(step)), k, rst', ServerOf(step))
    ensures Sim(Next(st, step), k, rst')
  {
    var st' := Next(st, step);
    forall s ensures C.DistinctKeys(At(st', s)) && Same(At(st', s), k, rst', s) {
      assert C.DistinctKeys(At(st, s)) && Same(At(st, s), k, rst, s);
    }
    forall p | p in st'.parcels && p.entry.key == k ensures Carried(rst', p) {
      assert Carried(rst, p);
    }
  }

  lemma SendIsStep(st: State, step: Step, k: Bytes, rst: R.State)
    requires Enabled(st, step) && Sim(st, k, rst) && step.Send?
    ensures AllEnabled(rst, Steps(st, step, k, rst))
    ensures Sim(Next(st, step), k, Replay(rst, Steps(st, step, k, rst)))
  {
    var s, es, st', rsteps := step.server, At(st, step.server), Next(st, step), Steps(st, step, k, rst);
    var rst' := Replay(rst, rsteps);
    assert Same(es, k, rst, s);
    ReplayOne(rst, rsteps);
    assert rsteps != [] ==> rsteps[..0] == [];
    forall t ensures C.DistinctKeys(At(st', t)) && Same(At(st', t), k, rst', t) {
      assert C.DistinctKeys(At(st, t)) && Same(At(st, t), k, rst, t);
    }
    forall p | p in st'.parcels && p.entry.key == k ensures Carried(rst', p) {
      if p in st.parcels {
        assert Carried(rst, p);
      } else {
        assert R.Message(p.to, rst.replicas[s]) in rst'.messages;
      }
    }
  }

  lemma StepIsSteps(st: State, step: Step, k: Bytes, rst: R.State)
    requires Enabled(st, step) && Sim(st, k, rst) && HarmlessStep(st, step, k)
    ensures AllEnabled(rst, Steps(st, step, k, rst))
    ensures Sim(Next(st, step), k, Replay(rst, Steps(st, step, k, rst)))
  {
    if step.Send? {
      SendIsStep(st, step, k, rst);
    } else {
      OpIsSteps(st, step, k, rst);
    }
  }

  lemma StepLog(st: State, step: Step, k: Bytes, rst: R.State)
    requires Enabled(st, step) && Sim(st, k, rst)
    ensures Origins(Replay(rst, Steps(st, step, k, rst)).log) == Origins(rst.log) + PutOf(step, k)
  {
    if step.Send? {
      ReplayOne(rst, Steps(st, step, k, rst));
    } else {
      var id := if step.Deliver? && step.parcel.entry.key == k then IdOf(rst, step.parcel) else 0;
      StepsLog(At(st, ServerOf(step)), ServerOf(step), OpOf(step), k, id, rst);
    }
  }

  // ----- Whole runs -----

  lemma {:induction false} Extend(steps: seq<R.Step>, states: seq<R.State>, more: seq<R.Step>)
    returns (steps': seq<R.Step>, states': seq<R.State>)
    requires R.IsRun(steps, states) && AllEnabled(states[|steps|], more)
    ensures R.IsRun(steps', states') && states'[|steps'|] == Replay(states[|steps|], more)
    decreases |more|
  {
    if more == [] {
      return steps, states;
    }
    var n, st := |more| - 1, states[|steps|];
    forall i | 0 <= i < n ensures R.Enabled(Replay(st, more[..n][..i]), more[..n][i]) {
      assert more[..n][..i] == more[..i] && R.Enabled(Replay(st, more[..i]), more[i]);
    }
    steps', states' := Extend(steps, states, more[..n]);
    assert R.Enabled(Replay(st, more[..n]), more[n]);
    steps', states' := ExtendOne(steps', states', more[n]);
  }

  lemma ExtendOne(steps: seq<R.Step>, states: seq<R.State>, step: R.Step)
    returns (steps': seq<R.Step>, states': seq<R.State>)
    requires R.IsRun(steps, states) && R.Enabled(states[|steps|], step)
    ensures R.IsRun(steps', states') && states'[|steps'|] == R.Next(states[|steps|], step)
  {
    steps', states' := steps + [step], states + [R.Next(states[|steps|], step)];
    forall i | 0 <= i < |steps'| ensures R.IsStep(steps', states', i) {
      if i < |steps| { assert R.IsStep(steps, states, i); }
    }
  }

  ghost predicate HarmlessRun(steps: seq<Step>, states: seq<State>, k: Bytes, n: nat)
    requires IsRun(steps, states) && n <= |steps|
  {
    forall i :: 0 <= i < n ==> HarmlessStep(states[i], steps[i], k)
  }

  /** The run of the protocol has these puts and leads to this state. */
  ghost predicate LeadsTo(rsteps: seq<R.Step>, rstates: seq<R.State>, puts: seq<(Server, Bytes)>, st: State, k: Bytes) {
    && R.IsRun(rsteps, rstates)
    && Sim(st, k, rstates[|rsteps|])
    && Origins(rstates[|rsteps|].log) == puts
  }

  lemma RunStarts(k: Bytes)
    ensures LeadsTo([], [R.Initial], [], Initial, k)
  {
  }

  lemma RunGoesOn(st: State, step: Step, k: Bytes,
                  rsteps: seq<R.Step>, rstates: seq<R.State>, puts: seq<(Server, Bytes)>)
    returns (rsteps': seq<R.Step>, rstates': seq<R.State>)
    requires LeadsTo(rsteps, rstates, puts, st, k) && Enabled(st, step) && HarmlessStep(st, step, k)
    ensures LeadsTo(rsteps', rstates', puts + PutOf(step, k), Next(st, step), k)
  {
    var rst := rstates[|rsteps|];
    StepIsSteps(st, step, k, rst);
    StepLog(st, step, k, rst);
    rsteps', rstates' := Extend(rsteps, rstates, Steps(st, step, k, rst));
  }

  lemma StepOfRun(steps: seq<Step>, states: seq<State>, k: Bytes, n: nat)
    requires IsRun(steps, states) && 0 < n <= |steps| && HarmlessRun(steps, states, k, n)
    ensures HarmlessRun(steps, states, k, n - 1) && HarmlessStep(states[n - 1], steps[n - 1], k)
    ensures Enabled(states[n - 1], steps[n - 1]) && states[n] == Next(states[n - 1], steps[n - 1])
    ensures PutsOf(steps[..n], k) == PutsOf(steps[..n - 1], k) + PutOf(steps[n - 1], k)
  {
    assert IsStep(steps, states, n - 1);
    PutsGrow(steps, k, n);
  }

  /** Every run of a cluster is, for every key, a run of the protocol, as long as no step merges the key
  or loses a copy of it that counts puts of its own node. The puts of that run are the cluster's. */
  lemma {:induction false} ClusterIsRun(steps: seq<Step>, states: seq<State>, k: Bytes, n: nat)
    returns (rsteps: seq<R.Step>, rstates: seq<R.State>)
    requires IsRun(steps, states) && n <= |steps| && HarmlessRun(steps, states, k, n)
    ensures LeadsTo(rsteps, rstates, PutsOf(steps[..n], k), states[n], k)
    decreases n
  {
    if n == 0 {
      RunStarts(k);
      return [], [R.Initial];
    }
    var before, rbefore := ClusterIsRun(steps, states, k, n - 1);
    StepOfRun(steps, states, k, n);
    rsteps, rstates := RunGoesOn(states[n - 1], steps[n - 1], k, before, rbefore, PutsOf(steps[..n - 1], k));
  }

  // ----- What the nodes of a cluster are promised -----

  /** The node's version of k, the empty one if it has no entry. */
  function VersionAt(st: State, s: Server, k: Bytes): Version {
    var i := C.IndexOf(At(st, s), k);
    if i < |At(st, s)| then At(st, s)[i].version else []
  }

  lemma CopyAt(st: State, k: Bytes, rst: R.State, s: Server)
    requires Sim(st, k, rst)
    ensures R.Own(rst, s) == Component(VersionAt(st, s, k), s)
    ensures C.IndexOf(At(st, s), k) < |At(st, s)| ==>
              s in rst.replicas && R.Holds(rst, rst.replicas[s]) && rst.replicas[s].version == VersionAt(st, s, k)
  {
    assert Same(At(st, s), k, rst, s);
  }

  /** No node's entry and no entry on its way counts more puts of a node than that node's own entry. */
  lemma NoNodeIsAhead(steps: seq<Step>, states: seq<State>, k: Bytes, n: nat, s: Server, t: Server)
    requires IsRun(steps, states) && n <= |steps| && HarmlessRun(steps, states, k, n)
    ensures Component(VersionAt(states[n], t, k), s) <= Component(VersionAt(states[n], s, k), s)
    ensures forall p :: p in states[n].parcels && p.entry.key == k ==>
              Component(p.entry.version, s) <= Component(VersionAt(states[n], s, k), s)
  {
    var rsteps, rstates := ClusterIsRun(steps, states, k, n);
    var rst := rstates[|rsteps|];
    forall p | p in states[n].parcels && p.entry.key == k
      ensures Component(p.entry.version, s) <= R.Own(rst, s)
    {
      var m := R.Message(p.to, R.Copy(p.entry.value, p.entry.version, IdOf(rst, p)));
      R.NoOneIsAhead(rsteps, rstates, |rsteps|, m.copy, s);
    }
    CopyAt(states[n], k, rst, s);
    CopyAt(states[n], k, rst, t);
    if C.IndexOf(At(states[n], t), k) < |At(states[n], t)| {
      R.NoOneIsAhead(rsteps, rstates, |rsteps|, rst.replicas[t], s);
    } else {
      R.RunKeepsInv(rsteps, rstates, |rsteps|);
      OwnIsNatural(rst, s);
    }
  }

  lemma OwnIsNatural(rst: R.State, s: Server)
    requires R.Inv(rst)
    ensures R.Own(rst, s) >= 0
  {
    if s in rst.replicas {
      assert R.Recorded(rst.log, rst.replicas[s]) && R.GoodEvent(rst.log, rst.replicas[s].id);
    }
  }

  /** Nodes whose versions of k agree on every server have the same value for it. */
  lemma NodesAgree(steps: seq<Step>, states: seq<State>, k: Bytes, n: nat, s: Server, t: Server)
    requires IsRun(steps, states) && n <= |steps| && HarmlessRun(steps, states, k, n)
    requires C.Lookup(At(states[n], s), k).Some? && C.Lookup(At(states[n], t), k).Some?
    requires forall u :: Component(VersionAt(states[n], s, k), u) == Component(VersionAt(states[n], t, k), u)
    ensures C.Lookup(At(states[n], s), k) == C.Lookup(At(states[n], t), k)
  {
    var rsteps, rstates := ClusterIsRun(steps, states, k, n);
    var rst := rstates[|rsteps|];
    CopyAt(states[n], k, rst, s);
    CopyAt(states[n], k, rst, t);
    assert Same(At(states[n], s), k, rst, s) && Same(At(states[n], t), k, rst, t);
    R.EqualVersionsEqualValues(rsteps, rstates, |rsteps|, rst.replicas[s], rst.replicas[t]);
  }

  /** What a node does with a parcel follows the causal order of the puts of the key in the run: `mine`
  and `theirs` are the puts whose values the node and the parcel hold. */
  lemma ArrivalsFollowCausality(steps: seq<Step>, states: seq<State>, k: Bytes, n: nat, p: Parcel)
    returns (log: seq<R.PutEvent>, mine: nat, theirs: nat)
    requires IsRun(steps, states) && n <= |steps| && HarmlessRun(steps, states, k, n)
    requires p in states[n].parcels && p.entry.key == k && C.Lookup(At(states[n], p.to), k).Some?
    ensures R.GoodLog(log) && Origins(log) == PutsOf(steps[..n], k) && mine < |log| && theirs < |log|
    ensures log[theirs].value == p.entry.value && log[theirs].version == p.entry.version
    ensures var e := At(states[n], p.to)[C.IndexOf(At(states[n], p.to), k)];
            var outcome := Resolve(e.version, e.value, p.entry.version, p.entry.value);
            && log[mine].value == e.value && log[mine].version == e.version
            && (outcome == Skip <==> R.Saw(log, mine, theirs))
            && (outcome == Replace <==> R.Saw(log, theirs, mine) && theirs != mine)
            && (outcome in {Merge, Invalidate} <==> !R.Saw(log, theirs, mine) && !R.Saw(log, mine, theirs))
  {
    var rsteps, rstates := ClusterIsRun(steps, states, k, n);
    var rst := rstates[|rsteps|];
    assert Same(At(states[n], p.to), k, rst, p.to) && Carried(rst, p);
    var m := R.Message(p.to, R.Copy(p.entry.value, p.entry.version, IdOf(rst, p)));
    R.DeliveryFollowsCausality(rsteps, rstates, |rsteps|, m);
    assert R.Recorded(rst.log, m.copy) && R.Recorded(rst.log, rst.replicas[p.to]);
    log, mine, theirs := rst.log, rst.replicas[p.to].id, m.copy.id;
  }

  // ----- Entries travel -----

  /** An entry sent to a node arrives: a node that has nothing for the key, or a copy the sender had seen, then
  has the sender's value. */
  lemma EntryTravels(st: State, s: Server, t: Server, k: Bytes)
    requires C.IndexOf(At(st, s), k) < |At(st, s)| && C.DistinctKeys(At(st, t)) && s != t
    ensures Enabled(st, Send(s, t, k))
    ensures var e := At(st, s)[C.IndexOf(At(st, s), k)];
            var st1, base := Next(st, Send(s, t, k)), C.Evict(At(st, t));
            var i := C.IndexOf(base, k);
            && Enabled(st1, Deliver(Parcel(t, e)))
            && (i == |base| || (AtMost(base[i].version, e.version) && !AtMost(e.version, base[i].version)) ==>
                  C.Lookup(At(Next(st1, Deliver(Parcel(t, e))), t), k) == Some(e.value))
  {
    var e := At(st, s)[C.IndexOf(At(st, s), k)];
    C.ArrivalLookup(At(st, t), t, e);
  }
}
