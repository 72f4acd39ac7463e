/** Anti-entropy between the replicas of one key, within one view (prototype/server.cpp).

Replicas accept puts and exchange copies of their entry in messages that may be delayed,
reordered, duplicated or lost. Every put is recorded in a log together with the put whose
value it overwrote; no step reads the log or a copy's `id`, they only name histories.
A copy is removed by eviction, or because it conflicts with another. A run ends where a delivery
would merge, and where a server would lose a copy that counts one of its own puts: exactly there
the invariant breaks (`RemovalIsSafeIff`). */
module Replication {
  import opened VersionVectors

  datatype Copy = Copy(value: Bytes, version: Version, id: nat)
  datatype Message = Message(to: Server, copy: Copy)
  datatype PutEvent = PutEvent(origin: Server, value: Bytes, version: Version, parent: int)
  datatype State = State(replicas: map<Server, Copy>, messages: set<Message>, log: seq<PutEvent>)

  datatype Step =
    | Put(server: Server, value: Bytes)
    | Send(server: Server, to: Server)
    | Deliver(message: Message)
    | Remove(server: Server)

  const Initial := State(map[], {}, [])

  ghost predicate Enabled(st: State, step: Step) {
    match step
    case Put(_, _) => true
    case Send(s, _) => s in st.replicas
    case Deliver(m) =>
      && m in st.messages
      && (m.to in st.replicas ==>
            || Arrival(st, m) in {Skip, Replace}
            || (Arrival(st, m) == Invalidate && Own(st, m.to) == 0))
    case Remove(s) => s in st.replicas && Own(st, s) == 0
  }

  function Arrival(st: State, m: Message): Outcome
    requires m.to in st.replicas
  {
    var cur := st.replicas[m.to];
    Resolve(cur.version, cur.value, m.copy.version, m.copy.value)
  }

  function Next(st: State, step: Step): State {
    match step
    case Put(s, value) =>
      var first := s !in st.replicas;
      var version := if first then [VersionEntry(s, 1)] else Bump(st.replicas[s].version, s);
      var parent := if first then -1 else st.replicas[s].id;
      st.(replicas := st.replicas[s := Copy(value, version, |st.log|)],
          log := st.log + [PutEvent(s, value, version, parent)])
    case Send(s, to) =>
      if s in st.replicas then st.(messages := st.messages + {Message(to, st.replicas[s])}) else st
    case Deliver(m) =>
      if m.to in st.replicas then Delivered(st, m) else st.(replicas := st.replicas[m.to := m.copy])
    case Remove(s) => Removed(st, s)
  }

  /** A delivery to a server that holds a copy. */
  function Delivered(st: State, m: Message): State
    requires m.to in st.replicas
  {
    match Arrival(st, m)
    case Skip => st
    case Replace => st.(replicas := st.replicas[m.to := m.copy])
    case Merge => st.(replicas := st.replicas[m.to := st.replicas[m.to].(version := [])])
    case Invalidate => Removed(st, m.to)
  }

  function Removed(st: State, s: Server): State {
    st.(replicas := st.replicas - {s})
  }

  ghost predicate IsRun(steps: seq<Step>, states: seq<State>) {
    && |states| == |steps| + 1
    && states[0] == Initial
    && forall i :: 0 <= i < |steps| ==> IsStep(steps, states, i)
  }

  ghost predicate IsStep(steps: seq<Step>, states: seq<State>, i: nat)
    requires i < |steps| && |states| == |steps| + 1
  {
    Enabled(states[i], steps[i]) && states[i + 1] == Next(states[i], steps[i])
  }

  // ----- The invariant -----

  ghost predicate Recorded(log: seq<PutEvent>, c: Copy) {
    c.id < |log| && log[c.id].version == c.version && log[c.id].value == c.value
  }

  ghost predicate GoodEvent(log: seq<PutEvent>, i: nat)
    requires i < |log|
  {
    var e := log[i];
    && WellFormed(e.version)
    && -1 <= e.parent < i
    && e.version == if e.parent == -1 then [VersionEntry(e.origin, 1)] else Bump(log[e.parent].version, e.origin)
  }

  /** A server's puts carry strictly increasing counters of that server. */
  ghost predicate Serial(log: seq<PutEvent>) {
    forall i, j :: 0 <= i < j < |log| && log[i].origin == log[j].origin
      ==> Component(log[i].version, log[i].origin) < Component(log[j].version, log[i].origin)
  }

  ghost predicate GoodLog(log: seq<PutEvent>) {
    Serial(log) && forall i :: 0 <= i < |log| ==> GoodEvent(log, i)
  }

  /** Server s's own counter, 0 while it holds no copy. */
  function Own(st: State, s: Server): int {
    if s in st.replicas then Component(st.replicas[s].version, s) else 0
  }

  ghost predicate Bounded(st: State) {
    forall i, s :: 0 <= i < |st.log| ==> Component(st.log[i].version, s) <= Own(st, s)
  }

  ghost predicate Inv(st: State) {
    && GoodLog(st.log)
    && (forall s :: s in st.replicas ==> Recorded(st.log, st.replicas[s]))
    && (forall m :: m in st.messages ==> Recorded(st.log, m.copy))
    && Bounded(st)
  }

  lemma PutKeepsLog(st: State, s: Server, value: Bytes)
    requires Inv(st)
    ensures GoodLog(Next(st, Put(s, value)).log)
  {
    var log := st.log;
    var log' := Next(st, Put(s, value)).log;
    var e := log'[|log|];
    if s in st.replicas {
      assert Recorded(log, st.replicas[s]);
      assert GoodEvent(log, st.replicas[s].id);
      BumpComponents(st.replicas[s].version, s);
    }
    assert Component(e.version, s) == Own(st, s) + 1;
    assert forall i :: 0 <= i < |log| ==> log'[i] == log[i] && GoodEvent(log, i);
    forall i | 0 <= i < |log'| ensures GoodEvent(log', i) {
      if i < |log| { assert GoodEvent(log, i); }
    }
  }

  lemma PutKeepsBound(st: State, s: Server, value: Bytes)
    requires Inv(st)
    ensures Bounded(Next(st, Put(s, value)))
  {
    var st' := Next(st, Put(s, value));
    var version := st'.replicas[s].version;
    if s in st.replicas {
      assert Recorded(st.log, st.replicas[s]);
      assert GoodEvent(st.log, st.replicas[s].id);
      BumpComponents(st.replicas[s].version, s);
    }
    forall i, t | 0 <= i < |st'.log| ensures Component(st'.log[i].version, t) <= Own(st', t) {
      assert Own(st', t) == Own(st, t) + if t == s then 1 else 0;
      if i < |st.log| {
        assert st'.log[i] == st.log[i];
        assert Component(st.log[i].version, t) <= Own(st, t);
      } else {
        assert st'.log[i].version == version;
        if s in st.replicas {
          assert Component(st.log[st.replicas[s].id].version, t) <= Own(st, t);
        } else {
          assert Component(version, t) == if t == s then 1 else 0;
          if t in st.replicas {
            assert Recorded(st.log, st.replicas[t]) && GoodEvent(st.log, st.replicas[t].id);
          }
        }
      }
    }
  }

  lemma ReplaceGrows(st: State, m: Message)
    requires Inv(st) && m in st.messages && m.to in st.replicas && Arrival(st, m) == Replace
    ensures Component(st.replicas[m.to].version, m.to) <= Component(m.copy.version, m.to)
  {
    assert Recorded(st.log, m.copy) && GoodEvent(st.log, m.copy.id);
    assert Recorded(st.log, st.replicas[m.to]) && GoodEvent(st.log, st.replicas[m.to].id);
    AtMostIsComponentwise(st.replicas[m.to].version, m.copy.version);
  }

  lemma DeliverGrowsOwn(st: State, m: Message, t: Server)
    requires Inv(st) && Enabled(st, Deliver(m))
    ensures Own(st, t) <= Own(Next(st, Deliver(m)), t)
  {
    if t == m.to && t in st.replicas && Arrival(st, m) == Replace {
      ReplaceGrows(st, m);
    } else if t == m.to && t !in st.replicas {
      assert Recorded(st.log, m.copy) && GoodEvent(st.log, m.copy.id);
    }
  }

  lemma DeliverKeepsBound(st: State, m: Message)
    requires Inv(st) && Enabled(st, Deliver(m))
    ensures Bounded(Next(st, Deliver(m)))
  {
    var st' := Next(st, Deliver(m));
    forall i, t | 0 <= i < |st'.log| ensures Component(st'.log[i].version, t) <= Own(st', t) {
      DeliverGrowsOwn(st, m, t);
      assert st'.log == st.log && Component(st.log[i].version, t) <= Own(st, t);
    }
  }

  lemma RemovalKeepsInv(st: State, s: Server)
    requires Inv(st) && Own(st, s) == 0
    ensures Inv(Removed(st, s))
  {
    assert forall t :: Own(Removed(st, s), t) == Own(st, t);
  }

  lemma NextKeepsInv(st: State, step: Step)
    requires Inv(st) && Enabled(st, step)
    ensures Inv(Next(st, step))
  {
    var st' := Next(st, step);
    match step
    case Put(s, value) =>
      PutKeepsLog(st, s, value);
      PutKeepsBound(st, s, value);
    case Send(s, to) =>
      assert forall t :: Own(st', t) == Own(st, t);
    case Deliver(m) =>
      DeliverKeepsBound(st, m);
    case Remove(s) =>
      RemovalKeepsInv(st, s);
  }

  lemma {:induction false} RunKeepsInv(steps: seq<Step>, states: seq<State>, n: nat)
    requires IsRun(steps, states) && n < |states|
    ensures Inv(states[n])
  {
    if n > 0 {
      RunKeepsInv(steps, states, n - 1);
      assert IsStep(steps, states, n - 1);
      NextKeepsInv(states[n - 1], steps[n - 1]);
    }
  }

  lemma RunTakes(steps: seq<Step>, states: seq<State>, n: nat)
    requires IsRun(steps, states) && n < |steps|
    ensures Inv(states[n]) && Enabled(states[n], steps[n]) && states[n + 1] == Next(states[n], steps[n])
  {
    RunKeepsInv(steps, states, n);
    assert IsStep(steps, states, n);
  }

  // ----- Version vectors are exactly causal histories -----

  /** Put i is put j or was overwritten, directly or through other puts, by put j. */
  ghost predicate Saw(log: seq<PutEvent>, j: nat, i: nat)
    requires GoodLog(log) && j < |log|
    decreases j
  {
    i == j || (assert GoodEvent(log, j); log[j].parent != -1 && Saw(log, log[j].parent, i))
  }

  lemma {:induction false} SawIsOlder(log: seq<PutEvent>, j: nat, i: nat)
    requires GoodLog(log) && j < |log| && Saw(log, j, i)
    ensures i <= j
    ensures forall s :: Component(log[i].version, s) <= Component(log[j].version, s)
    decreases j
  {
    if i != j {
      assert GoodEvent(log, j);
      var p := log[j].parent;
      assert GoodEvent(log, p);
      SawIsOlder(log, p, i);
      BumpComponents(log[p].version, log[j].origin);
    }
  }

  /** Every counter value up to the current one was set by some put in the history. */
  lemma {:induction false} HistoryHoldsCounter(log: seq<PutEvent>, j: nat, s: Server, n: int) returns (k: nat)
    requires GoodLog(log) && j < |log| && 1 <= n <= Component(log[j].version, s)
    ensures k < |log| && Saw(log, j, k) && log[k].origin == s && Component(log[k].version, s) == n
    decreases j
  {
    var e := log[j];
    assert GoodEvent(log, j);
    if e.origin == s && Component(e.version, s) == n {
      return j;
    }
    if e.parent == -1 {
      assert false;
    } else {
      assert GoodEvent(log, e.parent);
      BumpComponents(log[e.parent].version, e.origin);
      k := HistoryHoldsCounter(log, e.parent, s, n);
    }
  }

  lemma OwnCounterPositive(log: seq<PutEvent>, i: nat)
    requires GoodLog(log) && i < |log|
    ensures Component(log[i].version, log[i].origin) >= 1
  {
    assert GoodEvent(log, i);
    var e := log[i];
    if e.parent != -1 {
      assert GoodEvent(log, e.parent);
      BumpComponents(log[e.parent].version, e.origin);
    }
  }

  /** The main theorem: the order `atMost` computes is causality, in both directions. */
  lemma AtMostIsCausality(log: seq<PutEvent>, i: nat, j: nat)
    requires GoodLog(log) && i < |log| && j < |log|
    ensures AtMost(log[i].version, log[j].version) <==> Saw(log, j, i)
  {
    assert GoodEvent(log, i) && GoodEvent(log, j);
    AtMostIsComponentwise(log[i].version, log[j].version);
    if AtMost(log[i].version, log[j].version) {
      OwnCounterPositive(log, i);
      var s := log[i].origin;
      var k := HistoryHoldsCounter(log, j, s, Component(log[i].version, s));
      assert k == i;
    }
    if Saw(log, j, i) {
      SawIsOlder(log, j, i);
    }
  }

  lemma SawIsAntisymmetric(log: seq<PutEvent>, i: nat, j: nat)
    requires GoodLog(log) && i < |log| && j < |log| && Saw(log, j, i) && Saw(log, i, j)
    ensures i == j
  {
    SawIsOlder(log, j, i);
    SawIsOlder(log, i, j);
  }

  // ----- What this gives at every state of every run -----

  /** The copies in a state: those at replicas and those in messages. */
  ghost predicate Holds(st: State, c: Copy) {
    (exists s :: s in st.replicas && st.replicas[s] == c) || (exists m :: m in st.messages && m.copy == c)
  }

  /** Nobody is ahead of a server on that server's own counter. */
  lemma NoOneIsAhead(steps: seq<Step>, states: seq<State>, n: nat, c: Copy, s: Server)
    requires IsRun(steps, states) && n < |states| && Holds(states[n], c)
    ensures Component(c.version, s) <= Own(states[n], s)
  {
    RunKeepsInv(steps, states, n);
    assert Recorded(states[n].log, c);
    assert Component(states[n].log[c.id].version, s) <= Own(states[n], s);
  }

  /** Versions that agree on every server name the same put, so carry the same value. */
  lemma EqualVersionsEqualValues(steps: seq<Step>, states: seq<State>, n: nat, c: Copy, d: Copy)
    requires IsRun(steps, states) && n < |states| && Holds(states[n], c) && Holds(states[n], d)
    requires forall s :: Component(c.version, s) == Component(d.version, s)
    ensures c == d
  {
    RunKeepsInv(steps, states, n);
    var log := states[n].log;
    assert Recorded(log, c) && Recorded(log, d);
    assert GoodEvent(log, c.id) && GoodEvent(log, d.id);
    AtMostIsComponentwise(c.version, d.version);
    AtMostIsComponentwise(d.version, c.version);
    AtMostIsCausality(log, c.id, d.id);
    AtMostIsCausality(log, d.id, c.id);
    SawIsAntisymmetric(log, c.id, d.id);
  }

  /** A delivery overwrites a copy exactly when the incoming put had seen, and is not, the put
  it overwrites; it is skipped exactly when the replica's put had seen it; and merging or
  invalidating happens exactly between puts neither of which had seen the other. */
  lemma DeliveryFollowsCausality(steps: seq<Step>, states: seq<State>, n: nat, m: Message)
    requires IsRun(steps, states) && n < |states|
    requires m in states[n].messages && m.to in states[n].replicas
    ensures Inv(states[n]) && m.copy.id < |states[n].log| && states[n].replicas[m.to].id < |states[n].log|
    ensures var log, mine, theirs := states[n].log, states[n].replicas[m.to].id, m.copy.id;
            && (Arrival(states[n], m) == Skip <==> Saw(log, mine, theirs))
            && (Arrival(states[n], m) == Replace <==> Saw(log, theirs, mine) && theirs != mine)
            && (Arrival(states[n], m) in {Merge, Invalidate} <==> !Saw(log, theirs, mine) && !Saw(log, mine, theirs))
  {
    RunKeepsInv(steps, states, n);
    var log, mine, theirs := states[n].log, states[n].replicas[m.to], m.copy;
    assert Recorded(log, mine) && Recorded(log, theirs);
    AtMostIsCausality(log, theirs.id, mine.id);
    AtMostIsCausality(log, mine.id, theirs.id);
    if Saw(log, theirs.id, mine.id) && Saw(log, mine.id, theirs.id) {
      SawIsAntisymmetric(log, mine.id, theirs.id);
    }
  }

  // ----- A server never goes back -----

  lemma {:induction false} SawIsTransitive(log: seq<PutEvent>, k: nat, j: nat, i: nat)
    requires GoodLog(log) && k < |log| && j < |log| && Saw(log, k, j) && Saw(log, j, i)
    ensures Saw(log, k, i)
    decreases k
  {
    if k != j {
      assert GoodEvent(log, k);
      SawIsTransitive(log, log[k].parent, j, i);
    }
  }

  lemma {:induction false} SawStays(log: seq<PutEvent>, more: seq<PutEvent>, j: nat, i: nat)
    requires GoodLog(log) && GoodLog(more) && log <= more && j < |log|
    ensures Saw(log, j, i) <==> Saw(more, j, i)
    decreases j
  {
    if i != j {
      assert GoodEvent(log, j) && log[j] == more[j];
      if log[j].parent != -1 { SawStays(log, more, log[j].parent, i); }
    }
  }

  /** A step that leaves a server a copy leaves it one that saw the copy it had. */
  lemma StepMovesForward(st: State, step: Step, s: Server)
    requires Inv(st) && Enabled(st, step) && s in st.replicas && s in Next(st, step).replicas
    ensures Inv(Next(st, step)) && st.log <= Next(st, step).log
    ensures st.replicas[s].id < |st.log| && Next(st, step).replicas[s].id < |Next(st, step).log|
    ensures Saw(Next(st, step).log, Next(st, step).replicas[s].id, st.replicas[s].id)
  {
    NextKeepsInv(st, step);
    var st' := Next(st, step);
    var was, now := st.replicas[s], st'.replicas[s];
    assert Recorded(st.log, was) && Recorded(st'.log, now);
    if now != was && !step.Put? {
      AtMostIsCausality(st.log, was.id, now.id);
    }
  }

  /** The copy server s holds is a copy of put i, or saw it. */
  ghost predicate HasSeen(st: State, s: Server, i: nat) {
    && GoodLog(st.log) && s in st.replicas && st.replicas[s].id < |st.log|
    && i < |st.log| && Saw(st.log, st.replicas[s].id, i)
  }

  lemma ForwardOver(st: State, step: Step, s: Server, i: nat)
    requires Inv(st) && Enabled(st, step) && HasSeen(st, s, i) && s in Next(st, step).replicas
    ensures HasSeen(Next(st, step), s, i)
  {
    StepMovesForward(st, step, s);
    var st' := Next(st, step);
    SawStays(st.log, st'.log, st.replicas[s].id, i);
    SawIsTransitive(st'.log, st'.replicas[s].id, st.replicas[s].id, i);
  }

  lemma ForwardInRun(steps: seq<Step>, states: seq<State>, s: Server, n: nat, i: nat)
    requires IsRun(steps, states) && n < |steps| && HasSeen(states[n], s, i) && s in states[n + 1].replicas
    ensures HasSeen(states[n + 1], s, i)
  {
    RunTakes(steps, states, n);
    ForwardOver(states[n], steps[n], s, i);
  }

  lemma SeesItself(st: State, s: Server)
    requires Inv(st) && s in st.replicas
    ensures HasSeen(st, s, st.replicas[s].id)
  {
    assert Recorded(st.log, st.replicas[s]);
  }

  /** While a server holds a copy, later copies saw the earlier ones: it reads its own writes and
  never falls back behind what it has read. */
  lemma {:induction false} CopiesMoveForward(steps: seq<Step>, states: seq<State>, s: Server, i: nat, j: nat)
    requires IsRun(steps, states) && i <= j < |states|
    requires forall n :: i <= n <= j ==> s in states[n].replicas
    ensures HasSeen(states[j], s, states[i].replicas[s].id)
    decreases j
  {
    if i < j {
      assert s in states[j].replicas;
      CopiesMoveForward(steps, states, s, i, j - 1);
      ForwardInRun(steps, states, s, j - 1, states[i].replicas[s].id);
    } else {
      RunKeepsInv(steps, states, j);
      SeesItself(states[j], s);
    }
  }

  // ----- Why the run must stop at a merge or a removal -----

  /** A merged entry has the empty version, and then every non-empty version replaces it, even
  one the merged puts had already overwritten. */
  lemma AfterMergeAnythingReplaces(value: Bytes, incoming: Version, incomingValue: Bytes)
    ensures Resolve([], value, incoming, incomingValue) == if incoming == [] then Skip else Replace
  {
    EmptyVersionIsBelowAll(incoming);
  }

  /** So no merge keeps the invariant: the merged copy is no put's copy. */
  lemma MergeIsNeverSafe(st: State, m: Message)
    requires Inv(st) && m.to in st.replicas && Arrival(st, m) == Merge
    ensures !Inv(Next(st, Deliver(m)))
  {
    var st' := Next(st, Deliver(m));
    var c := st'.replicas[m.to];
    if c.id < |st.log| {
      OwnCounterPositive(st.log, c.id);
      assert !Recorded(st'.log, c);
    }
  }

  /** Merges are reached: two servers put the same value, and one sends its copy to the other. */
  lemma MergeIsReached(s: Server, t: Server, value: Bytes) returns (steps: seq<Step>, states: seq<State>, m: Message)
    requires s != t
    ensures IsRun(steps, states) && m in states[|steps|].messages && m.to in states[|steps|].replicas
    ensures Arrival(states[|steps|], m) == Merge && !Inv(Next(states[|steps|], Deliver(m)))
  {
    steps := [Put(s, value), Put(t, value), Send(s, t)];
    var st1 := Next(Initial, steps[0]);
    var st2 := Next(st1, steps[1]);
    var st3 := Next(st2, steps[2]);
    states := [Initial, st1, st2, st3];
    assert IsStep(steps, states, 0) && IsStep(steps, states, 1) && IsStep(steps, states, 2);
    m := Message(t, st1.replicas[s]);
    NewVersionAtMost(s, st2.replicas[t].version);
    NewVersionAtMost(t, st2.replicas[s].version);
    RunKeepsInv(steps, states, 3);
    MergeIsNeverSafe(st3, m);
  }

  /** A caller can read off the entry whether it counts puts of this server. */
  lemma OwnIsMention(st: State, s: Server)
    requires Inv(st) && s in st.replicas
    ensures Own(st, s) > 0 <==> Mentions(st.replicas[s].version, s)
  {
    assert Recorded(st.log, st.replicas[s]) && GoodEvent(st.log, st.replicas[s].id);
    var v := st.replicas[s].version;
    if Mentions(v, s) {
      assert v[Find(v, s)].version >= 1;
    } else {
      assert Find(v, s) == |v|;
    }
  }

  /** Removing a copy is harmless exactly when it counts no put of the server that loses it. */
  lemma RemovalIsSafeIff(st: State, s: Server)
    requires Inv(st)
    ensures Inv(Removed(st, s)) <==> Own(st, s) == 0
  {
    if Own(st, s) == 0 {
      RemovalKeepsInv(st, s);
    } else {
      var c := st.replicas[s];
      assert Recorded(st.log, c) && GoodEvent(st.log, c.id);
      assert Component(st.log[c.id].version, s) > Own(Removed(st, s), s);
    }
  }

  /** The next put after a removal starts the server's counter again. Some earlier put then
  looks as if it had seen the new one exactly when the removed copy counted a put of the server;
  a replica that still has that copy skips the new value. */
  lemma RemovalReusesVersions(st: State, s: Server, value: Bytes)
    requires Inv(st) && s in st.replicas
    ensures var version := Next(Removed(st, s), Put(s, value)).replicas[s].version;
            && ((exists i :: 0 <= i < |st.log| && AtMost(version, st.log[i].version)) <==> Own(st, s) > 0)
            && (Own(st, s) > 0 ==>
                  Resolve(st.replicas[s].version, st.replicas[s].value, version, value) == Skip)
  {
    var version := [VersionEntry(s, 1)];
    var c := st.replicas[s];
    assert Recorded(st.log, c);
    forall i | 0 <= i < |st.log| ensures AtMost(version, st.log[i].version) <==> Component(st.log[i].version, s) >= 1 {
      assert GoodEvent(st.log, i);
      NewVersionAtMost(s, st.log[i].version);
    }
    if Own(st, s) > 0 {
      assert AtMost(version, st.log[c.id].version);
    } else {
      assert forall i :: 0 <= i < |st.log| ==> Component(st.log[i].version, s) <= Own(st, s);
    }
  }

  lemma NewVersionAtMost(s: Server, v: Version)
    requires WellFormed(v)
    ensures AtMost([VersionEntry(s, 1)], v) <==> Component(v, s) >= 1
  {
    var w := [VersionEntry(s, 1)];
    AtMostIsComponentwise(w, v);
    assert Component(w, s) == 1;
    forall t | t != s ensures Component(w, t) == 0 && Component(v, t) >= 0 {
    }
  }
}
