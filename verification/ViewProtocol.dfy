/** Clients, cache nodes and the view service together (prototype/client.h, server.cpp, view.cpp).

Views change at any time; replies of the service travel as messages that can be delayed,
duplicated and overtaken by later ones; a node handles any number of requests at once, and each
of its requests may wait for its own reply. Keys are represented by their ring hash. */
module ViewProtocol {
  import opened VersionVectors
  import opened RingLookup
  import opened ViewService

  type Client = nat

  datatype Message =
    | ToNode(node: Server, reply: Reply)                       // reply to a periodic ping
    | ToCheck(node: Server, request: Request, reply: Reply)    // reply to a ping sent by `checkServer`
    | ToClient(client: Client, reply: Reply)
    | Requested(request: Request)

  /** A get or put on its way. `held` is the client's view when it sent the request; the node
  receives only the number. */
  datatype Request = Request(server: Server, h: int, held: Reply)

  /** A request that `checkServer` let through, with the view it decided on. */
  datatype Acceptance = Acceptance(node: Server, request: Request, used: Reply)

  datatype State = State(
    views: seq<View>, rings: seq<Ring>,
    nodes: map<Server, Reply>, clients: map<Client, Reply>,
    messages: set<Message>, accepted: set<Acceptance>)

  const Initial := State([[]], [[]], map[], map[], {}, {})

  function Current(st: State): Reply
    requires st.rings != []
  {
    Reply(|st.rings| - 1, st.rings[|st.rings| - 1])
  }

  function Published(st: State, view: View, ring: Ring): State {
    st.(views := st.views + [view], rings := st.rings + [ring])
  }

  /** The last test of `checkServer`: is the node in the replica list of the key? An empty ring
  throws instead. */
  predicate InCharge(node: Server, h: int, ring: Ring) {
    ring != [] && node in ring[Serving(ring, h)].servers
  }

  function Decided(st: State, node: Server, q: Request, used: Reply): State {
    if q.held.viewNum == used.viewNum && InCharge(node, q.h, used.ring)
    then st.(accepted := st.accepted + {Acceptance(node, q, used)}) else st
  }

  datatype Step =
    | AddServer(server: Server, point: int)
    | AddReplica(server: Server, master: Server)
    | RemoveDead(dead: seq<Server>)
    | Boot(server: Server)                          // a node starts, with view 0
    | PingReply(server: Server)                     // the service answers a ping
    | NodeView(message: Message)                    // a node installs a reply, whatever its age
    | ClientAsks(client: Client)
    | ClientView(message: Message)
    | Ask(client: Client, server: Server, h: int)   // a client sends to a replica its view names
    | Check(message: Message)                       // `checkServer` up to its decision or its ping
    | CheckReply(message: Message)                  // `checkServer` after its ping

  ghost predicate Enabled(st: State, step: Step) {
    && st.rings != [] && |st.views| == |st.rings|
    && match step
       case AddServer(_, _) => true
       case AddReplica(_, master) => master in st.views[|st.views| - 1]
       case RemoveDead(dead) => dead != []
       case Boot(s) => s !in st.nodes
       case PingReply(s) => s in st.nodes
       case NodeView(m) => m in st.messages && m.ToNode? && m.node in st.nodes
       case ClientAsks(_) => true
       case ClientView(m) => m in st.messages && m.ToClient?
       case Ask(c, s, h) => c in st.clients && InCharge(s, h, st.clients[c].ring)
       case Check(m) => m in st.messages && m.Requested? && m.request.server in st.nodes
       case CheckReply(m) => m in st.messages && m.ToCheck? && m.node in st.nodes
  }

  function Next(st: State, step: Step): State
    requires Enabled(st, step)
  {
    var view, ring := st.views[|st.views| - 1], st.rings[|st.rings| - 1];
    match step
    case AddServer(s, p) => Published(st, view + [s], Put(ring, p, [s]))
    case AddReplica(s, master) => Published(st, view + [s], PutReplica(ring, s, master))
    case RemoveDead(dead) => Published(st, Alive(view, dead), Survivors(ring, dead))
    case Boot(s) => st.(nodes := st.nodes[s := Reply(0, [])])
    case PingReply(s) => st.(messages := st.messages + {ToNode(s, Current(st))})
    case NodeView(m) => st.(nodes := st.nodes[m.node := m.reply])
    case ClientAsks(c) => st.(messages := st.messages + {ToClient(c, Current(st))})
    case ClientView(m) => st.(clients := st.clients[m.client := m.reply])
    case Ask(c, s, h) => st.(messages := st.messages + {Requested(Request(s, h, st.clients[c]))})
    case Check(m) =>
      var q, mine := m.request, st.nodes[m.request.server];
      if q.held.viewNum < mine.viewNum then st
      else if q.held.viewNum > mine.viewNum then st.(messages := st.messages + {ToCheck(q.server, q, Current(st))})
      else Decided(st, q.server, q, mine)
    case CheckReply(m) =>
      Decided(st.(nodes := st.nodes[m.node := m.reply]), m.node, m.request, m.reply)
  }

  ghost predicate IsRun(steps: seq<Step>, states: seq<State>) {
    && |states| == |steps| + 1
    && states[0] == Initial
    && forall i :: 0 <= i < |steps| ==> IsStep(steps, states, i)
  }

  ghost predicate IsStep(steps: seq<Step>, states: seq<State>, i: nat)
    requires i < |steps| && |states| == |steps| + 1
  {
    Enabled(states[i], steps[i]) && states[i + 1] == Next(states[i], steps[i])
  }

  // ----- The invariant -----

  /** The reply is a view that was published, under its number. */
  ghost predicate Genuine(st: State, r: Reply) {
    r.viewNum < |st.rings| && st.rings[r.viewNum] == r.ring
  }

  ghost predicate GenuineMessage(st: State, m: Message) {
    match m
    case ToNode(_, r) => Genuine(st, r)
    case ToCheck(node, q, r) => Genuine(st, r) && Genuine(st, q.held) && q.server == node
    case ToClient(_, r) => Genuine(st, r)
    case Requested(q) => Genuine(st, q.held)
  }

  ghost predicate GoodAcceptance(st: State, a: Acceptance) {
    && Genuine(st, a.request.held)
    && a.used == a.request.held
    && a.node == a.request.server && InCharge(a.node, a.request.h, a.used.ring)
  }

  ghost predicate Inv(st: State) {
    && |st.views| == |st.rings| >= 1
    && st.rings[0] == []
    && (forall n {:trigger st.rings[n]} :: 0 <= n < |st.rings| ==> Sound(st.rings[n], st.views[n]))
    && (forall s :: s in st.nodes ==> Genuine(st, st.nodes[s]))
    && (forall c :: c in st.clients ==> Genuine(st, st.clients[c]))
    && (forall m :: m in st.messages ==> GenuineMessage(st, m))
    && (forall a :: a in st.accepted ==> GoodAcceptance(st, a))
  }

  /** Publishing a view leaves everything that was genuine genuine. */
  lemma PublishKeepsInv(st: State, view: View, ring: Ring)
    requires Inv(st) && Sound(ring, view)
    ensures Inv(Published(st, view, ring))
  {
    var st' := Published(st, view, ring);
    forall m | m in st'.messages ensures GenuineMessage(st', m) {
      assert GenuineMessage(st, m);
    }
    forall a | a in st'.accepted ensures GoodAcceptance(st', a) {
      assert GoodAcceptance(st, a);
    }
  }

  lemma DecideKeepsInv(st: State, node: Server, q: Request, used: Reply)
    requires Inv(st) && Genuine(st, q.held) && Genuine(st, used) && q.server == node
    ensures Inv(Decided(st, node, q, used))
  {
  }

  /** Installing a genuine view at a node. */
  lemma InstallKeepsInv(st: State, node: Server, r: Reply)
    requires Inv(st) && Genuine(st, r)
    ensures Inv(st.(nodes := st.nodes[node := r]))
  {
    var st' := st.(nodes := st.nodes[node := r]);
    forall m | m in st'.messages ensures GenuineMessage(st', m) {
      assert GenuineMessage(st, m);
    }
    forall a | a in st'.accepted ensures GoodAcceptance(st', a) {
      assert GoodAcceptance(st, a);
    }
  }

  lemma SendKeepsInv(st: State, m: Message)
    requires Inv(st) && GenuineMessage(st, m)
    ensures Inv(st.(messages := st.messages + {m}))
  {
    var st' := st.(messages := st.messages + {m});
    forall x | x in st'.messages ensures GenuineMessage(st', x) {
      assert GenuineMessage(st, x);
    }
    forall a | a in st'.accepted ensures GoodAcceptance(st', a) {
      assert GoodAcceptance(st, a);
    }
  }

  ghost predicate IsViewChange(step: Step) { step.AddServer? || step.AddReplica? || step.RemoveDead? }

  /** A change of view publishes a ring that is sound for its view. */
  lemma ChangeIsSound(st: State, step: Step) returns (view: View, ring: Ring)
    requires Enabled(st, step) && IsViewChange(step) && Sound(st.rings[|st.rings| - 1], st.views[|st.views| - 1])
    ensures Sound(ring, view) && Next(st, step) == Published(st, view, ring)
  {
    var v, r := st.views[|st.views| - 1], st.rings[|st.rings| - 1];
    match step
    case AddServer(s, p) =>
      PutIsSound(r, v, p, s);
      view, ring := v + [s], Put(r, p, [s]);
    case AddReplica(s, master) =>
      PutReplicaIsSound(r, v, s, master);
      view, ring := v + [s], PutReplica(r, s, master);
    case RemoveDead(dead) =>
      SurvivorsAreSound(r, v, dead);
      view, ring := Alive(v, dead), Survivors(r, dead);
  }

  lemma ViewChangeKeepsInv(st: State, step: Step)
    requires Inv(st) && Enabled(st, step) && IsViewChange(step)
    ensures Inv(Next(st, step))
  {
    var view, ring := ChangeIsSound(st, step);
    PublishKeepsInv(st, view, ring);
  }

  lemma CheckKeepsInv(st: State, m: Message)
    requires Inv(st) && Enabled(st, Check(m))
    ensures Inv(Next(st, Check(m)))
  {
    assert GenuineMessage(st, m);
    var q := m.request;
    if q.held.viewNum > st.nodes[q.server].viewNum {
      SendKeepsInv(st, ToCheck(q.server, q, Current(st)));
    } else if q.held.viewNum == st.nodes[q.server].viewNum {
      DecideKeepsInv(st, q.server, q, st.nodes[q.server]);
    }
  }

  lemma NextKeepsInv(st: State, step: Step)
    requires Inv(st) && Enabled(st, step)
    ensures Inv(Next(st, step))
  {
    if step.AddServer? || step.AddReplica? || step.RemoveDead? {
      ViewChangeKeepsInv(st, step);
    } else if step.Boot? {
      InstallKeepsInv(st, step.server, Reply(0, []));
    } else if step.PingReply? {
      SendKeepsInv(st, ToNode(step.server, Current(st)));
    } else if step.NodeView? {
      assert GenuineMessage(st, step.message);
      InstallKeepsInv(st, step.message.node, step.message.reply);
    } else if step.ClientAsks? {
      SendKeepsInv(st, ToClient(step.client, Current(st)));
    } else if step.ClientView? {
      assert GenuineMessage(st, step.message);
      LearnKeepsInv(st, step.message.client, step.message.reply);
    } else if step.Ask? {
      SendKeepsInv(st, Requested(Request(step.server, step.h, st.clients[step.client])));
    } else if step.Check? {
      CheckKeepsInv(st, step.message);
    } else {
      var m := step.message;
      assert GenuineMessage(st, m);
      InstallKeepsInv(st, m.node, m.reply);
      DecideKeepsInv(st.(nodes := st.nodes[m.node := m.reply]), m.node, m.request, m.reply);
    }
  }

  lemma LearnKeepsInv(st: State, c: Client, r: Reply)
    requires Inv(st) && Genuine(st, r)
    ensures Inv(st.(clients := st.clients[c := r]))
  {
    var st' := st.(clients := st.clients[c := r]);
    forall m | m in st'.messages ensures GenuineMessage(st', m) {
      assert GenuineMessage(st, m);
    }
    forall a | a in st'.accepted ensures GoodAcceptance(st', a) {
      assert GoodAcceptance(st, a);
    }
  }

  lemma {:induction false} RunKeepsInv(steps: seq<Step>, states: seq<State>, n: nat)
    requires IsRun(steps, states) && n < |states|
    ensures Inv(states[n])
  {
    if n > 0 {
      RunKeepsInv(steps, states, n - 1);
      assert IsStep(steps, states, n - 1);
      NextKeepsInv(states[n - 1], steps[n - 1]);
    }
  }

  /** View-number safety: whenever a node accepts a request, the client that sent it and the node
  decided on the same ring, the one published under the number in the request, and that ring
  puts the node in charge of the key. */
  lemma AcceptedRequestsAgree(steps: seq<Step>, states: seq<State>, n: nat, a: Acceptance)
    requires IsRun(steps, states) && n < |states| && a in states[n].accepted
    ensures var st, num := states[n], a.request.held.viewNum;
            && num < |st.rings|
            && a.used == Reply(num, st.rings[num]) && a.request.held == Reply(num, st.rings[num])
            && st.rings[num] != [] && a.node in st.rings[num][Serving(st.rings[num], a.request.h)].servers
  {
    RunKeepsInv(steps, states, n);
    assert GoodAcceptance(states[n], a);
  }

  /** In every state of every run, each published ring is in order and maps every point to a
  non-empty list of servers of its own view. */
  lemma PublishedRingsAreSound(steps: seq<Step>, states: seq<State>, n: nat, v: nat)
    requires IsRun(steps, states) && n < |states| && v < |states[n].rings|
    ensures |states[n].views| == |states[n].rings| && Sound(states[n].rings[v], states[n].views[v])
  {
    RunKeepsInv(steps, states, n);
  }

  lemma StepGrows(st: State, step: Step)
    requires Enabled(st, step)
    ensures st.rings <= Next(st, step).rings
  {
  }

  /** Published views never change: a later state has the earlier ones as a prefix. */
  lemma {:induction false} ViewsOnlyGrow(steps: seq<Step>, states: seq<State>, i: nat, j: nat)
    requires IsRun(steps, states) && i <= j < |states|
    ensures states[i].rings <= states[j].rings
  {
    if i < j {
      ViewsOnlyGrow(steps, states, i, j - 1);
      assert IsStep(steps, states, j - 1);
      StepGrows(states[j - 1], steps[j - 1]);
    }
  }

  // ----- What gets through -----

  /** A node decides at once on a request with its own view number: it is accepted if and only if the
  node's ring puts it in charge. A request with an older number is refused, and one with a newer number
  makes the node ask for the current view. */
  lemma CheckDecides(st: State, m: Message)
    requires Inv(st) && Enabled(st, Check(m))
    ensures var q, mine, st' := m.request, st.nodes[m.request.server], Next(st, Check(m));
            && (q.held.viewNum == mine.viewNum ==>
                  st'.accepted == st.accepted +
                    if InCharge(q.server, q.h, mine.ring) then {Acceptance(q.server, q, q.held)} else {})
            && (q.held.viewNum < mine.viewNum ==> st' == st)
            && (q.held.viewNum > mine.viewNum ==>
                  st'.accepted == st.accepted && ToCheck(q.server, q, Current(st)) in st'.messages)
  {
    assert GenuineMessage(st, m);
  }

  /** When the reply comes, the node has the view in it, and accepts if the numbers agree and that view puts
  it in charge; otherwise nothing is accepted. */
  lemma CheckReplyDecides(st: State, m: Message)
    requires Inv(st) && Enabled(st, CheckReply(m))
    ensures var q, st' := m.request, Next(st, CheckReply(m));
            && st'.nodes == st.nodes[m.node := m.reply]
            && st'.accepted == st.accepted +
                 if q.held.viewNum == m.reply.viewNum && InCharge(m.node, q.h, m.reply.ring)
                 then {Acceptance(q.server, q, q.held)} else {}
  {
    assert GenuineMessage(st, m);
  }

  /** A client fetches the current view and sends a key to a node of it. */
  lemma AskIsSent(st: State, c: Client, s: Server, h: int) returns (st1: State, st2: State, st3: State)
    requires Inv(st) && InCharge(s, h, Current(st).ring)
    ensures var view := Current(st);
            && Enabled(st, ClientAsks(c)) && st1 == Next(st, ClientAsks(c))
            && Enabled(st1, ClientView(ToClient(c, view))) && st2 == Next(st1, ClientView(ToClient(c, view)))
            && Enabled(st2, Ask(c, s, h)) && st3 == Next(st2, Ask(c, s, h))
            && Requested(Request(s, h, view)) in st3.messages
            && st3.nodes == st.nodes && st3.rings == st.rings && st3.views == st.views
  {
    st1 := Next(st, ClientAsks(c));
    st2 := Next(st1, ClientView(ToClient(c, Current(st))));
    st3 := Next(st2, Ask(c, s, h));
  }

  /** The node serves it at once, or after it asked for the current view. */
  lemma RequestIsServed(st: State, q: Request) returns (st': State)
    requires |st.views| == |st.rings| >= 1 && Requested(q) in st.messages && q.server in st.nodes
    requires q.held == Current(st) && Genuine(st, st.nodes[q.server]) && InCharge(q.server, q.h, q.held.ring)
    ensures Enabled(st, Check(Requested(q)))
    ensures var st1 := Next(st, Check(Requested(q)));
            if st.nodes[q.server].viewNum == q.held.viewNum then st' == st1
            else
              && Enabled(st1, CheckReply(ToCheck(q.server, q, q.held)))
              && st' == Next(st1, CheckReply(ToCheck(q.server, q, q.held)))
    ensures Acceptance(q.server, q, q.held) in st'.accepted
  {
    st' := Next(st, Check(Requested(q)));
    if st.nodes[q.server].viewNum != q.held.viewNum {
      st' := Next(st', CheckReply(ToCheck(q.server, q, q.held)));
    }
  }

  /** Requests get through: from any state, a client that fetches the current view and sends a key to a node
  that view puts in charge is served, whatever older view the node has. */
  lemma RequestGetsThrough(st: State, c: Client, s: Server, h: int)
    returns (st1: State, st2: State, st3: State, st': State)
    requires Inv(st) && s in st.nodes && InCharge(s, h, Current(st).ring)
    ensures var view := Current(st);
            && Enabled(st, ClientAsks(c)) && st1 == Next(st, ClientAsks(c))
            && Enabled(st1, ClientView(ToClient(c, view))) && st2 == Next(st1, ClientView(ToClient(c, view)))
            && Enabled(st2, Ask(c, s, h)) && st3 == Next(st2, Ask(c, s, h))
            && var q := Request(s, h, view);
               && Enabled(st3, Check(Requested(q)))
               && (st' == Next(st3, Check(Requested(q))) ||
                   (Enabled(Next(st3, Check(Requested(q))), CheckReply(ToCheck(s, q, view)))
                    && st' == Next(Next(st3, Check(Requested(q))), CheckReply(ToCheck(s, q, view)))))
               && Acceptance(s, q, view) in st'.accepted
  {
    st1, st2, st3 := AskIsSent(st, c, s, h);
    st' := RequestIsServed(st3, Request(s, h, Current(st)));
  }

  /** A node starts with the empty view, so it accepts nothing before it has another. */
  lemma BootStarts(st: State, s: Server, m: Message)
    requires Inv(st) && Enabled(st, Boot(s))
    ensures var st' := Next(st, Boot(s));
            && s in st'.nodes && st'.nodes[s].viewNum == 0 && (forall t :: t in st.nodes ==> t in st'.nodes)
            && (Enabled(st', Check(m)) && m.request.server == s ==> Next(st', Check(m)).accepted == st.accepted)
  {
    if m in st.messages && m.Requested? { assert GenuineMessage(st, m); }
  }

  /** A ping brings a node the view that was current when it was answered. */
  lemma PingBringsView(st: State, s: Server)
    requires Inv(st) && s in st.nodes
    ensures Enabled(st, PingReply(s))
    ensures var st1, m := Next(st, PingReply(s)), ToNode(s, Current(st));
            && Enabled(st1, NodeView(m))
            && Next(st1, NodeView(m)).nodes == st.nodes[s := Reply(|st.rings| - 1, st.rings[|st.rings| - 1])]
  {
  }

  /** A change of view takes effect in the next view, whose number is one higher: an added server is in charge
  of its point, a replica is in charge beside the first point of its master, and of the dead none is in
  charge of anything while the others stay in charge. */
  lemma ChangeTakesEffect(st: State, step: Step, x: Server, h: int)
    requires Inv(st) && Enabled(st, step) && IsViewChange(step)
    ensures var before, after := Current(st), Current(Next(st, step));
            && after.viewNum == before.viewNum + 1
            && (step.AddServer? ==> InCharge(step.server, step.point, after.ring))
            && (step.AddReplica? && InCharge(x, h, before.ring) ==> InCharge(x, h, after.ring))
            && (step.AddReplica? && before.ring != [] ==>
                  (Serving(before.ring, h) == FirstWith(before.ring, step.master) ==>
                     InCharge(step.server, h, after.ring)))
            && (step.RemoveDead? && x in step.dead ==> !InCharge(x, h, after.ring))
            && (step.RemoveDead? && x !in step.dead && InCharge(x, h, before.ring) ==> InCharge(x, h, after.ring))
  {
    var ring, view := Current(st).ring, st.views[|st.views| - 1];
    assert Sound(st.rings[|st.rings| - 1], view);
    match step
    case AddServer(s, p) => AddedIsInCharge(ring, view, p, s);
    case AddReplica(s, master) => if ring != [] { AddReplicaMovesNothing(ring, view, s, master, h); }
    case RemoveDead(dead) => DeadAreGone(ring, view, dead, x, h);
  }

  lemma AddedIsInCharge(ring: Ring, view: View, p: int, s: Server)
    requires Sound(ring, view)
    ensures InCharge(s, p, Put(ring, p, [s]))
  {
    var r := Put(ring, p, [s]);
    PutEntries(ring, p, [s]);
    PutIsSound(ring, view, p, s);
    var i := LowerBound(Hashes(ring), p);
    assert r[i] == Point(p, [s]);
    assert Hashes(r)[i] == p;
    assert LowerBound(Hashes(r), p) == i;
  }

  lemma DeadAreGone(ring: Ring, view: View, dead: seq<Server>, x: Server, h: int)
    requires Sound(ring, view)
    ensures x in dead ==> !InCharge(x, h, Survivors(ring, dead))
    ensures x !in dead && InCharge(x, h, ring) ==> InCharge(x, h, Survivors(ring, dead))
  {
    var r := Survivors(ring, dead);
    if r != [] {
      var i := SurvivorHasOrigin(ring, dead, Serving(r, h));
      AliveMembers(ring[i].servers, dead);
    }
    if InCharge(x, h, ring) {
      AliveMembers(ring[Serving(ring, h)].servers, dead);
      RemovalMovesOnlyOrphans(ring, view, dead, h);
    }
  }
}
