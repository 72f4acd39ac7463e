/** Whole runs of memcached's output list (memcached.c): what is queued is what is sent, for every
sequence of buffers and of partial sends. */
module OutputRuns {
  import opened Words
  import opened Sequences
  import opened OutputSpec
  import opened OutputQueue

  // ----- Queue a reply, then send it piece by piece -----

  lemma StartedIsEmpty(udp: bool, iovMax: nat, q: Queue)
    requires q.ms == [] && iovMax >= 2
    ensures var r := Started(udp, q);
            Fits(udp, iovMax, r.ms) && Whole(r) && Payload(udp, r.ms) == []
  {
    FreshFits(udp, iovMax);
    var ms := [Fresh(udp)];
    assert Started(udp, q).ms == ms && ms[..0] == [];
    assert FitsOne(udp, iovMax, ms[0]);
  }

  lemma ReplyIsQueued(udp: bool, iovMax: nat, q: Output, bufs: seq<Bytes>)
    requires Good(q) && Unsent(q) && q.msgUsed == 0 && iovMax >= 2
    ensures var r := AddedAll(udp, iovMax, Headed(udp, q), bufs);
            && Good(r) && r.msgCurr == 0 && Fits(udp, iovMax, MessagesOf(r))
            && Payload(udp, MessagesOf(r)) == Flat(bufs)
  {
    var h := Headed(udp, q);
    HeadedIsStarted(udp, q);
    StartedIsEmpty(udp, iovMax, QueueOf(q));
    AddedAllIsAppend(udp, iovMax, h, bufs);
    AppendAllKeepsBytes(udp, iovMax, QueueOf(h), bufs);
    assert [] + Flat(bufs) == Flat(bufs);
  }

  /** A reply is put together in an empty list. */
  method QueueReply(c: Conn, bufs: seq<Bytes>)
    requires c.Valid() && c.msgUsed == 0 && Unsent(c.State())
    modifies c
    ensures c.Valid() && c.msgCurr == 0 && c.sent == old(c.sent)
    ensures Fits(c.udp, c.iovMax, c.Messages()) && Payload(c.udp, c.Messages()) == Flat(bufs)
  {
    ghost var q := c.State();
    ReplyIsQueued(c.udp, c.iovMax, q, bufs);
    c.AddMsghdr();
    assert c.State() == Headed(c.udp, q);
    c.AddAll(bufs);
    assert c.State() == AddedAll(c.udp, c.iovMax, Headed(c.udp, q), bufs);
  }

  /** Sending as the socket takes it: bytes sent and bytes pending always make up the same. */
  method SendReply(c: Conn, socket: seq<SendResult>) returns (done: bool)
    requires c.Valid()
    modifies c
    ensures c.Valid() && c.sent + c.Pending() == old(c.sent) + old(c.Pending())
    ensures done ==> c.Pending() == [] && c.sent == old(c.sent) + old(c.Pending())
  {
    done := false;
    for i := 0 to |socket|
      invariant c.Valid() && c.sent + c.Pending() == old(c.sent) + old(c.Pending())
      invariant done ==> c.Pending() == [] && c.sent == old(c.sent) + old(c.Pending())
    {
      var r := c.Transmit(Clipped(socket[i], Len(c.NextMessage())));
      done := r == Complete;
    }
  }

  /** A reply from an empty list: any buffers are queued, and then sent as the socket takes them.
  However far that got, the bytes sent followed by the bytes pending are the messages queued,
  whose payload is the buffers; on a stream they are the buffers. */
  method Respond(c: Conn, bufs: seq<Bytes>, socket: seq<SendResult>) returns (ghost queued: seq<Message>, done: bool)
    requires c.Valid() && c.msgUsed == 0 && Unsent(c.State()) && c.sent == []
    modifies c
    ensures c.Valid() && Fits(c.udp, c.iovMax, queued) && Payload(c.udp, queued) == Flat(bufs)
    ensures c.sent + c.Pending() == FlatAll(queued)
    ensures !c.udp ==> c.sent + c.Pending() == Flat(bufs)
    ensures done ==> c.Pending() == [] && c.sent == FlatAll(queued)
  {
    QueueReply(c, bufs);
    queued := c.Messages();
    StreamPayload(queued);
    assert queued[0..] == queued && [] + FlatAll(queued) == FlatAll(queued);
    done := SendReply(c, socket);
  }

  // ----- Any interleaving, on a stream -----

  datatype Action = Queueing(buf: Bytes) | Sending(count: nat) | SteppingOver

  /** The list, and what has gone out. */
  datatype Wire = Wire(out: Output, sent: Bytes)

  /** Data may come while part of the reply is sent, unless the array must move for them. */
  ghost predicate Enabled(iovMax: nat, w: Wire, a: Action) {
    && Good(w.out) && w.out.msgCurr < w.out.msgUsed
    && match a
       case Queueing(buf) => Kept(w.out, Added(false, iovMax, w.out, buf))
       case Sending(n) => n <= Len(MessagesOf(w.out)[w.out.msgCurr])
       case SteppingOver => w.out.msglist[w.out.msgCurr].iovlen == 0
  }

  function Next(iovMax: nat, w: Wire, a: Action): Wire
    requires Enabled(iovMax, w, a)
  {
    match a
    case Queueing(buf) => w.(out := Added(false, iovMax, w.out, buf))
    case Sending(n) => Wire(AfterSend(w.out, n), w.sent + Flat(MessagesOf(w.out)[w.out.msgCurr])[..n])
    case SteppingOver => w.(out := w.out.(msgCurr := w.out.msgCurr + 1))
  }

  function DataOf(a: Action): Bytes {
    if a.Queueing? then a.buf else []
  }

  ghost function Total(w: Wire): Bytes
    requires Good(w.out)
  {
    w.sent + PendingOf(w.out)
  }

  lemma QueueingAdds(iovMax: nat, w: Wire, buf: Bytes)
    requires Enabled(iovMax, w, Queueing(buf))
    ensures Good(Next(iovMax, w, Queueing(buf)).out) && Total(Next(iovMax, w, Queueing(buf))) == Total(w) + buf
  {
    AddedIsAppend(false, iovMax, w.out, buf);
    AppendStream(iovMax, QueueOf(w.out), buf, w.out.msgCurr);
    Regroup(w.sent, PendingOf(w.out), buf);
  }

  lemma SendingMoves(iovMax: nat, w: Wire, n: nat)
    requires Enabled(iovMax, w, Sending(n))
    ensures Good(Next(iovMax, w, Sending(n)).out) && Total(Next(iovMax, w, Sending(n))) == Total(w)
  {
    SendOk(w.out, n);
    Rejoin(w.sent, PendingOf(w.out), n);
  }

  lemma SteppingKeeps(iovMax: nat, w: Wire)
    requires Enabled(iovMax, w, SteppingOver)
    ensures Good(Next(iovMax, w, SteppingOver).out) && Total(Next(iovMax, w, SteppingOver)) == Total(w)
  {
    SteppedGood(w.out);
    SteppedOver(w.out);
  }

  lemma StepConserves(iovMax: nat, w: Wire, a: Action)
    requires Enabled(iovMax, w, a)
    ensures Good(Next(iovMax, w, a).out) && Total(Next(iovMax, w, a)) == Total(w) + DataOf(a)
  {
    assert Total(w) + [] == Total(w);
    match a
    case Queueing(buf) => QueueingAdds(iovMax, w, buf);
    case Sending(n) => SendingMoves(iovMax, w, n);
    case SteppingOver => SteppingKeeps(iovMax, w);
  }

  ghost predicate IsRun(iovMax: nat, actions: seq<Action>, ws: seq<Wire>) {
    && |ws| == |actions| + 1 && Good(ws[0].out)
    && forall i :: 0 <= i < |actions| ==>
         Enabled(iovMax, ws[i], actions[i]) && ws[i + 1] == Next(iovMax, ws[i], actions[i])
  }

  function AllData(actions: seq<Action>): Bytes {
    if actions == [] then [] else AllData(actions[..|actions| - 1]) + DataOf(actions[|actions| - 1])
  }

  lemma DataGrows(actions: seq<Action>, n: nat)
    requires 0 < n <= |actions|
    ensures AllData(actions[..n]) == AllData(actions[..n - 1]) + DataOf(actions[n - 1])
  {
    assert actions[..n][..n - 1] == actions[..n - 1];
  }

  lemma StepJoins(iovMax: nat, w: Wire, a: Action, start: Bytes, data: Bytes)
    requires Enabled(iovMax, w, a) && Total(w) == start + data
    ensures Good(Next(iovMax, w, a).out) && Total(Next(iovMax, w, a)) == start + (data + DataOf(a))
  {
    StepConserves(iovMax, w, a);
    Regroup(start, data, DataOf(a));
  }

  /** Conservation over every interleaving of queueing and sending on a stream. */
  lemma {:induction false} StreamConserves(iovMax: nat, actions: seq<Action>, ws: seq<Wire>, n: nat)
    requires IsRun(iovMax, actions, ws) && n <= |actions|
    ensures Good(ws[n].out) && Total(ws[n]) == Total(ws[0]) + AllData(actions[..n])
  {
    if n > 0 {
      StreamConserves(iovMax, actions, ws, n - 1);
      StepJoins(iovMax, ws[n - 1], actions[n - 1], Total(ws[0]), AllData(actions[..n - 1]));
      DataGrows(actions, n);
    } else {
      assert Total(ws[0]) + [] == Total(ws[0]);
    }
  }

  // ----- When the array has to move under sent entries -----

  /** Data that fit behind the fragments of the first and only message. */
  lemma AddedSmall(iovMax: nat, q: Output, buf: Bytes)
    requires Sane(q) && q.msgUsed == 1 && q.msglist[0].iovlen < iovMax
    requires q.msgBytes < UDP_MAX_PAYLOAD_SIZE && q.msgBytes + |buf| <= UDP_MAX_PAYLOAD_SIZE
    ensures Added(false, iovMax, q, buf) == Stored(Ensured(q), buf)
  {
    assert buf[..|buf|] == buf;
  }

  /** A list with one header over the entries i up to j. */
  function OneHeader(iov: seq<Bytes>, block: nat, i: nat, j: nat, used: nat, bytes: nat): Output
    requires i <= j
  {
    Output(iov, block, used, [MsgHdr(block, i, j - i)], 1, 0, bytes, [used])
  }

  lemma OneHeaderSane(iov: seq<Bytes>, block: nat, i: nat, j: nat, used: nat, bytes: nat)
    requires i <= j <= used <= |iov| && iov != []
    ensures Sane(OneHeader(iov, block, i, j, used, bytes))
  {
    assert Sum([MsgHdr(block, i, j - i)], 1) == j - i;
  }

  lemma StoredBehind(iov: seq<Bytes>, block: nat, i: nat, j: nat, used: nat, bytes: nat, b: Bytes)
    requires i <= j <= used < |iov|
    ensures Sane(OneHeader(iov, block, i, j, used, bytes))
    ensures Stored(OneHeader(iov, block, i, j, used, bytes), b)
              == OneHeader(iov[j := b], block, i, j + 1, used + 1, bytes + |b|)
  {
    OneHeaderSane(iov, block, i, j, used, bytes);
  }

  /** Room in the array: the data go into the next entry. */
  lemma AddedBehind(iovMax: nat, iov: seq<Bytes>, j: nat, bytes: nat, b: Bytes)
    requires j < |iov| && j < iovMax && bytes < UDP_MAX_PAYLOAD_SIZE && bytes + |b| <= UDP_MAX_PAYLOAD_SIZE
    ensures Sane(OneHeader(iov, 0, 0, j, j, bytes))
    ensures Added(false, iovMax, OneHeader(iov, 0, 0, j, j, bytes), b)
              == OneHeader(iov[j := b], 0, 0, j + 1, j + 1, bytes + |b|)
  {
    StoredBehind(iov, 0, 0, j, j, bytes, b);
    AddedSmall(iovMax, OneHeader(iov, 0, 0, j, j, bytes), b);
  }

  /** No room, and the first of the two entries sent: the header ends up at that entry again. */
  lemma MovedWrong(iov: seq<Bytes>, bytes: nat)
    requires |iov| == 2
    ensures Sane(OneHeader(iov, 0, 1, 2, 2, bytes))
    ensures Ensured(OneHeader(iov, 0, 1, 2, 2, bytes)) == OneHeader(iov + Blank(2), 1, 0, 1, 2, bytes)
  {
    OneHeaderSane(iov, 0, 1, 2, 2, bytes);
    assert Repointed([MsgHdr(0, 1, 1)], 1, 1) == [MsgHdr(1, 0, 1)];
  }

  lemma AddedWrong(iov: seq<Bytes>, bytes: nat, b: Bytes)
    requires |iov| == 2 && bytes < UDP_MAX_PAYLOAD_SIZE && bytes + |b| <= UDP_MAX_PAYLOAD_SIZE
    ensures Sane(OneHeader(iov, 0, 1, 2, 2, bytes))
    ensures Added(false, 4, OneHeader(iov, 0, 1, 2, 2, bytes), b)
              == OneHeader((iov + Blank(2))[1 := b], 1, 0, 2, 3, bytes + |b|)
  {
    MovedWrong(iov, bytes);
    AddedSmall(4, OneHeader(iov, 0, 1, 2, 2, bytes), b);
    StoredBehind(iov + Blank(2), 1, 0, 1, 2, bytes, b);
  }

  lemma FirstSent(iov: seq<Bytes>, bytes: nat)
    requires |iov| == 2 && iov[1] != []
    ensures AfterSend(OneHeader(iov, 0, 0, 2, 2, bytes), |iov[0]|) == OneHeader(iov, 0, 1, 2, 2, bytes)
  {
    assert Consumed(iov, MsgHdr(0, 1, 1), 0) == (iov, MsgHdr(0, 1, 1));
  }

  lemma EmptyBegun(iov: seq<Bytes>, hs: seq<MsgHdr>)
    requires iov != [] && |hs| == 1
    ensures var q := Output(iov, 0, 0, hs, 0, 0, 0, []);
            Sane(q) && Headed(false, q) == OneHeader(iov, 0, 0, 0, 0, 0)
  {
  }

  /** A reply of two fragments, the first one sent; then a third one is queued in an array that
  is full. What is pending should be the second and third; it is the first and third. */
  method GrowthAfterSendingLosesData(a: Bytes, b: Bytes, d: Bytes) returns (c: Conn)
    requires a != [] && b != [] && |a| + |b| + |d| <= UDP_MAX_PAYLOAD_SIZE && |a| + |b| < UDP_MAX_PAYLOAD_SIZE
    ensures fresh(c) && |c.sent| == |a| && c.msgUsed == 1 <= |c.msglist| && c.msgCurr == 0
    ensures c.Messages() == [[a, d]]
  {
    c := QueueTwo(a, b);
    SendFirst(c, a, b);
    AddedWrong([a, b], |a| + |b|, d);
    c.AddIov(d);
    assert Fragments(c.iov, c.msglist[0]) == [a, d];
  }

  lemma OneHeaderGood(iov: seq<Bytes>, j: nat, bytes: nat)
    requires j <= |iov| && iov != []
    ensures Good(OneHeader(iov, 0, 0, j, j, bytes))
  {
    OneHeaderSane(iov, 0, 0, j, j, bytes);
    assert HdrOk([MsgHdr(0, 0, j)], [j], 0, 0);
  }

  method QueueOne(c: Conn, ghost iov: seq<Bytes>, j: nat, ghost bytes: nat, b: Bytes)
    requires !c.udp && c.iovMax == 4 && c.State() == OneHeader(iov, 0, 0, j, j, bytes)
    requires j < |iov| && j < 4 && bytes < UDP_MAX_PAYLOAD_SIZE && bytes + |b| <= UDP_MAX_PAYLOAD_SIZE
    modifies c
    ensures c.State() == OneHeader(iov[j := b], 0, 0, j + 1, j + 1, bytes + |b|) && c.sent == old(c.sent)
  {
    AddedBehind(4, iov, j, bytes, b);
    c.AddIov(b);
  }

  method QueueTwo(a: Bytes, b: Bytes) returns (c: Conn)
    requires |a| + |b| < UDP_MAX_PAYLOAD_SIZE
    ensures fresh(c) && c.Valid() && c.sent == [] && !c.udp && c.iovMax == 4
    ensures c.State() == OneHeader([a, b], 0, 0, 2, 2, |a| + |b|)
  {
    c := new Conn(false, 4, 2, 1);
    ghost var iov := c.iov;
    EmptyBegun(iov, c.msglist);
    c.AddMsghdr();
    QueueOne(c, iov, 0, 0, a);
    QueueOne(c, iov[0 := a], 1, |a|, b);
    assert iov[0 := a][1 := b] == [a, b];
    OneHeaderGood([a, b], 2, |a| + |b|);
  }

  method SendFirst(c: Conn, a: Bytes, b: Bytes)
    requires c.Valid() && c.State() == OneHeader([a, b], 0, 0, 2, 2, |a| + |b|) && c.sent == [] && a != [] && b != []
    modifies c
    ensures c.State() == OneHeader([a, b], 0, 1, 2, 2, |a| + |b|) && |c.sent| == |a|
  {
    assert c.NextMessage() == [a, b];
    FlatTwo(a, b);
    FirstSent([a, b], |a| + |b|);
    var r := c.Transmit(Wrote(|a|));
  }

  lemma FlatTwo(a: Bytes, b: Bytes)
    ensures Flat([a, b]) == a + b
  {
    assert [a, b][..1] == [a] && [a][..0] == [];
    assert Flat([a]) == [] + a;
  }
}
