/** memcached's output list (memcached.c): message headers that point into one array of iovecs,
which moves when it grows.

An iovec is the bytes it points at. A header's pointer is a block number and an index; it can be
followed only while the block is the current one. `Messages()` is what the headers stand for;
`OutputSpec` says what queueing and sending must do to it. */
module OutputQueue {
  import opened OutputSpec
  import opened Sequences

  datatype MsgHdr = MsgHdr(block: nat, start: nat, iovlen: nat)

  /** Number of iovecs of the first n headers. */
  function Sum(hs: seq<MsgHdr>, n: nat): nat
    requires n <= |hs|
  {
    if n == 0 then 0 else Sum(hs, n - 1) + hs[n - 1].iovlen
  }

  lemma {:induction false} SumSame(hs: seq<MsgHdr>, hs': seq<MsgHdr>, n: nat)
    requires n <= |hs| && n <= |hs'| && forall i :: 0 <= i < n ==> hs'[i].iovlen == hs[i].iovlen
    ensures Sum(hs', n) == Sum(hs, n)
  {
    if n > 0 { SumSame(hs, hs', n - 1); }
  }

  /** Header i points at the entries `ends[i - 1] .. ends[i]`, less what has been sent of them. */
  ghost predicate HdrOk(hs: seq<MsgHdr>, ends: seq<nat>, block: nat, i: nat)
    requires i < |ends| && i < |hs|
  {
    && hs[i].block == block
    && hs[i].start + hs[i].iovlen == ends[i]
    && (if i == 0 then 0 else ends[i - 1]) <= hs[i].start
  }

  /** The headers share out the used entries, in order. */
  ghost predicate Laid(hs: seq<MsgHdr>, ends: seq<nat>, block: nat, used: nat) {
    && |ends| <= |hs|
    && (forall i {:trigger HdrOk(hs, ends, block, i)} :: 0 <= i < |ends| ==> HdrOk(hs, ends, block, i))
    && used == if ends == [] then 0 else ends[|ends| - 1]
  }

  lemma {:induction false} EndsGrow(hs: seq<MsgHdr>, ends: seq<nat>, block: nat, used: nat, i: nat)
    requires Laid(hs, ends, block, used) && i < |ends|
    ensures hs[i].start <= ends[i] <= used && hs[i].block == block && hs[i].start + hs[i].iovlen == ends[i]
    decreases |ends| - i
  {
    assert HdrOk(hs, ends, block, i);
    if i + 1 < |ends| {
      assert HdrOk(hs, ends, block, i + 1);
      EndsGrow(hs, ends, block, used, i + 1);
    }
  }

  // ----- Growth -----

  /** What `ensure_iov_space` makes of the headers when the array has moved to a new block. */
  function Repointed(hs: seq<MsgHdr>, n: nat, block: nat): seq<MsgHdr>
    requires n <= |hs|
  {
    seq(|hs|, i requires 0 <= i < |hs| => if i < n then MsgHdr(block, Sum(hs, i), hs[i].iovlen) else hs[i])
  }

  lemma {:induction false} SumIsAtMostStart(hs: seq<MsgHdr>, ends: seq<nat>, block: nat, used: nat, i: nat)
    requires Laid(hs, ends, block, used) && i < |ends|
    ensures Sum(hs, i) <= hs[i].start && Sum(hs, i + 1) <= ends[i]
  {
    assert HdrOk(hs, ends, block, i);
    if i > 0 { SumIsAtMostStart(hs, ends, block, used, i - 1); }
  }

  lemma {:induction false} NothingSent(hs: seq<MsgHdr>, ends: seq<nat>, block: nat, used: nat, i: nat)
    requires Laid(hs, ends, block, used) && i < |ends| && Sum(hs, |ends|) == used
    ensures Sum(hs, i) == hs[i].start && Sum(hs, i + 1) == ends[i]
    decreases |ends| - i
  {
    SumIsAtMostStart(hs, ends, block, used, i);
    if i + 1 < |ends| {
      NothingSent(hs, ends, block, used, i + 1);
      assert HdrOk(hs, ends, block, i + 1);
    }
    assert HdrOk(hs, ends, block, i);
  }

  /** Growing the array leaves every header at its own entries exactly when no entry has been sent
  completely, that is, when the headers still cover all used entries. */
  lemma GrowthKeepsHeadersIff(hs: seq<MsgHdr>, ends: seq<nat>, block: nat, used: nat, block': nat)
    requires Laid(hs, ends, block, used)
    ensures (forall i :: 0 <= i < |ends| ==> Repointed(hs, |ends|, block')[i].start == hs[i].start)
            <==> Sum(hs, |ends|) == used
  {
    if Sum(hs, |ends|) == used {
      forall i | 0 <= i < |ends| ensures Sum(hs, i) == hs[i].start {
        NothingSent(hs, ends, block, used, i);
      }
    } else if ends != [] {
      var n := |ends| - 1;
      assert HdrOk(hs, ends, block, n);
      assert Sum(hs, |ends|) == Sum(hs, n) + hs[n].iovlen;
      assert Repointed(hs, |ends|, block')[n].start == Sum(hs, n);
    }
  }

  /** The entries a header points at. */
  function Fragments(iov: seq<Bytes>, h: MsgHdr): Message {
    if h.start + h.iovlen <= |iov| then iov[h.start..h.start + h.iovlen] else []
  }

  /** What the first n headers stand for. */
  function Read(iov: seq<Bytes>, hs: seq<MsgHdr>, n: nat): (ms: seq<Message>)
    requires n <= |hs|
    ensures |ms| == n && forall i :: 0 <= i < n ==> ms[i] == Fragments(iov, hs[i])
  {
    seq(n, i requires 0 <= i < n => Fragments(iov, hs[i]))
  }

  // ----- The whole list -----

  /** The fields of a connection that make up its output list, and where its messages end. */
  datatype Output = Output(
    iov: seq<Bytes>, block: nat, iovUsed: nat,
    msglist: seq<MsgHdr>, msgUsed: nat, msgCurr: nat, msgBytes: nat, ends: seq<nat>)

  /** What keeps every access in bounds, whatever else went wrong. */
  ghost predicate Sane(q: Output) {
    && |q.iov| >= 1 && |q.msglist| >= 1
    && q.iovUsed <= |q.iov| && |q.ends| == q.msgUsed <= |q.msglist| && q.msgCurr <= q.msgUsed
    && Sum(q.msglist, q.msgUsed) <= q.iovUsed
    && (q.msgUsed > 0 ==> NextEntry(q) <= q.iovUsed)
  }

  /** The entry behind those of the last message. */
  function NextEntry(q: Output): nat
    requires 0 < q.msgUsed <= |q.msglist|
  {
    q.msglist[q.msgUsed - 1].start + q.msglist[q.msgUsed - 1].iovlen
  }

  /** Every header points at its own entries. */
  ghost predicate Good(q: Output) {
    && Sane(q)
    && Laid(q.msglist, q.ends, q.block, q.iovUsed)
    && forall i :: 0 <= i < q.msgCurr ==> q.msglist[i].iovlen == 0
  }

  /** No entry has been sent completely. */
  ghost predicate Unsent(q: Output) {
    q.msgUsed <= |q.msglist| && Sum(q.msglist, q.msgUsed) == q.iovUsed
  }

  function MessagesOf(q: Output): seq<Message>
    requires q.msgUsed <= |q.msglist|
  {
    Read(q.iov, q.msglist, q.msgUsed)
  }

  function QueueOf(q: Output): Queue
    requires q.msgUsed <= |q.msglist|
  {
    Queue(MessagesOf(q), q.msgBytes)
  }

  // ----- Filling the next entry -----

  function Stored(q: Output, b: Bytes): Output
    requires Sane(q) && 0 < q.msgUsed && q.iovUsed < |q.iov|
  {
    var n := q.msgUsed - 1;
    q.(iov := q.iov[NextEntry(q) := b], iovUsed := q.iovUsed + 1,
       msglist := q.msglist[n := q.msglist[n].(iovlen := q.msglist[n].iovlen + 1)],
       msgBytes := q.msgBytes + |b|, ends := q.ends[n := q.iovUsed + 1])
  }

  lemma StoredSum(q: Output, b: Bytes)
    requires Sane(q) && 0 < q.msgUsed && q.iovUsed < |q.iov|
    ensures Sum(Stored(q, b).msglist, q.msgUsed) == Sum(q.msglist, q.msgUsed) + 1
    ensures Sane(Stored(q, b)) && (Unsent(Stored(q, b)) <==> Unsent(q))
  {
    SumSame(q.msglist, Stored(q, b).msglist, q.msgUsed - 1);
  }

  lemma StoredLaid(q: Output, b: Bytes)
    requires Good(q) && q.msgCurr < q.msgUsed && q.iovUsed < |q.iov|
    ensures Good(Stored(q, b))
  {
    var q' := Stored(q, b);
    StoredSum(q, b);
    forall i | 0 <= i < q.msgUsed ensures HdrOk(q'.msglist, q'.ends, q.block, i) {
      assert HdrOk(q.msglist, q.ends, q.block, i);
    }
  }

  lemma SliceUpdate(iov: seq<Bytes>, used: nat, b: Bytes, start: nat, end: nat)
    requires start <= end <= used < |iov|
    ensures iov[used := b][start..end] == iov[start..end]
    ensures iov[used := b][start..used + 1] == iov[start..used] + [b]
  {
  }

  lemma StoredEarlier(q: Output, b: Bytes, i: nat)
    requires Good(q) && q.iovUsed < |q.iov| && i < q.msgUsed - 1
    ensures Fragments(Stored(q, b).iov, Stored(q, b).msglist[i]) == Fragments(q.iov, q.msglist[i])
  {
    EndsGrow(q.msglist, q.ends, q.block, q.iovUsed, i);
    EndsGrow(q.msglist, q.ends, q.block, q.iovUsed, q.msgUsed - 1);
    SliceUpdate(q.iov, q.iovUsed, b, q.msglist[i].start, q.ends[i]);
  }

  lemma StoredLast(q: Output, b: Bytes)
    requires Good(q) && q.iovUsed < |q.iov| && q.msgUsed > 0
    ensures var h := q.msglist[q.msgUsed - 1];
            Fragments(Stored(q, b).iov, Stored(q, b).msglist[q.msgUsed - 1]) == Fragments(q.iov, h) + [b]
  {
    var h := q.msglist[q.msgUsed - 1];
    EndsGrow(q.msglist, q.ends, q.block, q.iovUsed, q.msgUsed - 1);
    SliceUpdate(q.iov, q.iovUsed, b, h.start, q.iovUsed);
  }

  lemma ReadPush(iov: seq<Bytes>, hs: seq<MsgHdr>, iov': seq<Bytes>, hs': seq<MsgHdr>, n: nat, b: Bytes)
    requires 0 < n <= |hs| && n <= |hs'|
    requires forall i :: 0 <= i < n - 1 ==> Fragments(iov', hs'[i]) == Fragments(iov, hs[i])
    requires Fragments(iov', hs'[n - 1]) == Fragments(iov, hs[n - 1]) + [b]
    ensures Read(iov', hs', n) == Push(Read(iov, hs, n), b)
  {
    var got, want := Read(iov', hs', n), Push(Read(iov, hs, n), b);
    assert forall i :: 0 <= i < n ==> got[i] == want[i];
  }

  /** Filling the next entry appends to the last message. */
  lemma StoredIsPut(q: Output, b: Bytes)
    requires Good(q) && q.msgCurr < q.msgUsed && q.iovUsed < |q.iov|
    ensures Good(Stored(q, b)) && QueueOf(Stored(q, b)) == Put(QueueOf(q), b)
  {
    var q' := Stored(q, b);
    StoredLaid(q, b);
    forall i | 0 <= i < q.msgUsed - 1 ensures Fragments(q'.iov, q'.msglist[i]) == Fragments(q.iov, q.msglist[i]) {
      StoredEarlier(q, b, i);
    }
    StoredLast(q, b);
    ReadPush(q.iov, q.msglist, q'.iov, q'.msglist, q.msgUsed, b);
  }

  // ----- Growing the array -----

  /** The array has moved to a larger block and every header points there. */
  function Moved(q: Output, iov: seq<Bytes>): Output
    requires q.msgUsed <= |q.msglist|
  {
    q.(iov := iov, block := q.block + 1, msglist := Repointed(q.msglist, q.msgUsed, q.block + 1))
  }

  lemma MovedSane(q: Output, iov: seq<Bytes>)
    requires Sane(q) && q.iov <= iov
    ensures Sane(Moved(q, iov)) && (Unsent(Moved(q, iov)) <==> Unsent(q))
  {
    SumSame(q.msglist, Moved(q, iov).msglist, q.msgUsed);
  }

  lemma MovedHeader(q: Output, iov: seq<Bytes>, i: nat)
    requires Good(q) && Unsent(q) && q.iov <= iov && i < q.msgUsed
    ensures HdrOk(Moved(q, iov).msglist, q.ends, q.block + 1, i)
    ensures Fragments(iov, Moved(q, iov).msglist[i]) == Fragments(q.iov, q.msglist[i])
  {
    NothingSent(q.msglist, q.ends, q.block, q.iovUsed, i);
    EndsGrow(q.msglist, q.ends, q.block, q.iovUsed, i);
    assert HdrOk(q.msglist, q.ends, q.block, i);
  }

  lemma MovedLaid(q: Output, iov: seq<Bytes>)
    requires Good(q) && Unsent(q) && q.iov <= iov
    ensures Good(Moved(q, iov))
  {
    var q' := Moved(q, iov);
    MovedSane(q, iov);
    forall i | 0 <= i < q.msgUsed ensures HdrOk(q'.msglist, q'.ends, q'.block, i) {
      MovedHeader(q, iov, i);
    }
  }

  /** Growth leaves all messages as they were, as long as no entry has been sent. */
  lemma MovedIsSame(q: Output, iov: seq<Bytes>)
    requires Good(q) && Unsent(q) && q.iov <= iov
    ensures Good(Moved(q, iov)) && QueueOf(Moved(q, iov)) == QueueOf(q)
  {
    MovedLaid(q, iov);
    var ms, ms' := MessagesOf(q), MessagesOf(Moved(q, iov));
    forall i: nat | i < q.msgUsed ensures ms'[i] == ms[i] {
      MovedHeader(q, iov, i);
    }
    assert ms' == ms;
  }

  /** `ensure_iov_space`. */
  function Ensured(q: Output): (r: Output)
    requires Sane(q)
    ensures Sane(r) && r.iovUsed < |r.iov| && q.block <= r.block
    ensures r.msgUsed == q.msgUsed && r.msgCurr == q.msgCurr
    ensures Unsent(r) <==> Unsent(q)
  {
    if q.iovUsed < |q.iov| then q
    else
      var iov := q.iov + Blank(|q.iov|);
      MovedSane(q, iov);
      Moved(q, iov)
  }

  /** A step that may move the array keeps its meaning if the array stayed or nothing was sent. */
  ghost predicate Kept(q: Output, r: Output) {
    r.block == q.block || Unsent(q)
  }

  lemma EnsuredKeeps(q: Output)
    requires Good(q) && Kept(q, Ensured(q))
    ensures Good(Ensured(q)) && QueueOf(Ensured(q)) == QueueOf(q)
  {
    if q.iovUsed == |q.iov| {
      MovedIsSame(q, q.iov + Blank(|q.iov|));
    }
  }

  /** Exactly then: growing a full array under sent entries leaves some header at wrong entries. */
  lemma GrowthIsSafeIff(q: Output)
    requires Good(q) && q.iovUsed == |q.iov|
    ensures Good(Ensured(q)) <==> Unsent(q)
  {
    if Unsent(q) {
      EnsuredKeeps(q);
    }
    if Good(Ensured(q)) {
      var r, n := Ensured(q), q.msgUsed - 1;
      assert HdrOk(r.msglist, r.ends, r.block, n);
      assert Sum(q.msglist, q.msgUsed) == Sum(q.msglist, n) + q.msglist[n].iovlen;
    }
  }

  // ----- Beginning a message -----

  /** The list of headers, enlarged when it is full. */
  function Headers(q: Output): seq<MsgHdr> {
    if |q.msglist| == q.msgUsed then q.msglist + seq(|q.msglist|, _ => MsgHdr(0, 0, 0)) else q.msglist
  }

  function Begun(q: Output): Output
    requires Sane(q)
  {
    q.(msglist := Headers(q)[q.msgUsed := MsgHdr(q.block, q.iovUsed, 0)], msgUsed := q.msgUsed + 1,
       msgBytes := 0, ends := q.ends + [q.iovUsed])
  }

  lemma BegunSane(q: Output)
    requires Sane(q)
    ensures Sane(Begun(q)) && (Unsent(Begun(q)) <==> Unsent(q))
  {
    SumSame(q.msglist, Begun(q).msglist, q.msgUsed);
  }

  lemma BegunLaid(q: Output)
    requires Good(q)
    ensures Good(Begun(q))
  {
    var q', n := Begun(q), q.msgUsed;
    BegunSane(q);
    forall i | 0 <= i < n + 1 ensures HdrOk(q'.msglist, q'.ends, q'.block, i) {
      if i < n { assert HdrOk(q.msglist, q.ends, q.block, i); }
    }
  }

  /** A new header begins an empty message. */
  lemma BegunIsEmpty(q: Output)
    requires Good(q)
    ensures Good(Begun(q)) && QueueOf(Begun(q)) == Queue(MessagesOf(q) + [[]], 0)
  {
    BegunLaid(q);
    var ms, ms' := MessagesOf(q), MessagesOf(Begun(q));
    forall i | 0 <= i < |ms'| ensures ms'[i] == (ms + [[]])[i] {
      if i < q.msgUsed { assert Begun(q).msglist[i] == q.msglist[i]; }
    }
  }

  /** `add_msghdr`; on a datagram socket the header's room is the first entry. */
  function Headed(udp: bool, q: Output): (r: Output)
    requires Sane(q)
    ensures Sane(r) && q.block <= r.block && r.msgUsed == q.msgUsed + 1 && r.msgCurr == q.msgCurr
    ensures Unsent(r) <==> Unsent(q)
  {
    BegunSane(q);
    if udp then
      StoredSum(Ensured(Begun(q)), HEADER);
      Stored(Ensured(Begun(q)), HEADER)
    else Begun(q)
  }

  lemma HeadedIsStarted(udp: bool, q: Output)
    requires Good(q) && Kept(q, Headed(udp, q))
    ensures Good(Headed(udp, q)) && QueueOf(Headed(udp, q)) == Started(udp, QueueOf(q))
  {
    BegunSane(q);
    BegunIsEmpty(q);
    if udp {
      EnsuredKeeps(Begun(q));
      StoredIsPut(Ensured(Begun(q)), HEADER);
      FirstFragment(MessagesOf(q), HEADER);
    }
  }

  lemma FirstFragment(ms: seq<Message>, b: Bytes)
    ensures Push(ms + [[]], b) == ms + [[b]]
  {
    var a: seq<Message> := ms + [[]];
    assert Last(a) + [b] == [b];
    assert a[|ms| := [b]] == ms + [[b]];
  }

  // ----- add_iov -----

  /** The current message takes no more, so another one is begun. */
  function OpenedFor(udp: bool, iovMax: nat, q: Output): (r: Output)
    requires Sane(q) && q.msgUsed > 0
    ensures Sane(r) && q.block <= r.block && r.msgUsed >= q.msgUsed && r.msgCurr == q.msgCurr
    ensures Unsent(r) <==> Unsent(q)
    ensures udp || q.msgUsed == 1 ==> r.msgBytes < UDP_MAX_PAYLOAD_SIZE
  {
    if q.msglist[q.msgUsed - 1].iovlen == iovMax
       || ((udp || q.msgUsed == 1) && q.msgBytes >= UDP_MAX_PAYLOAD_SIZE)
    then Headed(udp, q) else q
  }

  lemma LastLength(q: Output)
    requires Good(q) && q.msgUsed > 0
    ensures |Last(MessagesOf(q))| == q.msglist[q.msgUsed - 1].iovlen
  {
    EndsGrow(q.msglist, q.ends, q.block, q.iovUsed, q.msgUsed - 1);
  }

  lemma OpenedForIsOpened(udp: bool, iovMax: nat, q: Output)
    requires Good(q) && q.msgUsed > 0 && Kept(q, OpenedFor(udp, iovMax, q))
    ensures Good(OpenedFor(udp, iovMax, q)) && QueueOf(OpenedFor(udp, iovMax, q)) == Opened(udp, iovMax, QueueOf(q))
  {
    LastLength(q);
    if OpenedFor(udp, iovMax, q) != q {
      HeadedIsStarted(udp, q);
    }
  }

  /** How much of the data goes into the current message. */
  function Fitting(udp: bool, iovMax: nat, q: Output, buf: Bytes): (n: nat)
    requires Sane(q) && q.msgUsed > 0
    ensures n <= |buf| && (n < |buf| ==> n > 0)
  {
    var used := OpenedFor(udp, iovMax, q).msgBytes;
    if (udp || q.msgUsed == 1) && |buf| + used > UDP_MAX_PAYLOAD_SIZE then UDP_MAX_PAYLOAD_SIZE - used else |buf|
  }

  /** One round of the loop of `add_iov`. */
  function AddedOne(udp: bool, iovMax: nat, q: Output, buf: Bytes): (r: Output)
    requires Sane(q) && q.msgUsed > 0
    ensures Sane(r) && q.block <= r.block && r.msgUsed >= q.msgUsed && r.msgCurr == q.msgCurr
    ensures Unsent(r) <==> Unsent(q)
  {
    var q1 := Ensured(OpenedFor(udp, iovMax, q));
    var b := buf[..Fitting(udp, iovMax, q, buf)];
    StoredSum(q1, b);
    Stored(q1, b)
  }

  /** The whole loop. */
  function Added(udp: bool, iovMax: nat, q: Output, buf: Bytes): (r: Output)
    requires Sane(q) && q.msgUsed > 0
    ensures Sane(r) && q.block <= r.block && r.msgUsed >= q.msgUsed && r.msgCurr == q.msgCurr
    ensures Unsent(r) <==> Unsent(q)
    decreases |buf|
  {
    var n, q1 := Fitting(udp, iovMax, q, buf), AddedOne(udp, iovMax, q, buf);
    if n < |buf| then Added(udp, iovMax, q1, buf[n..]) else q1
  }

  lemma FittingIsTake(udp: bool, iovMax: nat, q: Output, buf: Bytes)
    requires Good(q) && q.msgUsed > 0 && Kept(q, OpenedFor(udp, iovMax, q))
    ensures Fitting(udp, iovMax, q, buf) == Take(udp, iovMax, QueueOf(q), buf)
  {
    OpenedForIsOpened(udp, iovMax, q);
  }

  lemma AddedOneIsPut(udp: bool, iovMax: nat, q: Output, buf: Bytes)
    requires Good(q) && q.msgCurr < q.msgUsed && Kept(q, AddedOne(udp, iovMax, q, buf))
    ensures var n := Take(udp, iovMax, QueueOf(q), buf);
            && n == Fitting(udp, iovMax, q, buf) && Good(AddedOne(udp, iovMax, q, buf))
            && QueueOf(AddedOne(udp, iovMax, q, buf)) == Put(Opened(udp, iovMax, QueueOf(q)), buf[..n])
  {
    var q1 := OpenedFor(udp, iovMax, q);
    FittingIsTake(udp, iovMax, q, buf);
    OpenedForIsOpened(udp, iovMax, q);
    EnsuredKeeps(q1);
    StoredIsPut(Ensured(q1), buf[..Fitting(udp, iovMax, q, buf)]);
  }

  /** add_iov queues the data as it should, also behind a reply that is partly sent, as long as the
  array does not have to move under sent entries. */
  lemma {:induction false} AddedIsAppend(udp: bool, iovMax: nat, q: Output, buf: Bytes)
    requires Good(q) && q.msgCurr < q.msgUsed && Kept(q, Added(udp, iovMax, q, buf))
    ensures Good(Added(udp, iovMax, q, buf))
    ensures QueueOf(Added(udp, iovMax, q, buf)) == Append(udp, iovMax, QueueOf(q), buf)
    decreases |buf|
  {
    var n, q1 := Fitting(udp, iovMax, q, buf), AddedOne(udp, iovMax, q, buf);
    AddedOneIsPut(udp, iovMax, q, buf);
    if n < |buf| {
      AddedIsAppend(udp, iovMax, q1, buf[n..]);
    }
  }

  function AddedAll(udp: bool, iovMax: nat, q: Output, bufs: seq<Bytes>): (r: Output)
    requires Sane(q) && q.msgUsed > 0
    ensures Sane(r) && q.block <= r.block && r.msgUsed >= q.msgUsed && r.msgCurr == q.msgCurr
    ensures Unsent(r) <==> Unsent(q)
  {
    if bufs == [] then q
    else Added(udp, iovMax, AddedAll(udp, iovMax, q, bufs[..|bufs| - 1]), bufs[|bufs| - 1])
  }

  lemma {:induction false} AddedAllIsAppend(udp: bool, iovMax: nat, q: Output, bufs: seq<Bytes>)
    requires Good(q) && q.msgCurr < q.msgUsed && Kept(q, AddedAll(udp, iovMax, q, bufs))
    ensures Good(AddedAll(udp, iovMax, q, bufs))
    ensures QueueOf(AddedAll(udp, iovMax, q, bufs)) == AppendAll(udp, iovMax, QueueOf(q), bufs)
  {
    if bufs != [] {
      AddedAllIsAppend(udp, iovMax, q, bufs[..|bufs| - 1]);
      AddedIsAppend(udp, iovMax, AddedAll(udp, iovMax, q, bufs[..|bufs| - 1]), bufs[|bufs| - 1]);
    }
  }

  // ----- Sending -----

  /** The array and the header after n bytes of the header's message were sent. */
  function Consumed(iov: seq<Bytes>, h: MsgHdr, n: nat): (seq<Bytes>, MsgHdr)
    requires h.start + h.iovlen <= |iov|
    decreases h.iovlen
  {
    if h.iovlen > 0 && n >= |iov[h.start]| then
      Consumed(iov, MsgHdr(h.block, h.start + 1, h.iovlen - 1), n - |iov[h.start]|)
    else if h.iovlen > 0 && n > 0 then (iov[h.start := iov[h.start][n..]], h)
    else (iov, h)
  }

  lemma {:induction false} ConsumedFrame(iov: seq<Bytes>, h: MsgHdr, n: nat)
    requires h.start + h.iovlen <= |iov|
    ensures var (iov', h') := Consumed(iov, h, n);
            && |iov'| == |iov| && h'.block == h.block
            && h.start <= h'.start && h'.start + h'.iovlen == h.start + h.iovlen
            && (forall i :: 0 <= i < |iov| && (i < h.start || h.start + h.iovlen <= i) ==> iov'[i] == iov[i])
    decreases h.iovlen
  {
    if h.iovlen > 0 && n >= |iov[h.start]| {
      ConsumedFrame(iov, MsgHdr(h.block, h.start + 1, h.iovlen - 1), n - |iov[h.start]|);
    }
  }

  lemma FirstOf(iov: seq<Bytes>, h: MsgHdr)
    requires h.iovlen > 0 && h.start + h.iovlen <= |iov|
    ensures var m := Fragments(iov, h);
            && m == [iov[h.start]] + m[1..]
            && Fragments(iov, MsgHdr(h.block, h.start + 1, h.iovlen - 1)) == m[1..]
            && forall b :: Fragments(iov[h.start := b], h) == [b] + m[1..]
  {
  }

  lemma {:induction false} ConsumedIs(iov: seq<Bytes>, h: MsgHdr, n: nat)
    requires h.start + h.iovlen <= |iov|
    ensures var (iov', h') := Consumed(iov, h, n);
            Fragments(iov', h') == Consume(Fragments(iov, h), n)
    decreases h.iovlen
  {
    if h.iovlen > 0 {
      FirstOf(iov, h);
      if n >= |iov[h.start]| {
        ConsumedIs(iov, MsgHdr(h.block, h.start + 1, h.iovlen - 1), n - |iov[h.start]|);
      } else if n == 0 {
        assert iov[h.start][0..] == iov[h.start];
      }
    }
  }

  /** The list after n bytes of the current message were sent. */
  function AfterSend(q: Output, n: nat): Output {
    if q.msgCurr < |q.msglist| && q.msglist[q.msgCurr].start + q.msglist[q.msgCurr].iovlen <= |q.iov| then
      var (iov', h') := Consumed(q.iov, q.msglist[q.msgCurr], n);
      q.(iov := iov', msglist := q.msglist[q.msgCurr := h'])
    else q
  }

  lemma {:induction false} LaterStarts(hs: seq<MsgHdr>, ends: seq<nat>, block: nat, used: nat, i: nat, j: nat)
    requires Laid(hs, ends, block, used) && i < j < |ends|
    ensures ends[i] <= hs[j].start
  {
    assert HdrOk(hs, ends, block, j);
    if i < j - 1 {
      LaterStarts(hs, ends, block, used, i, j - 1);
      assert HdrOk(hs, ends, block, j - 1);
    }
  }

  lemma SendLayout(q: Output, n: nat)
    requires Good(q) && q.msgCurr < q.msgUsed
    ensures q.msglist[q.msgCurr].start + q.msglist[q.msgCurr].iovlen <= |q.iov|
    ensures Good(AfterSend(q, n))
  {
    var c := q.msgCurr;
    EndsGrow(q.msglist, q.ends, q.block, q.iovUsed, c);
    ConsumedFrame(q.iov, q.msglist[c], n);
    var q' := AfterSend(q, n);
    forall i | 0 <= i < q.msgUsed ensures HdrOk(q'.msglist, q'.ends, q'.block, i) {
      assert HdrOk(q.msglist, q.ends, q.block, i);
    }
    SumIsAtMostStart(q'.msglist, q'.ends, q'.block, q'.iovUsed, q.msgUsed - 1);
    EndsGrow(q'.msglist, q'.ends, q'.block, q'.iovUsed, q.msgUsed - 1);
  }

  lemma SendOther(q: Output, n: nat, i: nat)
    requires Good(q) && q.msgCurr < q.msgUsed && i < q.msgUsed && i != q.msgCurr
    ensures MessagesOf(AfterSend(q, n))[i] == MessagesOf(q)[i]
  {
    var c := q.msgCurr;
    EndsGrow(q.msglist, q.ends, q.block, q.iovUsed, c);
    EndsGrow(q.msglist, q.ends, q.block, q.iovUsed, i);
    ConsumedFrame(q.iov, q.msglist[c], n);
    if c < i {
      LaterStarts(q.msglist, q.ends, q.block, q.iovUsed, c, i);
    }
  }

  lemma SendCurrent(q: Output, n: nat)
    requires Good(q) && q.msgCurr < q.msgUsed
    ensures MessagesOf(AfterSend(q, n))[q.msgCurr] == Consume(MessagesOf(q)[q.msgCurr], n)
  {
    EndsGrow(q.msglist, q.ends, q.block, q.iovUsed, q.msgCurr);
    ConsumedIs(q.iov, q.msglist[q.msgCurr], n);
  }

  /** Sending n bytes of the current message takes them from the front of what is pending. */
  lemma SendTakesFront(ms: seq<Message>, ms': seq<Message>, c: nat, n: nat)
    requires c < |ms| && ms' == ms[c := Consume(ms[c], n)] && n <= Len(ms[c])
    ensures n <= |FlatAll(ms[c..])| && FlatAll(ms'[c..]) == FlatAll(ms[c..])[n..]
    ensures FlatAll(ms[c..])[..n] == Flat(ms[c])[..n]
  {
    assert ms[c..] == [ms[c]] + ms[c + 1..] && ms'[c..] == [Consume(ms[c], n)] + ms[c + 1..];
    FlatAllFront(ms[c], ms[c + 1..]);
    FlatAllFront(Consume(ms[c], n), ms[c + 1..]);
    ConsumeDropsBytes(ms[c], n);
  }

  ghost function PendingOf(q: Output): Bytes
    requires q.msgUsed <= |q.msglist| && q.msgCurr <= q.msgUsed
  {
    FlatAll(MessagesOf(q)[q.msgCurr..])
  }

  lemma SendOk(q: Output, n: nat)
    requires Good(q) && q.msgCurr < q.msgUsed && n <= Len(MessagesOf(q)[q.msgCurr])
    ensures q.msglist[q.msgCurr].start + q.msglist[q.msgCurr].iovlen <= |q.iov|
    ensures Good(AfterSend(q, n)) && n <= |PendingOf(q)| && PendingOf(AfterSend(q, n)) == PendingOf(q)[n..]
    ensures PendingOf(q)[..n] == Flat(MessagesOf(q)[q.msgCurr])[..n]
  {
    SendLayout(q, n);
    var ms, ms', c := MessagesOf(q), MessagesOf(AfterSend(q, n)), q.msgCurr;
    forall i | 0 <= i < q.msgUsed ensures ms'[i] == ms[c := Consume(ms[c], n)][i] {
      if i == c { SendCurrent(q, n); } else { SendOther(q, n, i); }
    }
    assert ms' == ms[c := Consume(ms[c], n)];
    SendTakesFront(ms, ms', c, n);
  }

  lemma SkipEmpty(ms: seq<Message>, c: nat)
    requires c < |ms| && ms[c] == []
    ensures FlatAll(ms[c..]) == FlatAll(ms[c + 1..])
  {
    assert ms[c..] == [ms[c]] + ms[c + 1..];
    FlatAllFront(ms[c], ms[c + 1..]);
    assert Flat(ms[c]) + FlatAll(ms[c + 1..]) == FlatAll(ms[c + 1..]);
  }

  lemma SteppedGood(q: Output)
    requires Good(q) && q.msgCurr < q.msgUsed && q.msglist[q.msgCurr].iovlen == 0
    ensures Good(q.(msgCurr := q.msgCurr + 1))
  {
  }

  /** A finished message has nothing left to send. */
  lemma SteppedOver(q: Output)
    requires Good(q) && q.msgCurr < q.msgUsed && q.msglist[q.msgCurr].iovlen == 0
    ensures PendingOf(q.(msgCurr := q.msgCurr + 1)) == PendingOf(q)
  {
    FinishedIsEmpty(q);
    SkipEmpty(MessagesOf(q), q.msgCurr);
  }

  lemma DoneIsEmpty(q: Output)
    requires Good(q) && q.msgCurr == q.msgUsed
    ensures PendingOf(q) == []
  {
    assert MessagesOf(q)[q.msgCurr..] == [];
  }

  lemma FinishedIsEmpty(q: Output)
    requires Good(q) && q.msgCurr < q.msgUsed && q.msglist[q.msgCurr].iovlen == 0
    ensures q.msgCurr < |MessagesOf(q)| && MessagesOf(q)[q.msgCurr] == []
    ensures MessagesOf(q.(msgCurr := q.msgCurr + 1)) == MessagesOf(q)
  {
  }

  datatype SendResult = Wrote(count: nat) | WouldBlock | Failed
  datatype TransmitResult = Complete | Incomplete | SoftError | HardError

  /** `sendmsg` never writes more than it was given. */
  function Clipped(res: SendResult, n: nat): SendResult {
    if res.Wrote? && res.count > n then Wrote(n) else res
  }

  /** What is clipped is only what the message does not have. */
  lemma ClippedIs(res: SendResult, n: nat)
    ensures res.Wrote? ==> Clipped(res, n) == Wrote(if res.count <= n then res.count else n)
    ensures !res.Wrote? ==> Clipped(res, n) == res
  {
  }

  class Conn {
    const udp: bool
    const iovMax: nat
    var iov: seq<Bytes>
    var block: nat
    var iovUsed: nat
    var msglist: seq<MsgHdr>
    var msgUsed: nat
    var msgCurr: nat
    var msgBytes: nat
    ghost var ends: seq<nat>
    ghost var sent: Bytes

    ghost function State(): Output
      reads this
    {
      Output(iov, block, iovUsed, msglist, msgUsed, msgCurr, msgBytes, ends)
    }

    ghost predicate Valid()
      reads this
    {
      iovMax >= 2 && Good(State())
    }

    ghost function Messages(): seq<Message>
      requires msgUsed <= |msglist|
      reads this
    {
      MessagesOf(State())
    }

    /** The bytes that are queued and not sent yet, in order. */
    ghost function Pending(): Bytes
      requires msgUsed <= |msglist| && msgCurr <= msgUsed
      reads this
    {
      PendingOf(State())
    }

    /** An empty list, as when a connection is set up. */
    constructor (udp: bool, iovMax: nat, iovSize: nat, msgSize: nat)
      requires iovMax >= 2 && iovSize >= 1 && msgSize >= 1
      ensures Valid() && Unsent(State()) && Messages() == [] && sent == []
      ensures this.udp == udp && this.iovMax == iovMax
      ensures State() == Output(Blank(iovSize), 0, 0, seq(msgSize, _ => MsgHdr(0, 0, 0)), 0, 0, 0, [])
    {
      this.udp, this.iovMax := udp, iovMax;
      iov, block, iovUsed := Blank(iovSize), 0, 0;
      msglist, msgUsed, msgCurr, msgBytes := seq(msgSize, _ => MsgHdr(0, 0, 0)), 0, 0, 0;
      ends, sent := [], [];
    }

    /** `ensure_iov_space`: the array may move, and then every header is pointed at it again. */
    method EnsureIovSpace()
      requires Sane(State())
      modifies `iov, `block, `msglist
      ensures State() == Ensured(old(State()))
      ensures old(Good(State())) && Kept(old(State()), State()) ==>
                Good(State()) && Messages() == old(Messages())
    {
      ghost var q := State();
      if Good(q) && Kept(q, Ensured(q)) { EnsuredKeeps(q); }
      if iovUsed >= |iov| { GrowIov(); }
    }

    /** `realloc` twice the entries, and the loop that sets every `msg_iov` again. */
    method GrowIov()
      requires Sane(State())
      modifies `iov, `block, `msglist
      ensures State() == Moved(old(State()), old(iov) + Blank(|old(iov)|))
    {
      iov := iov + Blank(|iov|);
      block := block + 1;
      msglist := Repoint(msglist, msgUsed, block);
    }

    /** The part of `add_iov` that fills the next entry. */
    method Store(b: Bytes)
      requires Sane(State()) && msgUsed > 0 && iovUsed < |iov|
      modifies `iov, `iovUsed, `msglist, `msgBytes, `ends
      ensures State() == Stored(old(State()), b)
    {
      var m := msglist[msgUsed - 1];
      iov := iov[m.start + m.iovlen := b];
      msgBytes := msgBytes + |b|;
      iovUsed := iovUsed + 1;
      msglist := msglist[msgUsed - 1 := m.(iovlen := m.iovlen + 1)];
      ends := ends[msgUsed - 1 := iovUsed];
    }

    /** The first half of `add_msghdr`: another header, pointing at the next free entry. */
    method Begin()
      requires Sane(State())
      modifies `msglist, `msgUsed, `msgBytes, `ends
      ensures State() == Begun(old(State()))
    {
      if |msglist| == msgUsed {
        msglist := msglist + seq(|msglist|, _ => MsgHdr(0, 0, 0));
      }
      msglist := msglist[msgUsed := MsgHdr(block, iovUsed, 0)];
      msgBytes := 0;
      ends := ends + [iovUsed];
      msgUsed := msgUsed + 1;
    }

    /** `add_msghdr`. */
    method AddMsghdr()
      requires Sane(State())
      modifies `iov, `block, `iovUsed, `msglist, `msgUsed, `msgBytes, `ends
      ensures State() == Headed(udp, old(State()))
      ensures old(Good(State())) && Kept(old(State()), State()) ==>
                Good(State()) && QueueOf(State()) == Started(udp, old(QueueOf(State())))
    {
      ghost var q := State();
      BegunSane(q);
      if Good(q) && Kept(q, Headed(udp, q)) { HeadedIsStarted(udp, q); }
      Begin();
      if udp {
        EnsureIovSpace();
        Store(HEADER);
      }
    }

    /** `add_iov`: the loop that splits a buffer over messages. The data end up behind what is
    pending, also when part of the reply has been sent, unless the array moved after that. */
    method AddIov(buf: Bytes)
      requires Sane(State()) && msgUsed > 0
      modifies `iov, `block, `iovUsed, `msglist, `msgUsed, `msgBytes, `ends
      ensures State() == Added(udp, iovMax, old(State()), buf)
      ensures old(Good(State()) && msgCurr < msgUsed) && Kept(old(State()), State()) ==>
                Good(State()) && QueueOf(State()) == Append(udp, iovMax, old(QueueOf(State())), buf)
    {
      ghost var q := State();
      if Good(q) && msgCurr < msgUsed && Kept(q, Added(udp, iovMax, q, buf)) { AddedIsAppend(udp, iovMax, q, buf); }
      var rest, more := buf, true;
      while more
        invariant Sane(State()) && msgUsed > 0
        invariant Added(udp, iovMax, q, buf) == if more then Added(udp, iovMax, State(), rest) else State()
        decreases more, |rest|
      {
        var n := AddPart(rest);
        rest := rest[n..];
        more := |rest| > 0;
      }
    }

    /** The current message takes no more, so another one is begun. */
    method OpenMessage(limit: bool)
      requires Sane(State()) && msgUsed > 0 && limit == (udp || msgUsed == 1)
      modifies `iov, `block, `iovUsed, `msglist, `msgUsed, `msgBytes, `ends
      ensures State() == OpenedFor(udp, iovMax, old(State()))
    {
      if msglist[msgUsed - 1].iovlen == iovMax || (limit && msgBytes >= UDP_MAX_PAYLOAD_SIZE) {
        AddMsghdr();
      }
    }

    /** The body of that loop. */
    method AddPart(rest: Bytes) returns (n: nat)
      requires Sane(State()) && msgUsed > 0
      modifies `iov, `block, `iovUsed, `msglist, `msgUsed, `msgBytes, `ends
      ensures State() == AddedOne(udp, iovMax, old(State()), rest)
      ensures n == Fitting(udp, iovMax, old(State()), rest)
    {
      var limit := udp || msgUsed == 1;
      OpenMessage(limit);
      EnsureIovSpace();
      n := if limit && |rest| + msgBytes > UDP_MAX_PAYLOAD_SIZE then UDP_MAX_PAYLOAD_SIZE - msgBytes else |rest|;
      Store(rest[..n]);
    }

    /** Any number of buffers, one after the other. */
    method AddAll(bufs: seq<Bytes>)
      requires Sane(State()) && msgUsed > 0
      modifies `iov, `block, `iovUsed, `msglist, `msgUsed, `msgBytes, `ends
      ensures State() == AddedAll(udp, iovMax, old(State()), bufs)
      ensures old(Good(State()) && msgCurr < msgUsed) && Kept(old(State()), State()) ==>
                Good(State()) && QueueOf(State()) == AppendAll(udp, iovMax, old(QueueOf(State())), bufs)
    {
      ghost var q := State();
      if Good(q) && msgCurr < msgUsed && Kept(q, AddedAll(udp, iovMax, q, bufs)) {
        AddedAllIsAppend(udp, iovMax, q, bufs);
      }
      for i := 0 to |bufs|
        invariant State() == AddedAll(udp, iovMax, q, bufs[..i])
      {
        assert bufs[..i + 1][..i] == bufs[..i];
        AddIov(bufs[i]);
      }
      assert bufs[..|bufs|] == bufs;
    }

    /** `transmit` first steps over a finished message. */
    function NextIndex(): nat
      requires msgUsed <= |msglist|
      reads this
    {
      if msgCurr < msgUsed && msglist[msgCurr].iovlen == 0 then msgCurr + 1 else msgCurr
    }

    /** The message it would send next. */
    function NextMessage(): Message
      requires msgUsed <= |msglist|
      reads this
    {
      if NextIndex() < msgUsed then Fragments(iov, msglist[NextIndex()]) else []
    }

    /** `transmit`; `res` is what `sendmsg` answers, which never exceeds the message. Bytes sent
    and bytes pending always add up to the same, in order, and completion means that nothing is
    pending. */
    method Transmit(res: SendResult) returns (r: TransmitResult)
      requires Valid() && (res.Wrote? ==> res.count <= Len(NextMessage()))
      modifies `iov, `msglist, `msgCurr, `sent
      ensures Valid() && sent + Pending() == old(sent) + old(Pending())
      ensures r == Complete <==> msgCurr == msgUsed
      ensures r == Complete ==> Pending() == [] && sent == old(sent) + old(Pending())
      ensures r == Incomplete <==> msgCurr < msgUsed && res.Wrote? && res.count > 0
      ensures r == Incomplete ==> |sent| == |old(sent)| + res.count
      ensures r == Incomplete ==> State() == AfterSend(old(State()).(msgCurr := msgCurr), res.count)
      ensures msgUsed == old(msgUsed) && block == old(block) && msgCurr == old(NextIndex())
      ensures r == SoftError <==> msgCurr < msgUsed && res == WouldBlock
    {
      ghost var stream := sent + Pending();
      Advance();
      r := SendNext(res);
      assert sent + Pending() == stream;
    }

    /** The rest of it, with the index at the next message. */
    method SendNext(res: SendResult) returns (r: TransmitResult)
      requires Valid() && (res.Wrote? && msgCurr < msgUsed ==> res.count <= Len(Messages()[msgCurr]))
      modifies `iov, `msglist, `sent
      ensures Valid() && sent + Pending() == old(sent + Pending())
      ensures r == Complete <==> msgCurr == msgUsed
      ensures r == Complete ==> Pending() == [] && sent == old(sent + Pending())
      ensures r == Incomplete <==> msgCurr < msgUsed && res.Wrote? && res.count > 0
      ensures r == Incomplete ==> |sent| == |old(sent)| + res.count && State() == AfterSend(old(State()), res.count)
      ensures r == SoftError <==> msgCurr < msgUsed && res == WouldBlock
    {
      if msgCurr == msgUsed {
        DoneIsEmpty(State());
        return Complete;
      }
      if res.Wrote? && res.count > 0 {
        Send(res.count);
        return Incomplete;
      }
      r := if res == WouldBlock then SoftError else HardError;
    }

    method Advance()
      requires Valid()
      modifies `msgCurr
      ensures Valid() && Pending() == old(Pending())
      ensures (if msgCurr < msgUsed then Messages()[msgCurr] else []) == old(NextMessage())
      ensures State() == old(State()).(msgCurr := msgCurr) && msgCurr == old(NextIndex())
    {
      if msgCurr < msgUsed && msglist[msgCurr].iovlen == 0 {
        ghost var q := State();
        SteppedGood(q);
        SteppedOver(q);
        msgCurr := msgCurr + 1;
        assert State() == q.(msgCurr := q.msgCurr + 1);
      }
    }

    method Send(count: nat)
      requires Valid() && msgCurr < msgUsed && count <= Len(Messages()[msgCurr])
      modifies `iov, `msglist, `sent
      ensures Valid() && sent + Pending() == old(sent) + old(Pending()) && |sent| == |old(sent)| + count
      ensures State() == AfterSend(old(State()), count)
    {
      ghost var bytes := Pending();
      SendOk(State(), count);
      Rejoin(sent, bytes, count);
      Remove(count);
      ghost var q := State();
      sent := sent + bytes[..count];
      assert State() == q;
    }

    method Remove(count: nat)
      requires msgCurr < |msglist| && msglist[msgCurr].start + msglist[msgCurr].iovlen <= |iov|
      modifies `iov, `msglist
      ensures State() == AfterSend(old(State()), count)
    {
      var v, m := Drain(iov, msglist[msgCurr], count);
      iov, msglist := v, msglist[msgCurr := m];
    }
  }

  /** The loop of `transmit` over the entries of a message. */
  method Drain(iov: seq<Bytes>, h: MsgHdr, count: nat) returns (iov': seq<Bytes>, m: MsgHdr)
    requires h.start + h.iovlen <= |iov|
    ensures (iov', m) == Consumed(iov, h, count)
  {
    var res: int := count;
    iov', m := iov, h;
    while m.iovlen > 0 && res >= |iov[m.start]|
      invariant res >= 0 && m.start + m.iovlen <= |iov| && Consumed(iov, m, res) == Consumed(iov, h, count)
      decreases m.iovlen
    {
      res := res - |iov[m.start]|;
      m := MsgHdr(m.block, m.start + 1, m.iovlen - 1);
    }
    if res > 0 && m.iovlen > 0 {
      iov' := iov[m.start := iov[m.start][res..]];
    }
  }

  /** The loop of `ensure_iov_space`. */
  method Repoint(hs: seq<MsgHdr>, n: nat, block: nat) returns (r: seq<MsgHdr>)
    requires n <= |hs|
    ensures r == Repointed(hs, n, block)
  {
    r := hs;
    var iovnum := 0;
    for i := 0 to n
      invariant |r| == |hs| && iovnum == Sum(hs, i)
      invariant forall j {:trigger r[j]} :: 0 <= j < i ==> r[j] == MsgHdr(block, Sum(hs, j), hs[j].iovlen)
      invariant forall j {:trigger r[j]} :: i <= j < |hs| ==> r[j] == hs[j]
    {
      r := r[i := MsgHdr(block, iovnum, hs[i].iovlen)];
      iovnum := iovnum + hs[i].iovlen;
      assert Sum(hs, i + 1) == Sum(hs, i) + hs[i].iovlen;
    }
    forall j | 0 <= j < |hs| ensures r[j] == Repointed(hs, n, block)[j] {}
  }
}
