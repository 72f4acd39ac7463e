/** What memcached's scatter/gather output must do (memcached.c): messages are lists of byte
fragments; queueing splits data to respect the datagram size and the limit on fragments per
message, and sending removes bytes from the front. */
module OutputSpec {
  import opened Words

  type Bytes = seq<Byte>
  type Message = seq<Bytes>

  const UDP_MAX_PAYLOAD_SIZE := 1400
  const UDP_HEADER_SIZE := 8

  /** Room for a datagram header; it is filled in later. */
  const HEADER: Bytes := [0, 0, 0, 0, 0, 0, 0, 0]

  function Flat(m: Message): Bytes {
    if m == [] then [] else Flat(m[..|m| - 1]) + m[|m| - 1]
  }

  function Len(m: Message): nat { |Flat(m)| }

  function FlatAll(ms: seq<Message>): Bytes {
    if ms == [] then [] else FlatAll(ms[..|ms| - 1]) + Flat(ms[|ms| - 1])
  }

  function Last(ms: seq<Message>): Message
    requires ms != []
  {
    ms[|ms| - 1]
  }

  function Push(ms: seq<Message>, b: Bytes): (r: seq<Message>)
    requires ms != []
    ensures r != []
  {
    ms[|ms| - 1 := Last(ms) + [b]]
  }

  /** A new message: empty on a stream, a header on a datagram socket. */
  function Fresh(udp: bool): Message { if udp then [HEADER] else [] }

  /** The messages of a reply, and the bytes put so far into the last one. Sending takes fragments
  from the messages but leaves that count, as the source does. */
  datatype Queue = Queue(ms: seq<Message>, bytes: nat)

  function Put(q: Queue, b: Bytes): (r: Queue)
    requires q.ms != []
    ensures r.ms != []
  {
    Queue(Push(q.ms, b), q.bytes + |b|)
  }

  /** Another message: empty on a stream, with its header on a datagram socket. */
  function Started(udp: bool, q: Queue): (r: Queue)
    ensures r.ms != []
  {
    Queue(q.ms + [Fresh(udp)], if udp then UDP_HEADER_SIZE else 0)
  }

  /** Whether the current message takes no more, as `add_iov` tests it. */
  predicate Full(udp: bool, iovMax: nat, q: Queue)
    requires q.ms != []
  {
    |Last(q.ms)| == iovMax || (Limited(udp, q) && q.bytes >= UDP_MAX_PAYLOAD_SIZE)
  }

  /** Datagrams, and the first message of a reply, are limited in size. */
  predicate Limited(udp: bool, q: Queue) { udp || |q.ms| == 1 }

  function Opened(udp: bool, iovMax: nat, q: Queue): (r: Queue)
    requires q.ms != []
    ensures r.ms != []
    ensures Limited(udp, q) ==> r.bytes < UDP_MAX_PAYLOAD_SIZE
  {
    if Full(udp, iovMax, q) then Started(udp, q) else q
  }

  /** How much of the data goes into the current message. */
  function Take(udp: bool, iovMax: nat, q: Queue, buf: Bytes): (n: nat)
    requires q.ms != []
    ensures n <= |buf| && (n < |buf| ==> n > 0)
  {
    var room := UDP_MAX_PAYLOAD_SIZE - Opened(udp, iovMax, q).bytes;
    if Limited(udp, q) && |buf| > room then room else |buf|
  }

  /** `add_iov`: splits off what fits, and goes on with the rest in a new message. */
  function Append(udp: bool, iovMax: nat, q: Queue, buf: Bytes): (r: Queue)
    requires q.ms != []
    ensures r.ms != []
    decreases |buf|
  {
    var n := Take(udp, iovMax, q, buf);
    var q1 := Put(Opened(udp, iovMax, q), buf[..n]);
    if n < |buf| then Append(udp, iovMax, q1, buf[n..]) else q1
  }

  // ----- Queueing keeps the bytes -----

  /** A message without the room for its header. */
  function Strip(udp: bool, m: Message): Message {
    if udp && m != [] then m[1..] else m
  }

  function Payload(udp: bool, ms: seq<Message>): Bytes {
    if ms == [] then [] else Payload(udp, ms[..|ms| - 1]) + Flat(Strip(udp, ms[|ms| - 1]))
  }

  /** A message is within its limits, and a datagram starts with its header. */
  ghost predicate FitsOne(udp: bool, iovMax: nat, m: Message) {
    |m| <= iovMax && (udp ==> m != [] && m[0] == HEADER && Len(m) <= UDP_MAX_PAYLOAD_SIZE)
  }

  ghost predicate Fits(udp: bool, iovMax: nat, ms: seq<Message>) {
    && ms != [] && Len(ms[0]) <= UDP_MAX_PAYLOAD_SIZE
    && (forall i {:trigger FitsOne(udp, iovMax, ms[i])} :: 0 <= i < |ms| ==> FitsOne(udp, iovMax, ms[i]))
  }

  lemma Regroup(a: Bytes, b: Bytes, c: Bytes)
    ensures (a + b) + c == a + (b + c)
  {
  }

  lemma FlatPush(m: Message, b: Bytes)
    ensures Flat(m + [b]) == Flat(m) + b
  {
    assert (m + [b])[..|m|] == m;
  }

  lemma PayloadPush(udp: bool, ms: seq<Message>, b: Bytes)
    requires ms != [] && (udp ==> Last(ms) != [])
    ensures Payload(udp, Push(ms, b)) == Payload(udp, ms) + b
  {
    var n := |ms| - 1;
    var m := Strip(udp, Last(ms));
    assert Push(ms, b)[..n] == ms[..n];
    assert Strip(udp, Last(ms) + [b]) == m + [b];
    FlatPush(m, b);
    Regroup(Payload(udp, ms[..n]), Flat(m), b);
  }

  /** Nothing has been sent of the last message. */
  ghost predicate Whole(q: Queue) {
    q.ms != [] && q.bytes == Len(Last(q.ms))
  }

  lemma FreshFits(udp: bool, iovMax: nat)
    requires iovMax >= 2
    ensures FitsOne(udp, iovMax, Fresh(udp)) && |Fresh(udp)| < iovMax
    ensures Len(Fresh(udp)) == (if udp then UDP_HEADER_SIZE else 0) && Flat(Strip(udp, Fresh(udp))) == []
  {
    assert [HEADER][..0] == [] && Flat([]) == [];
  }

  lemma OpenedKeeps(udp: bool, iovMax: nat, q: Queue)
    requires Fits(udp, iovMax, q.ms) && iovMax >= 2 && Whole(q)
    ensures var r := Opened(udp, iovMax, q);
            && Fits(udp, iovMax, r.ms) && Whole(r) && |Last(r.ms)| < iovMax && (udp ==> Last(r.ms) != [])
            && Payload(udp, r.ms) == Payload(udp, q.ms)
  {
    FreshFits(udp, iovMax);
    assert FitsOne(udp, iovMax, q.ms[|q.ms| - 1]);
    var r := Opened(udp, iovMax, q).ms;
    forall i | 0 <= i < |r| ensures FitsOne(udp, iovMax, r[i]) {
      if i < |q.ms| { assert FitsOne(udp, iovMax, q.ms[i]); }
    }
    if Full(udp, iovMax, q) {
      assert r[..|q.ms|] == q.ms;
    }
  }

  lemma PutFits(udp: bool, iovMax: nat, q: Queue, b: Bytes)
    requires Fits(udp, iovMax, q.ms) && |Last(q.ms)| < iovMax && Whole(q)
    requires Limited(udp, q) ==> q.bytes + |b| <= UDP_MAX_PAYLOAD_SIZE
    ensures Fits(udp, iovMax, Put(q, b).ms) && Whole(Put(q, b))
  {
    FlatPush(Last(q.ms), b);
    var r := Push(q.ms, b);
    forall i | 0 <= i < |r| ensures FitsOne(udp, iovMax, r[i]) {
      assert FitsOne(udp, iovMax, q.ms[i]);
    }
  }

  /** What goes into one message. */
  lemma PutKeeps(udp: bool, iovMax: nat, q: Queue, buf: Bytes)
    requires Fits(udp, iovMax, q.ms) && iovMax >= 2 && Whole(q)
    ensures var n := Take(udp, iovMax, q, buf);
            var r := Put(Opened(udp, iovMax, q), buf[..n]);
            && Fits(udp, iovMax, r.ms) && Whole(r)
            && Payload(udp, r.ms) == Payload(udp, q.ms) + buf[..n]
  {
    var n, q1 := Take(udp, iovMax, q, buf), Opened(udp, iovMax, q);
    OpenedKeeps(udp, iovMax, q);
    PutFits(udp, iovMax, q1, buf[..n]);
    PayloadPush(udp, q1.ms, buf[..n]);
  }

  /** Nothing is lost, added or reordered by splitting. */
  lemma {:induction false} AppendKeepsBytes(udp: bool, iovMax: nat, q: Queue, buf: Bytes)
    requires Fits(udp, iovMax, q.ms) && iovMax >= 2 && Whole(q)
    ensures Payload(udp, Append(udp, iovMax, q, buf).ms) == Payload(udp, q.ms) + buf
    decreases |buf|
  {
    var n := Take(udp, iovMax, q, buf);
    PutKeeps(udp, iovMax, q, buf);
    if n < |buf| {
      AppendKeepsBytes(udp, iovMax, Put(Opened(udp, iovMax, q), buf[..n]), buf[n..]);
    }
    Rejoin(Payload(udp, q.ms), buf, n);
  }

  lemma Rejoin(a: Bytes, b: Bytes, n: nat)
    requires n <= |b|
    ensures (a + b[..n]) + b[n..] == a + b && (n == |b| ==> a + b[..n] == a + b)
  {
  }

  /** No datagram exceeds 1400 bytes and no message has too many fragments, whatever is queued. */
  lemma {:induction false} AppendFits(udp: bool, iovMax: nat, q: Queue, buf: Bytes)
    requires Fits(udp, iovMax, q.ms) && iovMax >= 2 && Whole(q)
    ensures Fits(udp, iovMax, Append(udp, iovMax, q, buf).ms) && Whole(Append(udp, iovMax, q, buf))
    decreases |buf|
  {
    var n := Take(udp, iovMax, q, buf);
    PutKeeps(udp, iovMax, q, buf);
    if n < |buf| {
      AppendFits(udp, iovMax, Put(Opened(udp, iovMax, q), buf[..n]), buf[n..]);
    }
  }

  function AppendAll(udp: bool, iovMax: nat, q: Queue, bufs: seq<Bytes>): (r: Queue)
    requires q.ms != []
    ensures r.ms != []
  {
    if bufs == [] then q
    else Append(udp, iovMax, AppendAll(udp, iovMax, q, bufs[..|bufs| - 1]), bufs[|bufs| - 1])
  }

  /** Queueing any buffers keeps all their bytes, in order, and all messages within the limits. */
  lemma {:induction false} AppendAllKeepsBytes(udp: bool, iovMax: nat, q: Queue, bufs: seq<Bytes>)
    requires Fits(udp, iovMax, q.ms) && iovMax >= 2 && Whole(q)
    ensures Fits(udp, iovMax, AppendAll(udp, iovMax, q, bufs).ms) && Whole(AppendAll(udp, iovMax, q, bufs))
    ensures Payload(udp, AppendAll(udp, iovMax, q, bufs).ms) == Payload(udp, q.ms) + Flat(bufs)
  {
    if bufs != [] {
      var front, b := bufs[..|bufs| - 1], bufs[|bufs| - 1];
      AppendAllKeepsBytes(udp, iovMax, q, front);
      AppendFits(udp, iovMax, AppendAll(udp, iovMax, q, front), b);
      AppendKeepsBytes(udp, iovMax, AppendAll(udp, iovMax, q, front), b);
      Regroup(Payload(udp, q.ms), Flat(front), b);
    } else {
      assert Payload(udp, q.ms) + [] == Payload(udp, q.ms);
    }
  }

  // ----- No message is left before it is full -----

  /** Every message but the last has all the fragments it can have, or, where its size is limited, 1400
  bytes. */
  ghost predicate Packed(udp: bool, iovMax: nat, ms: seq<Message>) {
    forall i :: 0 <= i < |ms| - 1 ==> |ms[i]| == iovMax || ((udp || i == 0) && Len(ms[i]) == 1400)
  }

  lemma OpenedPacked(udp: bool, iovMax: nat, q: Queue)
    requires Fits(udp, iovMax, q.ms) && iovMax >= 2 && Whole(q) && Packed(udp, iovMax, q.ms)
    ensures Packed(udp, iovMax, Opened(udp, iovMax, q).ms)
  {
    assert FitsOne(udp, iovMax, q.ms[|q.ms| - 1]);
  }

  lemma {:induction false} AppendPacks(udp: bool, iovMax: nat, q: Queue, buf: Bytes)
    requires Fits(udp, iovMax, q.ms) && iovMax >= 2 && Whole(q) && Packed(udp, iovMax, q.ms)
    ensures Packed(udp, iovMax, Append(udp, iovMax, q, buf).ms)
    decreases |buf|
  {
    var n := Take(udp, iovMax, q, buf);
    PutKeeps(udp, iovMax, q, buf);
    OpenedPacked(udp, iovMax, q);
    if n < |buf| {
      AppendPacks(udp, iovMax, Put(Opened(udp, iovMax, q), buf[..n]), buf[n..]);
    }
  }

  /** Whatever is queued, as few messages as possible are used: none is left before it is full. */
  lemma {:induction false} AppendAllPacks(udp: bool, iovMax: nat, q: Queue, bufs: seq<Bytes>)
    requires Fits(udp, iovMax, q.ms) && iovMax >= 2 && Whole(q) && Packed(udp, iovMax, q.ms)
    ensures Packed(udp, iovMax, AppendAll(udp, iovMax, q, bufs).ms)
  {
    if bufs != [] {
      var front := bufs[..|bufs| - 1];
      AppendAllPacks(udp, iovMax, q, front);
      AppendAllKeepsBytes(udp, iovMax, q, front);
      AppendPacks(udp, iovMax, AppendAll(udp, iovMax, q, front), bufs[|bufs| - 1]);
    }
  }

  /** Data that fit are one fragment more in the last message. */
  lemma FittingIsNotSplit(udp: bool, iovMax: nat, q: Queue, buf: Bytes)
    requires q.ms != [] && |Last(q.ms)| != iovMax
    requires (udp || |q.ms| == 1) ==> q.bytes < 1400 && q.bytes + |buf| <= 1400
    ensures Append(udp, iovMax, q, buf).ms == q.ms[..|q.ms| - 1] + [Last(q.ms) + [buf]]
  {
    assert buf[..|buf|] == buf;
  }

  lemma {:induction false} AppendKeepsEarlier(udp: bool, iovMax: nat, q: Queue, buf: Bytes, i: nat)
    requires i < |q.ms| && (i == |q.ms| - 1 ==> Full(udp, iovMax, q)) && iovMax >= 2
    ensures i < |Append(udp, iovMax, q, buf).ms| && Append(udp, iovMax, q, buf).ms[i] == q.ms[i]
    decreases |buf|
  {
    var n := Take(udp, iovMax, q, buf);
    var q1 := Put(Opened(udp, iovMax, q), buf[..n]);
    assert i < |q1.ms| - 1 && q1.ms[i] == q.ms[i];
    if n < |buf| {
      AppendKeepsEarlier(udp, iovMax, q1, buf[n..], i);
    }
  }

  /** Data that do not fit are split where the message is full: what goes into it is one fragment that
  brings it to 1400 bytes. */
  lemma SplitFillsMessage(udp: bool, iovMax: nat, q: Queue, buf: Bytes)
    requires q.ms != [] && |Last(q.ms)| != iovMax && iovMax >= 2
    requires (udp || |q.ms| == 1) && q.bytes < 1400 < q.bytes + |buf|
    ensures |Append(udp, iovMax, q, buf).ms| >= |q.ms|
    ensures Append(udp, iovMax, q, buf).ms[|q.ms| - 1] == Last(q.ms) + [buf[..1400 - q.bytes]]
  {
    var n := 1400 - q.bytes;
    AppendKeepsEarlier(udp, iovMax, Put(q, buf[..n]), buf[n..], |q.ms| - 1);
  }

  // ----- A stream, also after part of it was sent -----

  lemma FlatAllPush(ms: seq<Message>, b: Bytes)
    requires ms != []
    ensures FlatAll(Push(ms, b)) == FlatAll(ms) + b
  {
    var n := |ms| - 1;
    assert Push(ms, b)[..n] == ms[..n];
    FlatPush(Last(ms), b);
    Regroup(FlatAll(ms[..n]), Flat(Last(ms)), b);
  }

  lemma PutStream(q: Queue, b: Bytes, c: nat)
    requires c < |q.ms|
    ensures FlatAll(Put(q, b).ms[c..]) == FlatAll(q.ms[c..]) + b
  {
    assert Push(q.ms, b)[c..] == Push(q.ms[c..], b);
    FlatAllPush(q.ms[c..], b);
  }

  lemma OpenedStream(iovMax: nat, q: Queue, c: nat)
    requires c < |q.ms|
    ensures FlatAll(Opened(false, iovMax, q).ms[c..]) == FlatAll(q.ms[c..])
  {
    if Full(false, iovMax, q) {
      var r := q.ms[c..] + [[]];
      assert (q.ms + [[]])[c..] == r && r[..|r| - 1] == q.ms[c..];
    }
  }

  /** On a stream the data go behind what is pending from message c on, whatever was sent before. */
  lemma {:induction false} AppendStream(iovMax: nat, q: Queue, buf: Bytes, c: nat)
    requires c < |q.ms|
    ensures |Append(false, iovMax, q, buf).ms| >= |q.ms|
    ensures FlatAll(Append(false, iovMax, q, buf).ms[c..]) == FlatAll(q.ms[c..]) + buf
    decreases |buf|
  {
    var n, q1 := Take(false, iovMax, q, buf), Opened(false, iovMax, q);
    OpenedStream(iovMax, q, c);
    PutStream(q1, buf[..n], c);
    if n < |buf| {
      AppendStream(iovMax, Put(q1, buf[..n]), buf[n..], c);
    }
    Rejoin(FlatAll(q.ms[c..]), buf, n);
  }

  /** On a stream the bytes queued are the bytes pending. */
  lemma {:induction false} StreamPayload(ms: seq<Message>)
    ensures Payload(false, ms) == FlatAll(ms)
  {
    if ms != [] {
      StreamPayload(ms[..|ms| - 1]);
    }
  }

  // ----- Sending removes bytes from the front -----

  /** The loop of `transmit` over the fragments of a message of which n bytes were sent. */
  function Consume(m: Message, n: nat): Message {
    if m == [] then []
    else if n >= |m[0]| then Consume(m[1..], n - |m[0]|)
    else [m[0][n..]] + m[1..]
  }

  lemma {:induction false} FlatFront(b: Bytes, m: Message)
    ensures Flat([b] + m) == b + Flat(m)
  {
    var w := [b] + m;
    if m == [] {
      assert w[..0] == [] && w == [b];
    } else {
      assert w[..|w| - 1] == [b] + m[..|m| - 1];
      FlatFront(b, m[..|m| - 1]);
      assert (b + Flat(m[..|m| - 1])) + m[|m| - 1] == b + (Flat(m[..|m| - 1]) + m[|m| - 1]);
    }
  }

  lemma {:induction false} ConsumeDropsBytes(m: Message, n: nat)
    requires n <= Len(m)
    ensures Flat(Consume(m, n)) == Flat(m)[n..]
    decreases |m|
  {
    if m != [] {
      FlatFront(m[0], m[1..]);
      assert m == [m[0]] + m[1..];
      if n >= |m[0]| {
        ConsumeDropsBytes(m[1..], n - |m[0]|);
      } else {
        FlatFront(m[0][n..], m[1..]);
      }
    }
  }

  lemma {:induction false} FlatAllFront(m: Message, ms: seq<Message>)
    ensures FlatAll([m] + ms) == Flat(m) + FlatAll(ms)
  {
    var w := [m] + ms;
    if ms == [] {
      assert w[..0] == [] && w == [m];
    } else {
      assert w[..|w| - 1] == [m] + ms[..|ms| - 1];
      FlatAllFront(m, ms[..|ms| - 1]);
      Regroup(Flat(m), FlatAll(ms[..|ms| - 1]), Flat(ms[|ms| - 1]));
    }
  }
}
