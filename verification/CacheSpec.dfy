/** What one cache node computes, as operations on a list of entries ordered from the most to
the least recently used (prototype/server.cpp). `CacheNode` refines these functions. */
module CacheSpec {
  import opened Sequences
  import opened VersionVectors

  datatype Entry = Entry(key: Bytes, value: Bytes, version: Version)
  type Entries = seq<Entry>

  const MEMORY_LIMIT: int := 0x4000_0000

  ghost predicate DistinctKeys(es: Entries) {
    forall i, j :: 0 <= i < j < |es| ==> es[i].key != es[j].key
  }

  function Weight(e: Entry): nat { |e.key| + |e.value| }

  /** Bytes of keys and values held. */
  function Size(es: Entries): nat {
    if es == [] then 0 else Size(es[..|es| - 1]) + Weight(es[|es| - 1])
  }

  function IndexOf(es: Entries, k: Bytes): (i: nat)
    ensures i <= |es|
    ensures i < |es| ==> es[i].key == k
    ensures forall j :: 0 <= j < i ==> es[j].key != k
  {
    if es == [] || es[0].key == k then 0 else 1 + IndexOf(es[1..], k)
  }

  function Lookup(es: Entries, k: Bytes): Option<Bytes> {
    var i := IndexOf(es, k);
    if i < |es| then Some(es[i].value) else None
  }

  // ----- The operations -----

  /** Eviction: drop least recently used entries while over the limit. */
  function Evict(es: Entries): Entries {
    if Size(es) > MEMORY_LIMIT then Evict(es[..|es| - 1]) else es
  }

  /** How an operation changes the list, once eviction is done. */
  datatype Edit =
    | Keep
    | Push(entry: Entry)                // a new key, most recently used
    | Front(index: nat, entry: Entry)   // an existing key, now most recently used
    | Change(index: nat, entry: Entry)  // an existing key, in place
    | Cut(index: nat)

  ghost predicate ValidEdit(es: Entries, ed: Edit) {
    match ed
    case Keep => true
    case Push(e) => forall j :: 0 <= j < |es| ==> es[j].key != e.key
    case Front(i, e) => i < |es| && es[i].key == e.key
    case Change(i, e) => i < |es| && es[i].key == e.key
    case Cut(i) => i < |es|
  }

  function Do(es: Entries, ed: Edit): Entries
    requires ValidEdit(es, ed)
  {
    match ed
    case Keep => es
    case Push(e) => [e] + es
    case Front(i, e) => [e] + Without(es, i)
    case Change(i, e) => es[i := e]
    case Cut(i) => Without(es, i)
  }

  datatype Op =
    | Put(key: Bytes, value: Bytes)
    | Get(key: Bytes)
    | Propagate(entry: Entry)   // an entry arriving from another replica
    | Remove(key: Bytes)        // an invalidation reported by another replica

  function KeyOf(op: Op): Bytes {
    if op.Propagate? then op.entry.key else op.key
  }

  function EditOf(es: Entries, self: Server, op: Op): (ed: Edit)
    ensures ValidEdit(es, ed)
    ensures ed.Push? || ed.Front? || ed.Change? ==> ed.entry.key == KeyOf(op)
    ensures ed.Cut? ==> es[ed.index].key == KeyOf(op)
    ensures op.Get? && ed.Front? ==> ed.entry == es[ed.index]
  {
    var i := IndexOf(es, KeyOf(op));
    if i == |es| then
      match op
      case Put(k, v) => Push(Entry(k, v, [VersionEntry(self, 1)]))
      case Propagate(e) => Push(e)
      case _ => Keep
    else
      match op
      case Put(k, v) => Front(i, Entry(k, v, Bump(es[i].version, self)))
      case Get(k) => Front(i, es[i])
      case Remove(k) => Cut(i)
      case Propagate(e) =>
        match Resolve(es[i].version, es[i].value, e.version, e.value)
        case Skip => Keep
        case Replace => Front(i, e)
        case Merge => Change(i, es[i].(version := []))
        case Invalidate => Cut(i)
  }

  /** Puts and arrivals evict first; gets and removals do not. */
  function Base(es: Entries, op: Op): Entries {
    if op.Put? || op.Propagate? then Evict(es) else es
  }

  function Apply(es: Entries, self: Server, op: Op): Entries {
    Do(Base(es, op), EditOf(Base(es, op), self, op))
  }

  // ----- Sizes and eviction -----

  lemma {:induction false} SizeConcat(a: Entries, b: Entries)
    ensures Size(a + b) == Size(a) + Size(b)
  {
    if b == [] {
      assert a + b == a;
    } else {
      var n := |b| - 1;
      assert (a + b)[..|a + b| - 1] == a + b[..n];
      SizeConcat(a, b[..n]);
    }
  }

  lemma {:induction false} SizeFront(e: Entry, es: Entries)
    ensures Size([e] + es) == Weight(e) + Size(es)
  {
    SizeConcat([e], es);
    assert [e][..0] == [];
  }

  lemma {:induction false} SizeWithout(es: Entries, i: nat)
    requires i < |es|
    ensures Size(Without(es, i)) == Size(es) - Weight(es[i])
  {
    var a, b := es[..i], es[i + 1..];
    SizeConcat(a, b);
    SizeFront(es[i], b);
    SizeConcat(a, [es[i]] + b);
    assert a + ([es[i]] + b) == es;
  }

  function Gain(es: Entries, ed: Edit): int
    requires ValidEdit(es, ed)
  {
    match ed
    case Keep => 0
    case Push(e) => Weight(e)
    case Front(i, e) => Weight(e) - Weight(es[i])
    case Change(i, e) => Weight(e) - Weight(es[i])
    case Cut(i) => 0 - Weight(es[i])
  }

  lemma {:induction false} DoSize(es: Entries, ed: Edit)
    requires ValidEdit(es, ed)
    ensures Size(Do(es, ed)) == Size(es) + Gain(es, ed)
  {
    match ed
    case Keep =>
    case Push(e) => SizeFront(e, es);
    case Front(i, e) =>
      SizeWithout(es, i);
      SizeFront(e, Without(es, i));
    case Change(i, e) =>
      SizeWithout(es, i);
      SizeWithout(es[i := e], i);
      assert Without(es[i := e], i) == Without(es, i);
    case Cut(i) => SizeWithout(es, i);
  }

  /** Eviction keeps exactly the longest prefix that fits: what it drops is the shortest
  least recently used suffix. */
  lemma {:induction false} EvictKeepsLongestFittingPrefix(es: Entries)
    ensures Evict(es) <= es
    ensures Size(Evict(es)) <= MEMORY_LIMIT
    ensures forall n :: |Evict(es)| < n <= |es| ==> Size(es[..n]) > MEMORY_LIMIT
  {
    if Size(es) > MEMORY_LIMIT {
      var shorter := es[..|es| - 1];
      EvictKeepsLongestFittingPrefix(shorter);
      forall n | |Evict(es)| < n <= |es| ensures Size(es[..n]) > MEMORY_LIMIT {
        if n == |es| {
          assert es[..n] == es;
        } else {
          assert es[..n] == shorter[..n];
        }
      }
    }
  }

  function Incoming(op: Op): nat {
    if op.Put? then |op.key| + |op.value| else if op.Propagate? then Weight(op.entry) else 0
  }

  lemma {:induction false} GainIsIncoming(es: Entries, self: Server, op: Op)
    ensures Gain(es, EditOf(es, self, op)) <= Incoming(op)
  {
  }

  /** After any put or arrival the node uses at most the limit plus the size of what came in;
  so its 32-bit counter cannot overflow while a key and its value stay below 2^30 bytes. */
  lemma {:induction false} StaysNearLimit(es: Entries, self: Server, op: Op)
    requires op.Put? || op.Propagate?
    ensures Size(Apply(es, self, op)) <= MEMORY_LIMIT + Incoming(op)
    ensures Incoming(op) < 0x4000_0000 ==> Size(Apply(es, self, op)) < 0x8000_0000
  {
    EvictKeepsLongestFittingPrefix(es);
    var base := Evict(es);
    DoSize(base, EditOf(base, self, op));
    GainIsIncoming(base, self, op);
  }

  // ----- Runs -----

  function Run(self: Server, ops: seq<Op>): Entries {
    if ops == [] then [] else Apply(Run(self, ops[..|ops| - 1]), self, ops[|ops| - 1])
  }

  lemma {:induction false} WithoutElements(es: Entries, i: nat)
    requires i < |es|
    ensures |Without(es, i)| == |es| - 1
    ensures forall j :: 0 <= j < |es| - 1 ==> Without(es, i)[j] == es[if j < i then j else j + 1]
  {
  }

  /** Where an entry came from: the old index of the entry now at j, -1 for the one now in front
  if it was pushed or moved there. */
  function Origin(ed: Edit, j: nat): int {
    match ed
    case Push(_) => j - 1
    case Front(i, _) => if j == 0 then -1 else if j - 1 < i then j - 1 else j
    case Cut(i) => if j < i then j else j + 1
    case _ => j
  }

  lemma {:induction false} DoOrigins(es: Entries, ed: Edit, j: nat)
    requires DistinctKeys(es) && ValidEdit(es, ed) && j < |Do(es, ed)|
    ensures Origin(ed, j) < |es|
    ensures Origin(ed, j) >= 0 ==>
              && Do(es, ed)[j].key == es[Origin(ed, j)].key
              && (ed.Change? || Do(es, ed)[j] == es[Origin(ed, j)])
              && ((ed.Front? || ed.Push?) ==> Do(es, ed)[j].key != ed.entry.key)
              && (ed.Cut? ==> Do(es, ed)[j].key != es[ed.index].key)
    ensures Origin(ed, j) < 0 ==> j == 0 && (ed.Front? || ed.Push?) && Do(es, ed)[j] == ed.entry
  {
    match ed
    case Keep =>
    case Push(e) =>
      if j > 0 { PushElement(es, e, j); }
    case Change(i, e) =>
    case Front(i, e) =>
      if j > 0 { FrontElement(es, i, e, j); }
    case Cut(i) =>
      CutElement(es, i, j);
  }

  lemma PushElement(es: Entries, e: Entry, j: nat)
    requires 0 < j <= |es| && forall i :: 0 <= i < |es| ==> es[i].key != e.key
    ensures |[e] + es| == |es| + 1 && ([e] + es)[j] == es[j - 1] && es[j - 1].key != e.key
  {
  }

  lemma CutElement(es: Entries, i: nat, j: nat)
    requires DistinctKeys(es) && i < |es| && j < |es| - 1
    ensures |Without(es, i)| == |es| - 1
    ensures var k := if j < i then j else j + 1;
            k != i && Without(es, i)[j] == es[k] && es[k].key != es[i].key
  {
    WithoutElements(es, i);
  }

  lemma FrontElement(es: Entries, i: nat, e: Entry, j: nat)
    requires DistinctKeys(es) && i < |es| && 0 < j < |es|
    ensures |[e] + Without(es, i)| == |es|
    ensures var k := if j - 1 < i then j - 1 else j;
            k != i && ([e] + Without(es, i))[j] == es[k] && es[k].key != es[i].key
  {
    WithoutElements(es, i);
  }

  /** Where an entry is after an edit that does not remove or rewrite it. */
  lemma NewIndex(es: Entries, ed: Edit, i: nat) returns (n: nat)
    requires ValidEdit(es, ed) && i < |es|
    requires ed.Cut? || ed.Change? ==> ed.index != i
    requires ed.Front? && ed.index == i ==> ed.entry == es[i]
    ensures n < |Do(es, ed)| && Do(es, ed)[n] == es[i]
  {
    match ed
    case Keep => n := i;
    case Push(_) => n := i + 1;
    case Change(_, _) => n := i;
    case Front(x, _) =>
      if i == x {
        n := 0;
      } else {
        n := WithoutIndex(es, x, i);
        n := n + 1;
      }
    case Cut(x) => n := WithoutIndex(es, x, i);
  }

  lemma WithoutIndex(es: Entries, x: nat, i: nat) returns (n: nat)
    requires x < |es| && i < |es| && i != x
    ensures n < |Without(es, x)| && Without(es, x)[n] == es[i]
  {
    n := if i < x then i else i - 1;
    WithoutElements(es, x);
  }

  lemma {:induction false} DoKeepsDistinct(es: Entries, ed: Edit)
    requires DistinctKeys(es) && ValidEdit(es, ed)
    ensures DistinctKeys(Do(es, ed))
  {
    var after := Do(es, ed);
    forall i, j | 0 <= i < j < |after| ensures after[i].key != after[j].key {
      DoOrigins(es, ed, i);
      DoOrigins(es, ed, j);
    }
  }

  lemma {:induction false} RunKeepsDistinct(self: Server, ops: seq<Op>)
    ensures DistinctKeys(Run(self, ops))
    ensures ops != [] ==> DistinctKeys(Base(Run(self, ops[..|ops| - 1]), ops[|ops| - 1]))
  {
    if ops != [] {
      var es, op := Run(self, ops[..|ops| - 1]), ops[|ops| - 1];
      RunKeepsDistinct(self, ops[..|ops| - 1]);
      EvictKeepsLongestFittingPrefix(es);
      DoKeepsDistinct(Base(es, op), EditOf(Base(es, op), self, op));
    }
  }

  lemma {:induction false} DoKeepsOthers(es: Entries, ed: Edit, k: Bytes)
    requires DistinctKeys(es) && ValidEdit(es, ed)
    requires ed.Push? || ed.Change? ==> ed.entry.key != k
    requires ed.Front? ==> ed.entry.key != k || ed.entry == es[ed.index]
    requires ed.Cut? ==> es[ed.index].key != k
    ensures Lookup(Do(es, ed), k) in {Lookup(es, k), None}
  {
    var after := Do(es, ed);
    var j := IndexOf(after, k);
    if j < |after| {
      DoOrigins(es, ed, j);
      var i := if Origin(ed, j) < 0 then ed.index else Origin(ed, j);
      assert after[j] == es[i];
      assert IndexOf(es, k) == i;
    }
  }

  lemma {:induction false} PrefixKeepsValue(es: Entries, n: nat, k: Bytes)
    requires n <= |es|
    ensures Lookup(es[..n], k) in {Lookup(es, k), None}
  {
    var i := IndexOf(es[..n], k);
    if i < n {
      assert IndexOf(es, k) == i;
    }
  }

  /** An operation on another key leaves a key's value alone or evicts it. */
  lemma {:induction false} OtherKeysKeepValue(es: Entries, self: Server, op: Op, k: Bytes)
    requires DistinctKeys(es) && (k != KeyOf(op) || op.Get?)
    ensures Lookup(Apply(es, self, op), k) in {Lookup(es, k), None}
  {
    var base := Base(es, op);
    EvictKeepsLongestFittingPrefix(es);
    assert base == es[..|base|];
    PrefixKeepsValue(es, |base|, k);
    DoKeepsOthers(base, EditOf(base, self, op), k);
  }

  lemma {:induction false} PutEffect(es: Entries, self: Server, k: Bytes, v: Bytes)
    ensures var kept, after := Evict(es), Apply(es, self, Put(k, v));
            var i := IndexOf(kept, k);
            && after == (if i < |kept| then [Entry(k, v, Bump(kept[i].version, self))] + Without(kept, i)
                         else [Entry(k, v, [VersionEntry(self, 1)])] + kept)
            && Lookup(after, k) == Some(v)
  {
    assert Apply(es, self, Put(k, v))[0].key == k;
  }

  lemma {:induction false} GetEffect(es: Entries, self: Server, k: Bytes)
    ensures var i := IndexOf(es, k);
            Apply(es, self, Get(k)) == if i < |es| then [es[i]] + Without(es, i) else es
  {
  }

  lemma {:induction false} RemoveEffect(es: Entries, self: Server, k: Bytes)
    ensures var i := IndexOf(es, k);
            Apply(es, self, Remove(k)) == if i < |es| then Without(es, i) else es
  {
  }

  lemma {:induction false} ArrivalEffect(es: Entries, self: Server, e: Entry)
    requires IndexOf(es, e.key) < |es|
    ensures var i, ed := IndexOf(es, e.key), EditOf(es, self, Propagate(e));
            var outcome := Resolve(es[i].version, es[i].value, e.version, e.value);
            && (ed.Cut? <==> outcome == Invalidate)
            && Do(es, ed) == match outcome
                             case Skip => es
                             case Replace => [e] + Without(es, i)
                             case Merge => es[i := Entry(e.key, es[i].value, [])]
                             case Invalidate => Without(es, i)
  {
  }

  /** The entry and the one held under its key are copies neither of which had seen the other, with
  different values. */
  predicate Conflicts(es: Entries, e: Entry) {
    var i := IndexOf(es, e.key);
    i < |es| && !AtMost(e.version, es[i].version) && !AtMost(es[i].version, e.version) && e.value != es[i].value
  }

  /** What an arrival leaves under its key: the value of the copy that had seen the other, the common value
  of copies in conflict, and nothing when their values differ. */
  lemma {:induction false} ArrivalLookup(es: Entries, self: Server, e: Entry)
    requires DistinctKeys(es)
    ensures var i := IndexOf(Evict(es), e.key);
            Lookup(Apply(es, self, Propagate(e)), e.key) ==
              if i == |Evict(es)| then Some(e.value)
              else
                var mine := Evict(es)[i];
                if AtMost(e.version, mine.version) then Some(mine.value)
                else if AtMost(mine.version, e.version) || e.value == mine.value then Some(e.value)
                else None
  {
    var base := Evict(es);
    var i, ed := IndexOf(base, e.key), EditOf(base, self, Propagate(e));
    EvictKeepsLongestFittingPrefix(es);
    var after := Do(base, ed);
    var j := IndexOf(after, e.key);
    if i < |base| && ed.Change? { assert after[i].key == e.key; }
    if j < |after| { DoOrigins(base, ed, j); }
  }

  /** Reads see the last write: if the n-th operation puts k, and the later ones only read k or
  name other keys, a lookup of k yields that value or nothing. */
  lemma {:induction false} ReadsLastPut(self: Server, ops: seq<Op>, n: nat, k: Bytes, v: Bytes)
    requires n < |ops| && ops[n] == Put(k, v)
    requires forall i :: n < i < |ops| ==> ops[i].Get? || KeyOf(ops[i]) != k
    ensures Lookup(Run(self, ops), k) in {Some(v), None}
  {
    var last := |ops| - 1;
    var earlier := ops[..last];
    if n == last {
      PutEffect(Run(self, earlier), self, k, v);
    } else {
      assert earlier[n] == ops[n] && forall i :: 0 <= i < last ==> earlier[i] == ops[i];
      ReadsLastPut(self, earlier, n, k, v);
      RunKeepsDistinct(self, earlier);
      OtherKeysKeepValue(Run(self, earlier), self, ops[last], k);
    }
  }

  // ----- Nothing is evicted before the limit is passed -----

  /** The bytes that puts and arrivals bring in. */
  function TotalIncoming(ops: seq<Op>): nat {
    if ops == [] then 0 else TotalIncoming(ops[..|ops| - 1]) + Incoming(ops[|ops| - 1])
  }

  lemma {:induction false} RunSize(self: Server, ops: seq<Op>)
    ensures Size(Run(self, ops)) <= TotalIncoming(ops)
  {
    if ops != [] {
      var es, op := Run(self, ops[..|ops| - 1]), ops[|ops| - 1];
      RunSize(self, ops[..|ops| - 1]);
      BaseSize(es, op);
      DoSize(Base(es, op), EditOf(Base(es, op), self, op));
      GainIsIncoming(Base(es, op), self, op);
    }
  }

  lemma {:induction false} BaseSize(es: Entries, op: Op)
    ensures Size(Base(es, op)) <= Size(es)
    decreases |es|
  {
    if (op.Put? || op.Propagate?) && Size(es) > MEMORY_LIMIT {
      BaseSize(es[..|es| - 1], op);
    }
  }

  /** Within a total of 2^30 bytes no operation evicts. */
  lemma NothingIsEvicted(self: Server, ops: seq<Op>, op: Op)
    requires TotalIncoming(ops) <= 0x4000_0000
    ensures Base(Run(self, ops), op) == Run(self, ops)
  {
    RunSize(self, ops);
  }

  lemma {:induction false} OtherKeyStays(es: Entries, self: Server, op: Op, k: Bytes)
    requires DistinctKeys(es) && Base(es, op) == es && (k != KeyOf(op) || op.Get?)
    ensures Lookup(Apply(es, self, op), k) == Lookup(es, k)
  {
    var ed, after := EditOf(es, self, op), Apply(es, self, op);
    var i := IndexOf(es, k);
    OtherKeysKeepValue(es, self, op, k);
    if i < |es| { var n := NewIndex(es, ed, i); }
  }

  /** While all puts and arrivals of a run together stay within 2^30 bytes, a key reads as the last value
  put, and is not lost. */
  lemma {:induction false} ReadsLastPutExactly(self: Server, ops: seq<Op>, n: nat, k: Bytes, v: Bytes)
    requires n < |ops| && ops[n] == Put(k, v) && TotalIncoming(ops) <= 0x4000_0000
    requires forall i :: n < i < |ops| ==> ops[i].Get? || KeyOf(ops[i]) != k
    ensures Lookup(Run(self, ops), k) == Some(v)
  {
    var last := |ops| - 1;
    var earlier := ops[..last];
    if n == last {
      PutEffect(Run(self, earlier), self, k, v);
    } else {
      assert earlier[n] == ops[n] && forall i :: 0 <= i < last ==> earlier[i] == ops[i];
      ReadsLastPutExactly(self, earlier, n, k, v);
      RunKeepsDistinct(self, earlier);
      NothingIsEvicted(self, earlier, ops[last]);
      OtherKeyStays(Run(self, earlier), self, ops[last], k);
    }
  }

  // ----- The list really is in order of last use -----

  /** A key is used by a put, by a get that finds it, and by an arrival that is stored. */
  ghost predicate Uses(es: Entries, op: Op, k: Bytes) {
    && KeyOf(op) == k
    && var base := Base(es, op);
       var i := IndexOf(base, k);
       match op
       case Put(_, _) => true
       case Get(_) => i < |base|
       case Remove(_) => false
       case Propagate(e) => i < |base| ==> Resolve(base[i].version, base[i].value, e.version, e.value) == Replace
  }

  /** The number of the last operation of the run that used k, counting from 1; 0 if none. */
  ghost function LastUse(self: Server, ops: seq<Op>, k: Bytes): (n: nat)
    ensures n <= |ops|
  {
    if ops == [] then 0
    else if Uses(Run(self, ops[..|ops| - 1]), ops[|ops| - 1], k) then |ops|
    else LastUse(self, ops[..|ops| - 1], k)
  }

  /** An operation uses exactly the key it puts or moves to the front. */
  lemma {:induction false} UsesIsFront(es: Entries, self: Server, op: Op, k: Bytes)
    ensures var ed := EditOf(Base(es, op), self, op);
            Uses(es, op, k) <==> (ed.Push? || ed.Front?) && ed.entry.key == k
  {
  }

  /** In every run the list is in strictly decreasing order of last use, so eviction always
  removes the key unused for longest. */
  lemma {:induction false} OrderedByLastUse(self: Server, ops: seq<Op>, i: nat, j: nat)
    requires i < j < |Run(self, ops)|
    ensures LastUse(self, ops, Run(self, ops)[i].key) > LastUse(self, ops, Run(self, ops)[j].key)
  {
    var earlier, op := ops[..|ops| - 1], ops[|ops| - 1];
    var es := Run(self, earlier);
    var base := Base(es, op);
    var ed := EditOf(base, self, op);
    RunKeepsDistinct(self, ops);
    EvictKeepsLongestFittingPrefix(es);
    DoOrigins(base, ed, i);
    DoOrigins(base, ed, j);
    var a, b := Origin(ed, i), Origin(ed, j);
    var ka, kb := Do(base, ed)[i].key, Do(base, ed)[j].key;
    UsesIsFront(es, self, op, ka);
    UsesIsFront(es, self, op, kb);
    if a >= 0 {
      OrderedByLastUse(self, earlier, a, b);
    }
  }
}
