/** One cache node (prototype/server.cpp). `Contents()` is the recency list of entries that
`CacheSpec` talks about, and every method is tied to the operation there. The hash function is
arbitrary. */
module CacheNode {
  import opened Sequences
  import opened VersionVectors
  import opened CacheSpec
  import opened CacheTable

  class Node {
    const hash: Bytes -> nat
    const server: Server
    var hashTable: Table
    var listHead: int
    var listTail: int
    var totalKeyValueSize: int
    var numEntries: int
    var numDeadEntries: int
    ghost var order: seq<int>

    ghost predicate Shaped()
      reads this
    {
      Shape(hash, hashTable, listHead, listTail, order)
    }

    ghost function Contents(): Entries
      requires Shaped()
      reads this
    {
      EntriesOf(hashTable, order)
    }

    /** The counters count. */
    ghost predicate Counted()
      requires Shaped()
      reads this
    {
      && numEntries == |order|
      && numDeadEntries == |DeadSlots(hashTable)|
      && totalKeyValueSize == Size(Contents())
    }

    /** Live entries fill at most a quarter of the table, and live and dead slots together at
    most half, with one to spare for the entry added last. */
    ghost predicate Valid()
      reads this
    {
      && |hashTable| >= 10
      && Shaped() && Counted()
      && 4 * numEntries <= |hashTable| + 4
      && 2 * (numEntries + numDeadEntries) <= |hashTable| + 2
    }

    /** Room for one more entry, which is what `normalizeTable` makes. */
    ghost predicate Roomy()
      reads this
    {
      4 * numEntries <= |hashTable| && 2 * (numEntries + numDeadEntries) <= |hashTable|
    }

    constructor (server: Server, hash: Bytes -> nat)
      ensures Valid() && Contents() == [] && this.server == server && this.hash == hash
    {
      this.server, this.hash := server, hash;
      hashTable := seq(10, _ => EMPTY_RECORD);
      listHead, listTail := -1, -1;
      totalKeyValueSize, numEntries, numDeadEntries := 0, 0, 0;
      order := [];
      new;
      assert DeadSlots(hashTable) == {};
    }

    /** Linear probing always ends, at the live slot of the key or at an empty slot that no
    probe for the key can pass. */
    method GetPosition(key: Bytes) returns (pos: int)
      requires Valid()
      ensures Found(hash, hashTable, key, pos)
      ensures var i := IndexOf(Contents(), key);
              if hashTable[pos].state == Alive then i < |order| && order[i] == pos else i == |order| && pos !in order
    {
      var n := |hashTable|;
      EmptySlotExists(hashTable, order);
      ghost var free :| 0 <= free < n && hashTable[free].state == Empty;
      ghost var home := Home(hash, key, n);
      pos := hash(key) % n;
      while true
        invariant 0 <= pos < n
        invariant Reaches(hashTable, home, pos)
        invariant forall q :: 0 <= q < n && OnPath(home, pos, q) ==>
                                !(hashTable[q].state == Alive && hashTable[q].key == key)
        decreases if pos <= free then free - pos else n - pos + free
      {
        if hashTable[pos].state == Empty {
          forall p | 0 <= p < n && hashTable[p].state == Alive ensures hashTable[p].key != key {
            assert Reaches(hashTable, Home(hash, hashTable[p].key, n), p);
          }
          break;
        }
        if hashTable[pos].state == Alive && hashTable[pos].key == key {
          break;
        }
        ghost var last := pos;
        pos := pos + 1;
        if pos >= n {
          pos := 0;
        }
        PathStep(home, last, pos, n);
      }
      FoundIsIndex(hash, hashTable, listHead, listTail, order, key, pos);
    }

    // ----- The list -----

    method RemoveFromList(pos: int, ghost j: nat)
      requires Linked(hashTable, listHead, listTail, order) && j < |order| && order[j] == pos
      modifies `hashTable, `listHead, `listTail, `order
      ensures order == Without(old(order), j) && Linked(hashTable, listHead, listTail, order)
      ensures SameData(old(hashTable), hashTable)
      ensures 0 <= pos < |hashTable| && hashTable[pos] == old(hashTable)[pos]
    {
      UnlinkLinks(hashTable, listHead, listTail, order, j);
      assert NodeOk(hashTable, order, j);
      LinkedInRange(hashTable, listHead, listTail, order);
      var r := hashTable[pos];
      if r.prev != -1 {
        hashTable := hashTable[r.prev := hashTable[r.prev].(next := r.next)];
      } else {
        listHead := r.next;
      }
      if hashTable[pos].next != -1 {
        hashTable := hashTable[r.next := hashTable[r.next].(prev := r.prev)];
      } else {
        listTail := r.prev;
      }
      order := Without(order, j);
    }

    method AddToFront(pos: int)
      requires Linked(hashTable, listHead, listTail, order)
      requires 0 <= pos < |hashTable| && hashTable[pos].state == Alive && pos !in order
      modifies `hashTable, `listHead, `listTail, `order
      ensures order == [pos] + old(order) && Linked(hashTable, listHead, listTail, order)
      ensures SameData(old(hashTable), hashTable)
    {
      FrontLinks(hashTable, listHead, listTail, order, pos);
      hashTable := hashTable[pos := hashTable[pos].(prev := -1, next := listHead)];
      if listHead != -1 {
        hashTable := hashTable[listHead := hashTable[listHead].(prev := pos)];
      }
      listHead := pos;
      if listTail == -1 {
        listTail := pos;
      }
      order := [pos] + order;
    }

    /** The slot moves to the front of the list; the data stay. */
    method MoveToFront(pos: int, ghost j: nat)
      requires Shaped() && j < |order| && order[j] == pos
      modifies `hashTable, `listHead, `listTail, `order
      ensures order == [pos] + Without(old(order), j) && Linked(hashTable, listHead, listTail, order)
      ensures SameData(old(hashTable), hashTable)
    {
      ghost var t := hashTable;
      LinkedInRange(hashTable, listHead, listTail, order);
      RemoveFromList(pos, j);
      AddToFront(pos);
      assert SameData(t, hashTable);
    }

    method AccessEntry(pos: int, ghost j: nat)
      requires Valid() && j < |order| && order[j] == pos
      modifies `hashTable, `listHead, `listTail, `order
      ensures Valid() && Contents() == [old(Contents())[j]] + Without(old(Contents()), j)
    {
      ghost var o, t := order, hashTable;
      LinkedInRange(t, listHead, listTail, o);
      MoveToFront(pos, j);
      AccessShape(hash, t, o, j, hashTable, listHead, listTail);
    }

    // ----- Entries -----

    /** Writes an entry into an empty slot and puts the slot on the list. */
    method FillSlot(pos: int, e: Entry)
      requires Shaped() && Found(hash, hashTable, e.key, pos) && hashTable[pos].state == Empty && pos !in order
      modifies `hashTable, `listHead, `listTail, `order
      ensures Shaped() && order == [pos] + old(order) && |hashTable| == |old(hashTable)|
      ensures Contents() == [e] + old(Contents()) && Size(Contents()) == Size(old(Contents())) + Weight(e)
      ensures DeadSlots(hashTable) == DeadSlots(old(hashTable))
    {
      ghost var o, t, head, tail := order, hashTable, listHead, listTail;
      hashTable := hashTable[pos := Record(Alive, e.key, e.value, e.version, hashTable[pos].prev, hashTable[pos].next)];
      FillKeepsLinks(t, hashTable, listHead, listTail, o, pos);
      AddToFront(pos);
      AddShape(hash, t, head, tail, o, pos, e, hashTable, listHead, listTail);
    }

    method AddEntry(pos: int, key: Bytes, value: Bytes)
      requires Valid() && Roomy() && Found(hash, hashTable, key, pos) && hashTable[pos].state == Empty && pos !in order
      modifies this
      ensures Valid() && order != [] && order[0] == pos
      ensures Contents() == [Entry(key, value, [VersionEntry(server, 1)])] + old(Contents())
    {
      totalKeyValueSize := totalKeyValueSize + |key| + |value|;
      FillSlot(pos, Entry(key, value, [VersionEntry(server, 1)]));
      numEntries := numEntries + 1;
    }

    /** An entry from another replica keeps the version it arrived with. */
    method AddReplicated(pos: int, e: Entry)
      requires Valid() && Roomy() && Found(hash, hashTable, e.key, pos)
      requires hashTable[pos].state == Empty && pos !in order
      modifies this
      ensures Valid() && Contents() == [e] + old(Contents())
    {
      AddEntry(pos, e.key, e.value);
      SetData(pos, 0, e.value, e.version);
    }

    /** Replaces value and version of a live slot, keeping the byte count. */
    method SetData(pos: int, ghost j: nat, value: Bytes, version: Version)
      requires Valid() && j < |order| && order[j] == pos
      modifies `hashTable, `totalKeyValueSize
      ensures Valid() && |hashTable| == |old(hashTable)|
      ensures Contents() == old(Contents())[j := Entry(old(Contents())[j].key, value, version)]
    {
      ghost var es := Contents();
      ChangeShape(hash, hashTable, listHead, listTail, order, j, value, version);
      DoSize(es, Change(j, Entry(es[j].key, value, version)));
      totalKeyValueSize := totalKeyValueSize - |hashTable[pos].value| + |value|;
      hashTable := hashTable[pos := hashTable[pos].(value := value, version := version)];
    }

    /** A write to a live entry: new value and version, and most recently used. */
    method Overwrite(pos: int, ghost j: nat, value: Bytes, version: Version)
      requires Valid() && j < |order| && order[j] == pos
      modifies this
      ensures Valid()
      ensures Contents() == [Entry(old(Contents())[j].key, value, version)] + Without(old(Contents()), j)
    {
      ghost var es := Contents();
      SetData(pos, j, value, version);
      AccessEntry(pos, j);
      assert Without(es[j := Entry(es[j].key, value, version)], j) == Without(es, j);
    }

    /** Takes a slot off the list and leaves a tombstone. */
    method Bury(pos: int, ghost j: nat)
      requires Shaped() && j < |order| && order[j] == pos
      modifies `hashTable, `listHead, `listTail, `order
      ensures Shaped() && order == Without(old(order), j) && |hashTable| == |old(hashTable)|
      ensures Contents() == Without(old(Contents()), j)
      ensures pos !in DeadSlots(old(hashTable)) && DeadSlots(hashTable) == DeadSlots(old(hashTable)) + {pos}
    {
      ghost var o, t := order, hashTable;
      LinkedInRange(t, listHead, listTail, o);
      RemoveFromList(pos, j);
      BuryShape(hash, t, o, j, hashTable, listHead, listTail);
      hashTable := hashTable[pos := EMPTY_RECORD.(state := Dead)];
    }

    method RemoveEntry(pos: int, ghost j: nat)
      requires Valid() && j < |order| && order[j] == pos
      modifies this
      ensures Valid() && Contents() == Without(old(Contents()), j) && |hashTable| == |old(hashTable)|
    {
      SizeWithout(Contents(), j);
      totalKeyValueSize := totalKeyValueSize - (|hashTable[pos].key| + |hashTable[pos].value|);
      Bury(pos, j);
      numEntries := numEntries - 1;
      numDeadEntries := numDeadEntries + 1;
    }

    /** The source asserts that the list is not empty; here the caller proves it. */
    method EvictEntry()
      requires Valid() && Contents() != []
      modifies this
      ensures Valid() && Contents() == old(Contents())[..|old(Contents())| - 1] && |hashTable| == |old(hashTable)|
    {
      assert listTail != -1 by { assert NodeOk(hashTable, order, |order| - 1); }
      RemoveEntry(listTail, |order| - 1);
    }

    /** Moves every entry to a table without tombstones, keeping entries and recency order. */
    method Rehash(newSize: nat)
      requires Shaped() && Counted() && |order| < newSize && newSize >= 10
      modifies `hashTable, `listHead, `listTail, `numDeadEntries, `order
      ensures Shaped() && Counted() && Contents() == old(Contents())
      ensures |hashTable| == newSize && numDeadEntries == 0
    {
      var t, head, tail, o := Rebuild(hash, hashTable, listHead, listTail, order, newSize);
      hashTable, listHead, listTail, order := t, head, tail, o;
      numDeadEntries := 0;
    }

    /** Evicts down to the memory limit, then makes room: afterwards one more entry fits. */
    method NormalizeTable()
      requires Valid()
      modifies this
      ensures Valid() && Roomy() && Contents() == Evict(old(Contents()))
      ensures |hashTable| == if 4 * |Contents()| > |old(hashTable)| then 2 * |old(hashTable)| else |old(hashTable)|
    {
      while totalKeyValueSize > MEMORY_LIMIT
        invariant Valid() && Evict(Contents()) == Evict(old(Contents())) && |hashTable| == |old(hashTable)|
        decreases |Contents()|
      {
        EvictEntry();
      }
      if 4 * numEntries > |hashTable| {
        Rehash(2 * |hashTable|);
      }
      if 2 * (numEntries + numDeadEntries) > |hashTable| {
        Rehash(|hashTable|);
      }
    }

    // ----- The node's operations -----

    method Put(key: Bytes, value: Bytes)
      requires Valid()
      modifies this
      ensures Valid() && Contents() == Apply(old(Contents()), server, CacheSpec.Put(key, value))
    {
      PutEffect(Contents(), server, key, value);
      NormalizeTable();
      var pos := GetPosition(key);
      if hashTable[pos].state == Alive {
        var version := ComputeBump(hashTable[pos].version, server);
        Overwrite(pos, IndexOf(Contents(), key), value, version);
      } else {
        AddEntry(pos, key, value);
      }
    }

    method Get(key: Bytes) returns (r: Option<Bytes>)
      requires Valid()
      modifies this
      ensures Valid() && Contents() == Apply(old(Contents()), server, CacheSpec.Get(key))
      ensures r == Lookup(old(Contents()), key)
    {
      ghost var es := Contents();
      ghost var j := IndexOf(es, key);
      var pos := GetPosition(key);
      if hashTable[pos].state == Alive {
        assert es[j] == EntryOf(hashTable[pos]);
        r := Some(hashTable[pos].value);
        AccessEntry(pos, j);
      } else {
        r := None;
      }
      GetEffect(es, server, key);
    }

    /** An arrival of anti-entropy; the keys it invalidates go back to the sender. */
    method Propagate(e: Entry) returns (invalidated: seq<Bytes>)
      requires Valid()
      modifies this
      ensures Valid() && Contents() == Apply(old(Contents()), server, CacheSpec.Propagate(e))
      ensures invalidated == if Conflicts(Evict(old(Contents())), e) then [e.key] else []
    {
      NormalizeTable();
      var pos := GetPosition(e.key);
      if hashTable[pos].state == Alive {
        invalidated := Reconcile(pos, e);
      } else {
        invalidated := [];
        AddReplicated(pos, e);
      }
    }

    method Reconcile(pos: int, e: Entry) returns (invalidated: seq<Bytes>)
      requires Valid()
      requires var i := IndexOf(Contents(), e.key); i < |order| && order[i] == pos
      modifies this
      ensures Valid() && Contents() == Do(old(Contents()), EditOf(old(Contents()), server, CacheSpec.Propagate(e)))
      ensures invalidated == if Conflicts(old(Contents()), e) then [e.key] else []
    {
      ghost var j := IndexOf(Contents(), e.key);
      var r := hashTable[pos];
      assert EntryOf(r) == Contents()[j];
      ArrivalEffect(Contents(), server, e);
      invalidated := [];
      var outcome := ComputeResolve(r.version, r.value, e.version, e.value);
      match outcome {
        case Skip =>
        case Replace =>
          Overwrite(pos, j, e.value, e.version);
        case Merge =>
          var merged := MaximumVersion(e.version, r.version);
          SetData(pos, j, r.value, merged);
        case Invalidate =>
          invalidated := [r.key];
          RemoveEntry(pos, j);
      }
    }

    /** A key another replica reports as invalidated. */
    method Invalidate(key: Bytes)
      requires Valid()
      modifies this
      ensures Valid() && Contents() == Apply(old(Contents()), server, CacheSpec.Remove(key))
    {
      RemoveEffect(Contents(), server, key);
      var pos := GetPosition(key);
      if hashTable[pos].state == Alive {
        RemoveEntry(pos, IndexOf(Contents(), key));
      }
    }

    method Execute(op: Op)
      requires Valid()
      modifies this
      ensures Valid() && Contents() == Apply(old(Contents()), server, op)
    {
      match op
      case Put(k, v) => Put(k, v);
      case Get(k) => var _ := Get(k);
      case Propagate(e) => var _ := Propagate(e);
      case Remove(k) => Invalidate(k);
    }

    /** Any sequence of operations on a fresh node ends with the list `CacheSpec.Run` computes. */
    method RunAll(ops: seq<Op>)
      requires Valid() && Contents() == []
      modifies this
      ensures Valid() && Contents() == Run(server, ops)
    {
      for i := 0 to |ops|
        invariant Valid() && Contents() == Run(server, ops[..i])
      {
        Execute(ops[i]);
        assert ops[..i + 1][..i] == ops[..i];
      }
      assert ops[..|ops|] == ops;
    }
  }

  /** The probe loop of `rehash`: the first empty slot for a key. */
  method FreeSlot(hash: Bytes -> nat, t: Table, key: Bytes) returns (pos: int)
    requires HasEmpty(t)
    ensures 0 <= pos < |t| && t[pos].state == Empty && Reaches(t, Home(hash, key, |t|), pos)
  {
    var n := |t|;
    ghost var free :| 0 <= free < n && t[free].state == Empty;
    ghost var home := Home(hash, key, n);
    pos := hash(key) % n;
    while t[pos].state != Empty
      invariant 0 <= pos < n && Reaches(t, home, pos)
      decreases if pos <= free then free - pos else n - pos + free
    {
      ghost var last := pos;
      pos := pos + 1;
      if pos >= n {
        pos := 0;
      }
      PathStep(home, last, pos, n);
    }
  }

  /** The loop of `rehash`: walks the list from its head and appends each entry to a new table. */
  method Rebuild(hash: Bytes -> nat, table: Table, head: int, tail: int, ghost o: seq<int>, newSize: nat)
    returns (newTable: Table, newHead: int, newTail: int, ghost newOrder: seq<int>)
    requires Shape(hash, table, head, tail, o) && |o| < newSize
    ensures |newTable| == newSize && Shape(hash, newTable, newHead, newTail, newOrder)
    ensures EntriesOf(newTable, newOrder) == EntriesOf(table, o) && DeadSlots(newTable) == {}
  {
    newTable := seq(newSize, _ => EMPTY_RECORD);
    newHead, newTail, newOrder := -1, -1, [];
    ghost var k, es := 0, EntriesOf(table, o);
    var i := head;
    assert DeadSlots(newTable) == {};
    while i != -1
      invariant 0 <= k <= |o| && i == At(o, k) && (i == -1 ==> k == |o|)
      invariant |newTable| == newSize && Shape(hash, newTable, newHead, newTail, newOrder)
      invariant |newOrder| == k && EntriesOf(newTable, newOrder) == es[..k] && DeadSlots(newTable) == {}
      decreases |o| - k
    {
      assert NodeOk(table, o, k);
      newTable, newHead, newTail, newOrder := Append(hash, newTable, newHead, newTail, newOrder, EntryOf(table[i]), es);
      i := table[i].next;
      if k + 1 < |o| {
        assert NodeOk(table, o, k + 1);
      }
      k := k + 1;
    }
    assert es[..k] == es;
  }

  /** The body of that loop. */
  method Append(hash: Bytes -> nat, t: Table, head: int, tail: int, ghost o: seq<int>, e: Entry, ghost es: Entries)
    returns (t': Table, head': int, tail': int, ghost o': seq<int>)
    requires Shape(hash, t, head, tail, o) && |o| < |es| && |o| < |t| && es[|o|] == e && DistinctKeys(es)
    requires EntriesOf(t, o) == es[..|o|] && DeadSlots(t) == {}
    ensures |t'| == |t| && Shape(hash, t', head', tail', o') && |o'| == |o| + 1
    ensures EntriesOf(t', o') == es[..|o'|] && DeadSlots(t') == {}
  {
    EmptySlotExists(t, o);
    var pos := FreeSlot(hash, t, e.key);
    BackShape(hash, t, head, tail, o, pos, e);
    t' := LinkBack(t, tail, pos, e);
    head' := if head == -1 then pos else head;
    tail' := pos;
    o' := o + [pos];
  }

  /** Advancing a probe by one slot adds that slot to the path. */
  lemma PathStep(home: int, last: int, pos: int, n: nat)
    requires 0 <= home < n && 0 <= last < n && pos == (if last + 1 == n then 0 else last + 1)
    requires pos != home
    ensures forall q :: 0 <= q < n ==> (OnPath(home, pos, q) <==> OnPath(home, last, q) || q == last)
  {
  }
}
