/** The table of one cache node (prototype/server.cpp): open addressing with tombstones, and a
doubly linked recency list threaded through the slots by index.

A list order `o` names the live slots from head to tail. The lemmas here say what each step of
the node's methods does to the list, the probe paths and the entries. */
module CacheTable {
  import opened Sequences
  import opened VersionVectors
  import opened CacheSpec

  datatype SlotState = Empty | Alive | Dead
  datatype Record = Record(state: SlotState, key: Bytes, value: Bytes, version: Version, prev: int, next: int)
  type Table = seq<Record>

  const EMPTY_RECORD := Record(Empty, [], [], [], -1, -1)

  // ----- The recency list -----

  ghost predicate NodeOk(t: Table, o: seq<int>, i: nat)
    requires i < |o|
  {
    && 0 <= o[i] < |t|
    && t[o[i]].state == Alive
    && t[o[i]].prev == At(o, i - 1)
    && t[o[i]].next == At(o, i + 1)
  }

  ghost predicate Linked(t: Table, head: int, tail: int, o: seq<int>) {
    && Distinct(o)
    && (forall i {:trigger NodeOk(t, o, i)} :: 0 <= i < |o| ==> NodeOk(t, o, i))
    && head == At(o, 0)
    && tail == At(o, |o| - 1)
  }

  function EntryOf(r: Record): Entry {
    Entry(r.key, r.value, r.version)
  }

  ghost function EntriesOf(t: Table, o: seq<int>): Entries
    requires forall i :: 0 <= i < |o| ==> 0 <= o[i] < |t|
  {
    seq(|o|, i requires 0 <= i < |o| => EntryOf(t[o[i]]))
  }

  /** Two tables that differ only in their list links. */
  ghost predicate SameData(t: Table, u: Table) {
    |t| == |u| && forall p :: 0 <= p < |t| ==> u[p] == t[p].(prev := u[p].prev, next := u[p].next)
  }

  lemma LinkedInRange(t: Table, head: int, tail: int, o: seq<int>)
    requires Linked(t, head, tail, o)
    ensures forall i :: 0 <= i < |o| ==> 0 <= o[i] < |t| && t[o[i]].state == Alive
  {
    forall i | 0 <= i < |o| ensures 0 <= o[i] < |t| && t[o[i]].state == Alive {
      assert NodeOk(t, o, i);
    }
  }

  function UnlinkPrev(t: Table, pos: int): Table
    requires 0 <= pos < |t| && -1 <= t[pos].prev < |t|
  {
    var p := t[pos].prev;
    if p != -1 then t[p := t[p].(next := t[pos].next)] else t
  }

  function UnlinkNext(t: Table, pos: int): Table
    requires 0 <= pos < |t| && -1 <= t[pos].next < |t|
  {
    var n := t[pos].next;
    if n != -1 then t[n := t[n].(prev := t[pos].prev)] else t
  }

  lemma UnlinkNode(t: Table, head: int, tail: int, o: seq<int>, j: nat, i: nat)
    requires Linked(t, head, tail, o) && j < |o| && i < |o| - 1
    requires 0 <= o[j] < |t| && -1 <= t[o[j]].prev < |t| && -1 <= t[o[j]].next < |t|
    requires -1 <= UnlinkPrev(t, o[j])[o[j]].next < |t|
    ensures NodeOk(UnlinkNext(UnlinkPrev(t, o[j]), o[j]), Without(o, j), i)
  {
    var k := if i < j then i else i + 1;
    assert Without(o, j)[i] == o[k];
    assert NodeOk(t, o, k) && NodeOk(t, o, j);
    if i > 0 {
      assert Without(o, j)[i - 1] == o[if i - 1 < j then i - 1 else i];
    }
    if i + 1 < |o| - 1 {
      assert Without(o, j)[i + 1] == o[if i + 1 < j then i + 1 else i + 2];
    }
  }

  lemma UnlinkLinks(t: Table, head: int, tail: int, o: seq<int>, j: nat)
    requires Linked(t, head, tail, o) && j < |o|
    ensures 0 <= o[j] < |t| && -1 <= t[o[j]].prev < |t| && -1 <= t[o[j]].next < |t|
    ensures -1 <= UnlinkPrev(t, o[j])[o[j]].next < |t|
    ensures var u := UnlinkNext(UnlinkPrev(t, o[j]), o[j]);
            && SameData(t, u)
            && u[o[j]] == t[o[j]]
            && Linked(u, if j == 0 then t[o[j]].next else head,
                      if j == |o| - 1 then t[o[j]].prev else tail, Without(o, j))
  {
    LinkedInRange(t, head, tail, o);
    assert NodeOk(t, o, j);
    var u, w := UnlinkNext(UnlinkPrev(t, o[j]), o[j]), Without(o, j);
    forall i | 0 <= i < |w| ensures NodeOk(u, w, i) {
      UnlinkNode(t, head, tail, o, j, i);
    }
    assert forall i :: 0 <= i < |w| ==> w[i] == o[if i < j then i else i + 1];
    assert Distinct(w);
  }

  function LinkFront(t: Table, head: int, pos: int): Table
    requires 0 <= pos < |t| && -1 <= head < |t|
  {
    var u := t[pos := t[pos].(prev := -1, next := head)];
    if head != -1 then u[head := u[head].(prev := pos)] else u
  }

  lemma FrontLinks(t: Table, head: int, tail: int, o: seq<int>, pos: int)
    requires Linked(t, head, tail, o)
    requires 0 <= pos < |t| && t[pos].state == Alive && pos !in o
    ensures -1 <= head < |t|
    ensures SameData(t, LinkFront(t, head, pos))
    ensures Linked(LinkFront(t, head, pos), pos, if tail == -1 then pos else tail, [pos] + o)
  {
    LinkedInRange(t, head, tail, o);
    var u, w := LinkFront(t, head, pos), [pos] + o;
    forall i | 0 <= i < |w| ensures NodeOk(u, w, i) {
      if i > 0 {
        assert NodeOk(t, o, i - 1);
      }
    }
    assert Distinct(w);
  }

  /** What `rehash` does with each entry: store it at a free slot, at the end of the list. */
  function LinkBack(t: Table, tail: int, pos: int, e: Entry): Table
    requires 0 <= pos < |t| && -1 <= tail < |t|
  {
    var u := t[pos := Record(Alive, e.key, e.value, e.version, tail, -1)];
    if tail != -1 then u[tail := u[tail].(next := pos)] else u
  }

  lemma BackLinks(t: Table, head: int, tail: int, o: seq<int>, pos: int, e: Entry)
    requires Linked(t, head, tail, o)
    requires 0 <= pos < |t| && t[pos].state == Empty
    ensures -1 <= tail < |t| && pos !in o
    ensures SameData(t[pos := Record(Alive, e.key, e.value, e.version, -1, -1)], LinkBack(t, tail, pos, e))
    ensures Linked(LinkBack(t, tail, pos, e), if head == -1 then pos else head, pos, o + [pos])
  {
    LinkedInRange(t, head, tail, o);
    var u, w := LinkBack(t, tail, pos, e), o + [pos];
    forall i | 0 <= i < |w| ensures NodeOk(u, w, i) {
      if i < |o| {
        assert NodeOk(t, o, i);
      }
    }
    assert Distinct(w);
  }

  // ----- Probing -----

  /** Slot q lies on the probe path from slot `home` up to, not including, slot p. */
  predicate OnPath(home: int, p: int, q: int) {
    if home <= p then home <= q < p else home <= q || q < p
  }

  /** A probe starting at `home` gets as far as p without meeting an empty slot. */
  ghost predicate Reaches(t: Table, home: int, p: int) {
    forall q :: 0 <= q < |t| && OnPath(home, p, q) ==> t[q].state != Empty
  }

  function Home(hash: Bytes -> nat, k: Bytes, size: nat): nat
    requires size > 0
  {
    hash(k) % size
  }

  ghost predicate Probes(hash: Bytes -> nat, t: Table) {
    |t| > 0 && forall p :: 0 <= p < |t| && t[p].state == Alive ==> Reaches(t, Home(hash, t[p].key, |t|), p)
  }

  ghost predicate Listed(t: Table, o: seq<int>) {
    forall p :: 0 <= p < |t| && t[p].state == Alive ==> p in o
  }

  ghost function DeadSlots(t: Table): set<int> {
    set p | 0 <= p < |t| && t[p].state == Dead
  }

  /** List, keys and probe paths fit together. */
  ghost predicate Shape(hash: Bytes -> nat, t: Table, head: int, tail: int, o: seq<int>) {
    && Linked(t, head, tail, o)
    && (forall i :: 0 <= i < |o| ==> 0 <= o[i] < |t|)
    && Listed(t, o)
    && DistinctKeys(EntriesOf(t, o))
    && Probes(hash, t)
  }

  ghost predicate HasEmpty(t: Table) {
    exists p :: 0 <= p < |t| && t[p].state == Empty
  }

  function Below(n: nat): (s: set<int>)
    ensures |s| == n && forall p :: p in s <==> 0 <= p < n
  {
    if n == 0 then {} else Below(n - 1) + {n - 1}
  }

  lemma {:induction false} DistinctCount(o: seq<int>)
    requires Distinct(o)
    ensures |set p | p in o| == |o|
  {
    if o != [] {
      var rest := o[1..];
      DistinctCount(rest);
      assert (set p | p in o) == (set p | p in rest) + {o[0]};
    }
  }

  /** Fewer live and dead slots than slots: some slot is empty, so probing terminates. */
  lemma EmptySlotExists(t: Table, o: seq<int>)
    requires Distinct(o) && Listed(t, o) && |o| + |DeadSlots(t)| < |t|
    ensures HasEmpty(t)
  {
    if !HasEmpty(t) {
      var live := set p | p in o;
      DistinctCount(o);
      assert Below(|t|) <= live + DeadSlots(t);
      SubsetCount(Below(|t|), live + DeadSlots(t));
    }
  }

  lemma {:induction false} SubsetCount(a: set<int>, b: set<int>)
    requires a <= b
    ensures |a| <= |b|
  {
    assert b == a + (b - a);
  }

  /** What a finished probe for k has established about slot pos. */
  ghost predicate Found(hash: Bytes -> nat, t: Table, k: Bytes, pos: int) {
    && 0 <= pos < |t|
    && Reaches(t, Home(hash, k, |t|), pos)
    && (t[pos].state == Empty || (t[pos].state == Alive && t[pos].key == k))
    && (t[pos].state == Empty ==> forall p :: 0 <= p < |t| && t[p].state == Alive ==> t[p].key != k)
  }

  /** A probe finds the unique live slot of k if there is one. */
  lemma FoundIsIndex(hash: Bytes -> nat, t: Table, head: int, tail: int, o: seq<int>, k: Bytes, pos: int)
    requires Shape(hash, t, head, tail, o) && Found(hash, t, k, pos)
    ensures var i := IndexOf(EntriesOf(t, o), k);
            if t[pos].state == Alive then i < |o| && o[i] == pos else i == |o| && pos !in o
  {
    LinkedInRange(t, head, tail, o);
    var es := EntriesOf(t, o);
    var i := IndexOf(es, k);
    if t[pos].state == Alive {
      var j :| 0 <= j < |o| && o[j] == pos;
      assert es[j].key == k;
    } else {
      assert forall j :: 0 <= j < |o| ==> es[j].key == t[o[j]].key;
    }
  }

  // ----- How the table operations change the shape -----

  lemma SameDataShape(hash: Bytes -> nat, t: Table, u: Table, o: seq<int>)
    requires SameData(t, u) && Probes(hash, t)
    requires forall i :: 0 <= i < |o| ==> 0 <= o[i] < |t|
    ensures Probes(hash, u) && DeadSlots(u) == DeadSlots(t)
    ensures EntriesOf(u, o) == EntriesOf(t, o)
  {
    forall p | 0 <= p < |u| && u[p].state == Alive ensures Reaches(u, Home(hash, u[p].key, |u|), p) {
      assert t[p].state == Alive && Reaches(t, Home(hash, t[p].key, |t|), p);
    }
  }

  lemma EntriesWithout(t: Table, o: seq<int>, j: nat)
    requires j < |o| && forall i :: 0 <= i < |o| ==> 0 <= o[i] < |t|
    ensures forall i :: 0 <= i < |Without(o, j)| ==> 0 <= Without(o, j)[i] < |t|
    ensures EntriesOf(t, Without(o, j)) == Without(EntriesOf(t, o), j)
  {
  }

  lemma EntriesFront(t: Table, o: seq<int>, j: nat)
    requires j < |o| && forall i :: 0 <= i < |o| ==> 0 <= o[i] < |t|
    ensures forall i :: 0 <= i < |o| ==> 0 <= ([o[j]] + Without(o, j))[i] < |t|
    ensures EntriesOf(t, [o[j]] + Without(o, j)) == [EntriesOf(t, o)[j]] + Without(EntriesOf(t, o), j)
  {
    EntriesWithout(t, o, j);
  }

  lemma InFront(o: seq<int>, j: nat, p: int)
    requires j < |o| && p in o
    ensures p in [o[j]] + Without(o, j)
  {
    var i :| 0 <= i < |o| && o[i] == p;
    if i != j {
      assert Without(o, j)[if i < j then i else i - 1] == p;
    }
  }

  /** Moving a live slot to the front of the list. */
  lemma AccessShape(hash: Bytes -> nat, t: Table, o: seq<int>, j: nat, u: Table, head: int, tail: int)
    requires Distinct(o) && Listed(t, o) && Probes(hash, t) && j < |o|
    requires forall i :: 0 <= i < |o| ==> 0 <= o[i] < |t|
    requires DistinctKeys(EntriesOf(t, o))
    requires SameData(t, u) && Linked(u, head, tail, [o[j]] + Without(o, j))
    ensures Shape(hash, u, head, tail, [o[j]] + Without(o, j))
    ensures EntriesOf(u, [o[j]] + Without(o, j)) == [EntriesOf(t, o)[j]] + Without(EntriesOf(t, o), j)
    ensures Size(EntriesOf(u, [o[j]] + Without(o, j))) == Size(EntriesOf(t, o))
    ensures DeadSlots(u) == DeadSlots(t)
  {
    var w := [o[j]] + Without(o, j);
    var es := EntriesOf(t, o);
    EntriesFront(t, o, j);
    SameDataShape(hash, t, u, w);
    DoKeepsDistinct(es, Front(j, es[j]));
    DoSize(es, Front(j, es[j]));
    forall p | 0 <= p < |u| && u[p].state == Alive ensures p in w {
      assert t[p].state == Alive;
      InFront(o, j, p);
    }
  }

  /** Changing value and version of a live slot. */
  lemma ChangeShape(hash: Bytes -> nat, t: Table, head: int, tail: int, o: seq<int>, j: nat,
                    value: Bytes, version: Version)
    requires Shape(hash, t, head, tail, o) && j < |o|
    ensures var u := t[o[j] := t[o[j]].(value := value, version := version)];
            && Shape(hash, u, head, tail, o)
            && DeadSlots(u) == DeadSlots(t)
            && EntriesOf(u, o) == EntriesOf(t, o)[j := Entry(t[o[j]].key, value, version)]
  {
    var u := t[o[j] := t[o[j]].(value := value, version := version)];
    var es := EntriesOf(t, o);
    forall i | 0 <= i < |o| ensures NodeOk(u, o, i) {
      assert NodeOk(t, o, i);
    }
    assert EntriesOf(u, o) == es[j := Entry(t[o[j]].key, value, version)];
    DoKeepsDistinct(es, Change(j, Entry(t[o[j]].key, value, version)));
    forall p | 0 <= p < |u| && u[p].state == Alive ensures Reaches(u, Home(hash, u[p].key, |u|), p) {
      assert t[p].state == Alive && Reaches(t, Home(hash, t[p].key, |t|), p);
    }
  }

  /** Tombstones keep probe paths unbroken. */
  lemma BuryProbes(hash: Bytes -> nat, t: Table, o: seq<int>, j: nat, u: Table)
    requires Listed(t, o) && Probes(hash, t) && j < |o| && 0 <= o[j] < |t| && SameData(t, u)
    ensures var v := u[o[j] := EMPTY_RECORD.(state := Dead)];
            Probes(hash, v) && Listed(v, Without(o, j))
  {
    var w, v := Without(o, j), u[o[j] := EMPTY_RECORD.(state := Dead)];
    forall p | 0 <= p < |v| && v[p].state == Alive ensures p in w && Reaches(v, Home(hash, v[p].key, |v|), p) {
      assert t[p].state == Alive && Reaches(t, Home(hash, t[p].key, |t|), p);
      var i :| 0 <= i < |o| && o[i] == p;
      assert w[if i < j then i else i - 1] == p;
    }
  }

  /** Turning a live slot, already off the list, into a tombstone. */
  lemma BuryShape(hash: Bytes -> nat, t: Table, o: seq<int>, j: nat, u: Table, head: int, tail: int)
    requires Distinct(o) && Listed(t, o) && Probes(hash, t) && j < |o|
    requires forall i :: 0 <= i < |o| ==> 0 <= o[i] < |t|
    requires DistinctKeys(EntriesOf(t, o)) && t[o[j]].state == Alive
    requires SameData(t, u) && Linked(u, head, tail, Without(o, j))
    ensures var v := u[o[j] := EMPTY_RECORD.(state := Dead)];
            && Shape(hash, v, head, tail, Without(o, j))
            && EntriesOf(v, Without(o, j)) == Without(EntriesOf(t, o), j)
            && DeadSlots(v) == DeadSlots(t) + {o[j]}
  {
    var w, es := Without(o, j), EntriesOf(t, o);
    var v := u[o[j] := EMPTY_RECORD.(state := Dead)];
    EntriesWithout(t, o, j);
    DoKeepsDistinct(es, Cut(j));
    assert forall i :: 0 <= i < |w| ==> w[i] == o[if i < j then i else i + 1];
    assert EntriesOf(v, w) == EntriesOf(t, w);
    forall i | 0 <= i < |w| ensures NodeOk(v, w, i) {
      assert NodeOk(u, w, i);
    }
    BuryProbes(hash, t, o, j, u);
  }

  lemma FillKeepsLinks(t: Table, u: Table, head: int, tail: int, o: seq<int>, pos: int)
    requires Linked(t, head, tail, o) && 0 <= pos < |t| && pos !in o
    requires |u| == |t| && forall p :: 0 <= p < |t| && p != pos ==> u[p] == t[p]
    ensures Linked(u, head, tail, o)
  {
    forall i | 0 <= i < |o| ensures NodeOk(u, o, i) {
      assert NodeOk(t, o, i);
    }
  }

  /** Filling the empty slot a probe ended at. */
  lemma FillShape(hash: Bytes -> nat, t: Table, o: seq<int>, pos: int, e: Entry, u: Table, w: seq<int>,
                  head: int, tail: int)
    requires Listed(t, o) && Probes(hash, t)
    requires forall i :: 0 <= i < |o| ==> 0 <= o[i] < |t| && o[i] != pos
    requires DistinctKeys(EntriesOf(t, o)) && forall i :: 0 <= i < |o| ==> EntriesOf(t, o)[i].key != e.key
    requires 0 <= pos < |t| && t[pos].state == Empty && Reaches(t, Home(hash, e.key, |t|), pos)
    requires w == [pos] + o || w == o + [pos]
    requires SameData(t[pos := Record(Alive, e.key, e.value, e.version, -1, -1)], u) && Linked(u, head, tail, w)
    ensures Shape(hash, u, head, tail, w)
    ensures EntriesOf(u, w) == if w == [pos] + o then [e] + EntriesOf(t, o) else EntriesOf(t, o) + [e]
    ensures DeadSlots(u) == DeadSlots(t)
  {
    var es := EntriesOf(t, o);
    assert EntriesOf(u, w) == if w == [pos] + o then [e] + es else es + [e];
    assert DistinctKeys(EntriesOf(u, w));
    forall p | 0 <= p < |u| && u[p].state == Alive ensures p in w && Reaches(u, Home(hash, u[p].key, |u|), p) {
      if p == pos {
        assert pos in w;
      } else {
        assert t[p].state == Alive && Reaches(t, Home(hash, t[p].key, |t|), p);
        assert p in o;
      }
    }
  }

  lemma AddShape(hash: Bytes -> nat, t: Table, head: int, tail: int, o: seq<int>, pos: int, e: Entry,
                 u: Table, head': int, tail': int)
    requires Shape(hash, t, head, tail, o) && Found(hash, t, e.key, pos) && t[pos].state == Empty
    requires SameData(t[pos := Record(Alive, e.key, e.value, e.version, t[pos].prev, t[pos].next)], u)
    requires Linked(u, head', tail', [pos] + o)
    ensures Shape(hash, u, head', tail', [pos] + o)
    ensures EntriesOf(u, [pos] + o) == [e] + EntriesOf(t, o)
    ensures Size(EntriesOf(u, [pos] + o)) == Size(EntriesOf(t, o)) + Weight(e)
    ensures DeadSlots(u) == DeadSlots(t)
  {
    FoundIsIndex(hash, t, head, tail, o, e.key, pos);
    FillShape(hash, t, o, pos, e, u, [pos] + o, head', tail');
    SizeFront(e, EntriesOf(t, o));
  }

  lemma BackShape(hash: Bytes -> nat, t: Table, head: int, tail: int, o: seq<int>, pos: int, e: Entry)
    requires Shape(hash, t, head, tail, o)
    requires 0 <= pos < |t| && t[pos].state == Empty && Reaches(t, Home(hash, e.key, |t|), pos)
    requires forall i :: 0 <= i < |o| ==> EntriesOf(t, o)[i].key != e.key
    ensures -1 <= tail < |t|
    ensures var u, w := LinkBack(t, tail, pos, e), o + [pos];
            && Shape(hash, u, if head == -1 then pos else head, pos, w)
            && EntriesOf(u, w) == EntriesOf(t, o) + [e]
            && DeadSlots(u) == DeadSlots(t)
  {
    BackLinks(t, head, tail, o, pos, e);
    var u, w := LinkBack(t, tail, pos, e), o + [pos];
    FillShape(hash, t, o, pos, e, u, w, if head == -1 then pos else head, pos);
    if w == [pos] + o {
      assert w[0] == pos;
      assert o == [];
    }
  }
}
