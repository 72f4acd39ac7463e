/** The doubly linked lists of memcached: the LRU list (items.c) and the free list (slabs.c) of
each slab class. Both kinds are threaded through the same `prev` and `next` fields of the item
headers, and the page mover takes chunks out of the middle of either.

Pointers are chunk numbers, with -1 for NULL. Each method is tied to the list operation that
`StorageEngine` uses, and leaves every other list alone. */
module LinkedQueues {
  import opened Sequences
  import opened StorageEngine

  datatype Links = Links(prev: int, next: int)

  /** heads, tails and sizes (items.c), slots and sl_curr (slabs.c) of one class. */
  datatype ClassLists = ClassLists(head: int, tail: int, size: int, slots: int, slCurr: int)

  ghost predicate NodeOk(l: seq<Links>, o: seq<int>, i: nat)
    requires i < |o|
  {
    0 <= o[i] < |l| && l[o[i]] == Links(At(o, i - 1), At(o, i + 1))
  }

  ghost predicate Linked(l: seq<Links>, o: seq<int>) {
    && Distinct(o)
    && (forall i {:trigger NodeOk(l, o, i)} :: 0 <= i < |o| ==> NodeOk(l, o, i))
  }

  // ----- Link surgery -----

  function PushLinks(l: seq<Links>, head: int, it: int): seq<Links>
    requires 0 <= it < |l| && -1 <= head < |l|
  {
    var m := l[it := Links(-1, head)];
    if head != -1 then m[head := Links(it, m[head].next)] else m
  }

  lemma PushIsLinked(l: seq<Links>, o: seq<int>, it: int)
    requires Linked(l, o) && 0 <= it < |l| && it !in o
    ensures -1 <= At(o, 0) < |l|
    ensures Linked(PushLinks(l, At(o, 0), it), [it] + o)
    ensures forall p :: 0 <= p < |l| && p !in [it] + o ==> PushLinks(l, At(o, 0), it)[p] == l[p]
  {
    if o != [] { assert NodeOk(l, o, 0); }
    var m, w := PushLinks(l, At(o, 0), it), [it] + o;
    forall i | 0 <= i < |w| ensures NodeOk(m, w, i) {
      if i > 0 { assert NodeOk(l, o, i - 1); }
    }
    assert Distinct(w);
  }

  function CutLinks(l: seq<Links>, it: int): seq<Links>
    requires 0 <= it < |l| && -1 <= l[it].prev < |l| && -1 <= l[it].next < |l|
  {
    var x := l[it];
    var m := if x.next != -1 then l[x.next := Links(x.prev, l[x.next].next)] else l;
    if x.prev != -1 then m[x.prev := Links(m[x.prev].prev, x.next)] else m
  }

  lemma DropAt(o: seq<int>, j: nat)
    requires Distinct(o) && j < |o|
    ensures Drop(o, o[j]) == o[..j] + o[j + 1..]
  {
    DropIsWithout(o, o[j]);
    assert PositionOf(o, o[j]) == j;
  }

  lemma CutNode(l: seq<Links>, o: seq<int>, j: nat, i: nat)
    requires Linked(l, o) && j < |o| && i < |o| - 1
    requires 0 <= o[j] < |l| && -1 <= l[o[j]].prev < |l| && -1 <= l[o[j]].next < |l|
    ensures NodeOk(CutLinks(l, o[j]), o[..j] + o[j + 1..], i)
  {
    var w := o[..j] + o[j + 1..];
    assert w[i] == o[if i < j then i else i + 1];
    assert NodeOk(l, o, if i < j then i else i + 1) && NodeOk(l, o, j);
    if i > 0 {
      assert w[i - 1] == o[if i - 1 < j then i - 1 else i];
    }
    if i + 1 < |w| {
      assert w[i + 1] == o[if i + 1 < j then i + 1 else i + 2];
    }
  }

  /** What the neighbours of a list member look like; `item_unlink_q` asserts part of this. */
  lemma MemberLinks(l: seq<Links>, o: seq<int>, it: int) returns (j: nat)
    requires Linked(l, o) && it in o
    ensures j < |o| && o[j] == it && NodeOk(l, o, j)
    ensures 0 <= it < |l| && l[it] == Links(At(o, j - 1), At(o, j + 1))
    ensures -1 <= l[it].prev < |l| && -1 <= l[it].next < |l|
    ensures l[it].prev == -1 <==> it == o[0]
    ensures l[it].next == -1 <==> it == o[|o| - 1]
    ensures l[it].prev != it && l[it].next != it
  {
    j :| 0 <= j < |o| && o[j] == it;
    assert NodeOk(l, o, j);
    if j > 0 { assert NodeOk(l, o, j - 1); }
    if j + 1 < |o| { assert NodeOk(l, o, j + 1); }
  }

  lemma CutIsLinked(l: seq<Links>, o: seq<int>, it: int)
    requires Linked(l, o) && it in o
    ensures 0 <= it < |l| && -1 <= l[it].prev < |l| && -1 <= l[it].next < |l|
    ensures Linked(CutLinks(l, it), Drop(o, it))
    ensures forall p :: 0 <= p < |l| && p !in o ==> CutLinks(l, it)[p] == l[p]
  {
    var j := MemberLinks(l, o, it);
    DropIs(o, it);
    DropAt(o, j);
    var w := Drop(o, it);
    forall i | 0 <= i < |w| ensures NodeOk(CutLinks(l, it), w, i) {
      CutNode(l, o, j, i);
    }
  }

  lemma CutEnds(l: seq<Links>, o: seq<int>, it: int)
    requires Linked(l, o) && it in o
    ensures 0 <= it < |l|
    ensures |Drop(o, it)| == |o| - 1
    ensures At(Drop(o, it), 0) == if it == o[0] then l[it].next else o[0]
    ensures At(Drop(o, it), |o| - 2) == if it == o[|o| - 1] then l[it].prev else o[|o| - 1]
  {
    var j := MemberLinks(l, o, it);
    DropAt(o, j);
  }

  // ----- All lists together -----

  ghost predicate LruOk(l: seq<Links>, c: ClassLists, o: seq<int>) {
    Linked(l, o) && c.head == At(o, 0) && c.tail == At(o, |o| - 1) && c.size == |o|
  }

  ghost predicate FreeOk(l: seq<Links>, c: ClassLists, o: seq<int>) {
    Linked(l, o) && c.slots == At(o, 0) && c.slCurr == |o|
  }

  /** The lists of class k; `place` says which list a chunk is on: k for the LRU list of class k,
  -k for its free list, 0 for none. */
  ghost predicate ClassOk(l: seq<Links>, cs: seq<ClassLists>, lru: seq<seq<int>>, free: seq<seq<int>>,
                          place: seq<int>, k: nat)
    requires k < |cs| && k < |lru| && k < |free| && |place| == |l|
  {
    && LruOk(l, cs[k], lru[k]) && FreeOk(l, cs[k], free[k])
    && (forall p :: p in lru[k] <==> 0 <= p < |l| && place[p] == k)
    && (forall p :: p in free[k] <==> 0 <= p < |l| && place[p] == 0 - k)
  }

  /** Classes are numbered from 1, as in the source. */
  ghost predicate Consistent(l: seq<Links>, cs: seq<ClassLists>, lru: seq<seq<int>>, free: seq<seq<int>>,
                             place: seq<int>) {
    && |lru| == |free| == |cs| && |place| == |l|
    && forall k {:trigger ClassOk(l, cs, lru, free, place, k)} :: 1 <= k < |cs| ==> ClassOk(l, cs, lru, free, place, k)
  }

  lemma SameLinks(l: seq<Links>, m: seq<Links>, o: seq<int>)
    requires Linked(l, o) && |m| == |l| && forall p :: p in o ==> 0 <= p < |l| && m[p] == l[p]
    ensures Linked(m, o)
  {
    forall i | 0 <= i < |o| ensures NodeOk(m, o, i) {
      assert NodeOk(l, o, i) && o[i] in o;
    }
  }

  /** A change confined to one list of class k leaves everything else consistent. */
  lemma OthersStay(l: seq<Links>, cs: seq<ClassLists>, lru: seq<seq<int>>, free: seq<seq<int>>, place: seq<int>,
                   m: seq<Links>, cs': seq<ClassLists>, lru': seq<seq<int>>, free': seq<seq<int>>,
                   place': seq<int>, k: nat)
    requires Consistent(l, cs, lru, free, place) && 1 <= k < |cs|
    requires |m| == |l| && |place'| == |l| && |cs'| == |cs|
    requires |lru'| == |free'| == |cs|
    requires forall j :: 0 <= j < |cs| && j != k ==> cs'[j] == cs[j] && lru'[j] == lru[j] && free'[j] == free[j]
    requires forall p :: 0 <= p < |l| && place[p] != k && place[p] != 0 - k ==> m[p] == l[p] || place[p] == 0
    requires forall p :: 0 <= p < |l| && place'[p] != place[p] ==>
                           place[p] in {0, k, 0 - k} && place'[p] in {0, k, 0 - k}
    requires ClassOk(m, cs', lru', free', place', k)
    ensures Consistent(m, cs', lru', free', place')
  {
    forall j | 1 <= j < |cs| ensures ClassOk(m, cs', lru', free', place', j) {
      if j != k {
        assert ClassOk(l, cs, lru, free, place, j);
        SameLinks(l, m, lru[j]);
        SameLinks(l, m, free[j]);
      }
    }
  }

  /** The LRU list of class k becomes o', and only chunks on it, or on no list, are written to. */
  lemma LruReplaced(l: seq<Links>, cs: seq<ClassLists>, lru: seq<seq<int>>, free: seq<seq<int>>, place: seq<int>,
                    m: seq<Links>, c': ClassLists, o': seq<int>, place': seq<int>, k: nat)
    requires Consistent(l, cs, lru, free, place) && 1 <= k < |cs| && |m| == |place'| == |l|
    requires LruOk(m, c', o') && c'.slots == cs[k].slots && c'.slCurr == cs[k].slCurr
    requires forall p :: 0 <= p < |l| && place[p] != 0 && place[p] != k ==> m[p] == l[p]
    requires forall p :: 0 <= p < |l| && place'[p] != place[p] ==> place[p] in {0, k} && place'[p] in {0, k}
    requires forall p :: p in o' <==> 0 <= p < |l| && place'[p] == k
    ensures Consistent(m, cs[k := c'], lru[k := o'], free, place')
  {
    assert ClassOk(l, cs, lru, free, place, k);
    SameLinks(l, m, free[k]);
    OthersStay(l, cs, lru, free, place, m, cs[k := c'], lru[k := o'], free, place', k);
  }

  lemma FreeReplaced(l: seq<Links>, cs: seq<ClassLists>, lru: seq<seq<int>>, free: seq<seq<int>>, place: seq<int>,
                     m: seq<Links>, c': ClassLists, o': seq<int>, place': seq<int>, k: nat)
    requires Consistent(l, cs, lru, free, place) && 1 <= k < |cs| && |m| == |place'| == |l|
    requires FreeOk(m, c', o') && c'.head == cs[k].head && c'.tail == cs[k].tail && c'.size == cs[k].size
    requires forall p :: 0 <= p < |l| && place[p] != 0 && place[p] != 0 - k ==> m[p] == l[p]
    requires forall p :: 0 <= p < |l| && place'[p] != place[p] ==> place[p] in {0, 0 - k} && place'[p] in {0, 0 - k}
    requires forall p :: p in o' <==> 0 <= p < |l| && place'[p] == 0 - k
    ensures Consistent(m, cs[k := c'], lru, free[k := o'], place')
  {
    assert ClassOk(l, cs, lru, free, place, k);
    SameLinks(l, m, lru[k]);
    OthersStay(l, cs, lru, free, place, m, cs[k := c'], lru, free[k := o'], place', k);
  }

  lemma LinkConsistent(l: seq<Links>, cs: seq<ClassLists>, lru: seq<seq<int>>, free: seq<seq<int>>,
                       place: seq<int>, it: int, k: nat)
    requires Consistent(l, cs, lru, free, place) && 1 <= k < |cs| && 0 <= it < |l| && place[it] == 0
    ensures -1 <= cs[k].head < |l|
    ensures var c := cs[k];
            var c' := c.(head := it, tail := if c.tail == -1 then it else c.tail, size := c.size + 1);
            Consistent(PushLinks(l, c.head, it), cs[k := c'], lru[k := [it] + lru[k]], free, place[it := k])
  {
    var o, c := lru[k], cs[k];
    assert ClassOk(l, cs, lru, free, place, k);
    PushIsLinked(l, o, it);
    if o != [] { assert NodeOk(l, o, |o| - 1); }
    var m := PushLinks(l, c.head, it);
    SameLinks(l, m, free[k]);
    OthersStay(l, cs, lru, free, place, m,
               cs[k := c.(head := it, tail := if c.tail == -1 then it else c.tail, size := c.size + 1)],
               lru[k := [it] + o], free, place[it := k], k);
  }

  /** The class record after its LRU list o lost the chunk. */
  function Unheaded(c: ClassLists, x: Links, it: int): ClassLists {
    c.(head := if c.head == it then x.next else c.head, tail := if c.tail == it then x.prev else c.tail,
       size := c.size - 1)
  }

  lemma CutHeads(l: seq<Links>, c: ClassLists, o: seq<int>, it: int)
    requires LruOk(l, c, o) && it in o
    ensures 0 <= it < |l|
    ensures var w := Drop(o, it);
            var d := Unheaded(c, l[it], it);
            d.head == At(w, 0) && d.tail == At(w, |w| - 1) && d.size == |w|
  {
    CutEnds(l, o, it);
  }

  lemma CutLru(l: seq<Links>, c: ClassLists, o: seq<int>, it: int)
    requires LruOk(l, c, o) && it in o
    ensures 0 <= it < |l| && -1 <= l[it].prev < |l| && -1 <= l[it].next < |l| && l[it].prev != it && l[it].next != it
    ensures LruOk(CutLinks(l, it), Unheaded(c, l[it], it), Drop(o, it))
    ensures forall p :: 0 <= p < |l| && p !in o ==> CutLinks(l, it)[p] == l[p]
  {
    CutHeads(l, c, o, it);
    CutIsLinked(l, o, it);
    var j := MemberLinks(l, o, it);
  }

  lemma CutFree(l: seq<Links>, c: ClassLists, o: seq<int>, it: int)
    requires FreeOk(l, c, o) && it in o
    ensures 0 <= it < |l| && -1 <= l[it].prev < |l| && -1 <= l[it].next < |l| && l[it].prev != it && l[it].next != it
    ensures FreeOk(CutLinks(l, it),
                   c.(slots := if c.slots == it then l[it].next else c.slots, slCurr := c.slCurr - 1), Drop(o, it))
    ensures forall p :: 0 <= p < |l| && p !in o ==> CutLinks(l, it)[p] == l[p]
  {
    var j := MemberLinks(l, o, it);
    CutIsLinked(l, o, it);
    CutEnds(l, o, it);
  }

  /** A chunk taken off a list is the only one that changes its place. */
  lemma CutPlace(l: seq<Links>, o: seq<int>, place: seq<int>, it: int, v: int)
    requires Linked(l, o) && it in o && 0 <= it < |place| && v != 0
    requires forall p :: p in o <==> 0 <= p < |place| && place[p] == v
    ensures forall p :: p in Drop(o, it) <==> 0 <= p < |place| && place[it := 0][p] == v
  {
    var j := MemberLinks(l, o, it);
    DropIs(o, it);
  }

  lemma UnlinkConsistent(l: seq<Links>, cs: seq<ClassLists>, lru: seq<seq<int>>, free: seq<seq<int>>,
                         place: seq<int>, it: int, k: nat)
    requires Consistent(l, cs, lru, free, place) && 1 <= k < |cs| && 0 <= it < |l| && place[it] == k
    ensures -1 <= l[it].prev < |l| && -1 <= l[it].next < |l| && l[it].prev != it && l[it].next != it
    ensures Consistent(CutLinks(l, it), cs[k := Unheaded(cs[k], l[it], it)],
                       lru[k := Drop(lru[k], it)], free, place[it := 0])
  {
    var o, c := lru[k], cs[k];
    assert ClassOk(l, cs, lru, free, place, k);
    CutLru(l, c, o, it);
    CutPlace(l, o, place, it, k);
    LruReplaced(l, cs, lru, free, place, CutLinks(l, it), Unheaded(c, l[it], it), Drop(o, it), place[it := 0], k);
  }

  lemma SlabPushConsistent(l: seq<Links>, cs: seq<ClassLists>, lru: seq<seq<int>>, free: seq<seq<int>>,
                           place: seq<int>, it: int, k: nat)
    requires Consistent(l, cs, lru, free, place) && 1 <= k < |cs| && 0 <= it < |l| && place[it] == 0
    ensures -1 <= cs[k].slots < |l|
    ensures var c' := cs[k].(slots := it, slCurr := cs[k].slCurr + 1);
            Consistent(PushLinks(l, cs[k].slots, it), cs[k := c'], lru, free[k := [it] + free[k]], place[it := 0 - k])
  {
    var o, c := free[k], cs[k];
    assert ClassOk(l, cs, lru, free, place, k);
    PushIsLinked(l, o, it);
    var m := PushLinks(l, c.slots, it);
    SameLinks(l, m, lru[k]);
    OthersStay(l, cs, lru, free, place, m, cs[k := c.(slots := it, slCurr := c.slCurr + 1)],
               lru, free[k := [it] + o], place[it := 0 - k], k);
  }

  lemma SlabCutConsistent(l: seq<Links>, cs: seq<ClassLists>, lru: seq<seq<int>>, free: seq<seq<int>>,
                          place: seq<int>, it: int, k: nat)
    requires Consistent(l, cs, lru, free, place) && 1 <= k < |cs| && 0 <= it < |l| && place[it] == 0 - k
    ensures -1 <= l[it].prev < |l| && -1 <= l[it].next < |l| && l[it].prev != it && l[it].next != it
    ensures var c := cs[k];
            var c' := c.(slots := if c.slots == it then l[it].next else c.slots, slCurr := c.slCurr - 1);
            Consistent(CutLinks(l, it), cs[k := c'], lru, free[k := Drop(free[k], it)], place[it := 0])
  {
    var o, c := free[k], cs[k];
    assert ClassOk(l, cs, lru, free, place, k);
    CutFree(l, c, o, it);
    CutPlace(l, o, place, it, 0 - k);
    var c' := c.(slots := if c.slots == it then l[it].next else c.slots, slCurr := c.slCurr - 1);
    FreeReplaced(l, cs, lru, free, place, CutLinks(l, it), c', Drop(o, it), place[it := 0], k);
  }

  class Queues {
    const items: array<Links>
    const classes: array<ClassLists>
    ghost var lru: seq<seq<int>>
    ghost var free: seq<seq<int>>
    ghost var place: seq<int>

    ghost predicate Valid()
      reads this, items, classes
    {
      Consistent(items[..], classes[..], lru, free, place)
    }

    constructor (chunks: nat, n: nat)
      ensures Valid() && fresh(items) && fresh(classes) && items.Length == chunks && classes.Length == n
      ensures forall k :: 0 <= k < n ==> lru[k] == [] && free[k] == []
    {
      items := new Links[chunks](_ => Links(-1, -1));
      classes := new ClassLists[n](_ => ClassLists(-1, -1, 0, -1, 0));
      lru := seq(n, _ => []);
      free := seq(n, _ => []);
      place := seq(chunks, _ => 0);
      new;
      forall k | 1 <= k < n ensures ClassOk(items[..], classes[..], lru, free, place, k) {
        assert classes[..][k] == classes[k];
      }
    }

    /** `item_link_q`: the item becomes the head of its LRU list. */
    method LinkQ(it: int, k: nat)
      requires Valid() && 1 <= k < classes.Length && 0 <= it < items.Length && place[it] == 0
      modifies this, items, classes
      ensures Valid() && lru == old(lru)[k := [it] + old(lru)[k]] && free == old(free)
      ensures place == old(place)[it := k]
    {
      ghost var l, cs := items[..], classes[..];
      LinkConsistent(l, cs, lru, free, place, it, k);
      var c := classes[k];
      items[it] := Links(-1, c.head);
      if c.head != -1 {
        items[c.head] := Links(it, items[c.head].next);
      }
      classes[k] := c.(head := it, tail := if c.tail == -1 then it else c.tail, size := c.size + 1);
      assert items[..] == PushLinks(l, c.head, it) && classes[..] == cs[k := classes[k]];
      lru, place := lru[k := [it] + lru[k]], place[it := k];
    }

    /** `item_unlink_q`. */
    method UnlinkQ(it: int, k: nat)
      requires Valid() && 1 <= k < classes.Length && 0 <= it < items.Length && place[it] == k
      modifies this, items, classes
      ensures Valid() && lru == old(lru)[k := Drop(old(lru)[k], it)] && free == old(free)
      ensures place == old(place)[it := 0]
    {
      ghost var l, cs := items[..], classes[..];
      UnlinkConsistent(l, cs, lru, free, place, it, k);
      var c, x := classes[k], items[it];
      if c.head == it {
        c := c.(head := x.next);
      }
      if c.tail == it {
        c := c.(tail := x.prev);
      }
      Detach(it);
      classes[k] := c.(size := c.size - 1);
      assert classes[..] == cs[k := classes[k]];
      lru, place := lru[k := Drop(lru[k], it)], place[it := 0];
    }

    /** The two pointer updates by which an item leaves a list. */
    method Detach(it: int)
      requires 0 <= it < items.Length
      requires -1 <= items[it].prev < items.Length && -1 <= items[it].next < items.Length
      requires items[it].prev != it && items[it].next != it
      modifies items
      ensures items[..] == CutLinks(old(items[..]), it)
    {
      var x := items[it];
      if x.next != -1 {
        items[x.next] := Links(x.prev, items[x.next].next);
      }
      if x.prev != -1 {
        items[x.prev] := Links(items[x.prev].prev, x.next);
      }
    }

    /** `do_slabs_free`: the chunk becomes the first free one. */
    method SlabPush(it: int, k: nat)
      requires Valid() && 1 <= k < classes.Length && 0 <= it < items.Length && place[it] == 0
      modifies this, items, classes
      ensures Valid() && free == old(free)[k := [it] + old(free)[k]] && lru == old(lru)
      ensures place == old(place)[it := 0 - k]
    {
      ghost var l, cs := items[..], classes[..];
      SlabPushConsistent(l, cs, lru, free, place, it, k);
      var c := classes[k];
      items[it] := Links(-1, c.slots);
      if c.slots != -1 {
        items[c.slots] := Links(it, items[c.slots].next);
      }
      classes[k] := c.(slots := it, slCurr := c.slCurr + 1);
      assert items[..] == PushLinks(l, c.slots, it) && classes[..] == cs[k := classes[k]];
      free, place := free[k := [it] + free[k]], place[it := 0 - k];
    }

    /** `do_slabs_alloc`, when the free list is not empty. */
    method SlabPop(k: nat) returns (it: int)
      requires Valid() && 1 <= k < classes.Length && classes[k].slCurr != 0
      modifies this, items, classes
      ensures Valid() && old(free)[k] != [] && it == old(free)[k][0]
      ensures free == old(free)[k := old(free)[k][1..]] && lru == old(lru)
      ensures 0 <= it < |old(place)| && place == old(place)[it := 0]
    {
      ghost var l, cs, o := items[..], classes[..], free[k];
      assert ClassOk(l, cs, lru, free, place, k);
      var c := classes[k];
      it := c.slots;
      assert it in o;
      ghost var j := MemberLinks(l, o, it);
      DropAt(o, 0);
      SlabCutConsistent(l, cs, lru, free, place, it, k);
      var x := items[it];
      if x.next != -1 {
        items[x.next] := Links(-1, items[x.next].next);
      }
      classes[k] := c.(slots := x.next, slCurr := c.slCurr - 1);
      assert items[..] == CutLinks(l, it) && classes[..] == cs[k := classes[k]];
      free, place := free[k := o[1..]], place[it := 0];
    }

    /** The page mover takes a chunk out of the middle of the free list. */
    method SlabCut(it: int, k: nat)
      requires Valid() && 1 <= k < classes.Length && 0 <= it < items.Length && place[it] == 0 - k
      modifies this, items, classes
      ensures Valid() && free == old(free)[k := Drop(old(free)[k], it)] && lru == old(lru)
      ensures place == old(place)[it := 0]
    {
      ghost var l, cs := items[..], classes[..];
      SlabCutConsistent(l, cs, lru, free, place, it, k);
      var c := classes[k];
      if c.slots == it {
        c := c.(slots := items[it].next);
      }
      Detach(it);
      classes[k] := c.(slCurr := c.slCurr - 1);
      assert classes[..] == cs[k := classes[k]];
      free, place := free[k := Drop(free[k], it)], place[it := 0];
    }

    /** The search of `do_item_alloc`: from the tail along `prev`, at most TRIES items. */
    method TailWalk(k: nat, usable: int -> bool) returns (r: Option<int>)
      requires Valid() && 1 <= k < classes.Length
      ensures r == WalkUp(lru[k], usable, TRIES)
    {
      ghost var l, o := items[..], lru[k];
      assert ClassOk(l, classes[..], lru, free, place, k);
      var search, tries := classes[k].tail, TRIES;
      ghost var n := |o|;
      assert o[..n] == o;
      if n > 0 { assert NodeOk(l, o, n - 1); }
      while tries > 0 && search != -1
        invariant 0 <= n <= |o| && tries >= 0 && search == At(o, n - 1)
        invariant search == -1 ==> n == 0
        invariant WalkUp(o, usable, TRIES) == WalkUp(o[..n], usable, tries)
        decreases tries
      {
        assert NodeOk(l, o, n - 1);
        assert o[..n][..n - 1] == o[..n - 1];
        if usable(search) {
          return Some(search);
        }
        if n >= 2 { assert NodeOk(l, o, n - 2); }
        search := items[search].prev;
        tries := tries - 1;
        n := n - 1;
      }
      return None;
    }
  }
}
