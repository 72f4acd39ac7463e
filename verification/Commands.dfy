/**
 * The item commands of memcached: look-up with lazy expiry, the conditional stores of
 * do_store_item, and flush_all, each as one step on the linked items and their recency lists.
 *
 * A linked item is named by its key, since at most one item is linked under a key.
 * Two fields of an item are history only: `id` numbers the link operations, and `born` is the
 * time of the link operation. The identifier clients see is `id` cut to 64 bits.
 */
module Commands {
  import opened Counters
  import opened Sequences
  import opened Words

  type Key = string
  type Bytes = string

  const UPDATE_INTERVAL := 60

  datatype Item = Item(data: Bytes, exptime: nat, cls: nat, time: nat, id: nat, born: nat)

  /** The linked items, the recency list of each slab class (newest first), and the globals. */
  datatype State = State(items: map<Key, Item>, lru: seq<seq<Key>>, now: nat, oldestLive: nat, links: nat)

  // ----- The invariant -----

  ghost predicate ItemOk(s: State, k: Key)
    requires k in s.items
  {
    var it := s.items[k];
    it.cls < |s.lru| && k in s.lru[it.cls] && it.born <= it.time <= s.now && 1 <= it.id <= s.links
  }

  ghost predicate Sorted(items: map<Key, Item>, q: seq<Key>) {
    && (forall i :: 0 <= i < |q| ==> q[i] in items)
    && (forall i, j :: 0 <= i < j < |q| ==> q[i] != q[j] && items[q[i]].time >= items[q[j]].time)
  }

  ghost predicate ListOk(s: State, c: nat)
    requires c < |s.lru|
  {
    && Sorted(s.items, s.lru[c])
    && forall k :: k in s.lru[c] ==> s.items[k].cls == c
  }

  ghost predicate Inv(s: State) {
    && s.now < U32 && s.oldestLive < U32
    && (forall k :: k in s.items ==> ItemOk(s, k))
    && (forall c: nat :: c < |s.lru| ==> ListOk(s, c))
    && (forall k, l :: k in s.items && l in s.items && s.items[k].id == s.items[l].id ==> k == l)
  }

  // ----- Linking -----

  lemma CutSorted(items: map<Key, Item>, q: seq<Key>, n: nat)
    requires Sorted(items, q) && n < |q|
    ensures Sorted(items, Without(q, n))
  {
    var r := Without(q, n);
    forall i | 0 <= i < |r| ensures r[i] == q[if i < n then i else i + 1] && r[i] in items {
    }
    forall i, j | 0 <= i < j < |r| ensures r[i] != r[j] && items[r[i]].time >= items[r[j]].time {
      var k, l := if i < n then i else i + 1, if j < n then j else j + 1;
      assert r[i] == q[k] && r[j] == q[l] && k < l;
    }
  }

  lemma DropSorted(items: map<Key, Item>, q: seq<Key>, k: Key)
    requires Sorted(items, q)
    ensures forall l :: l in Drop(q, k) <==> l in q && l != k
    ensures Sorted(items, Drop(q, k))
  {
    assert Distinct(q);
    DropIs(q, k);
    if k in q {
      DropIsWithout(q, k);
      CutSorted(items, q, PositionOf(q, k));
    } else {
      DropAbsent(q, k);
    }
  }

  /** do_item_unlink on a linked item. */
  function Unlink(s: State, k: Key): State {
    if k !in s.items || s.items[k].cls >= |s.lru| then s
    else var c := s.items[k].cls; s.(items := s.items - {k}, lru := s.lru[c := Drop(s.lru[c], k)])
  }

  /** The item goes to the head of its list. */
  function Place(s: State, k: Key, it: Item): State
    requires it.cls < |s.lru|
  {
    s.(items := s.items[k := it], lru := s.lru[it.cls := [k] + s.lru[it.cls]])
  }

  /** do_item_link: the item is stamped with the time and the next number. */
  function Link(s: State, k: Key, data: Bytes, exptime: nat, cls: nat): State
    requires cls < |s.lru|
  {
    Place(s.(links := s.links + 1), k, Item(data, exptime, cls, s.now, s.links + 1, s.now))
  }

  /** The last use is long enough ago; the subtraction is on 32-bit unsigned numbers. */
  predicate IsDue(s: State, it: Item) {
    it.time < (s.now - UPDATE_INTERVAL) % U32
  }

  /** do_item_update. */
  function Refresh(s: State, k: Key): State {
    if k in s.items && s.items[k].cls < |s.lru| && IsDue(s, s.items[k]) then
      Place(Unlink(s, k), k, s.items[k].(time := s.now))
    else s
  }

  lemma SortedFrame(items: map<Key, Item>, items': map<Key, Item>, q: seq<Key>)
    requires Sorted(items, q) && forall k :: k in q ==> k in items' && items'[k].time == items[k].time
    ensures Sorted(items', q)
  {
    forall i | 0 <= i < |q| ensures q[i] in items' && items'[q[i]].time == items[q[i]].time {
    }
  }

  lemma SortedFront(items: map<Key, Item>, q: seq<Key>, k: Key)
    requires Sorted(items, q) && k !in q && k in items
    requires forall l :: l in q ==> items[l].time <= items[k].time
    ensures Sorted(items, [k] + q)
  {
  }

  lemma UnlinkKeepsInv(s: State, k: Key)
    requires Inv(s) && k in s.items
    ensures Inv(Unlink(s, k)) && Unlink(s, k).items == s.items - {k}
  {
    assert ItemOk(s, k);
    var t, c := Unlink(s, k), s.items[k].cls;
    assert ListOk(s, c);
    DropSorted(s.items, s.lru[c], k);
    forall l | l in t.items ensures ItemOk(t, l) {
      assert ItemOk(s, l);
    }
    forall d: nat | d < |t.lru| ensures ListOk(t, d) {
      assert ListOk(s, d);
      assert k !in t.lru[d];
      SortedFrame(s.items, t.items, t.lru[d]);
    }
  }

  lemma PlaceKeepsLists(s: State, k: Key, it: Item)
    requires Inv(s) && k !in s.items && it.cls < |s.lru| && it.time == s.now
    ensures forall c: nat :: c < |s.lru| ==> ListOk(Place(s, k, it), c)
  {
    var t := Place(s, k, it);
    forall l | l in s.items ensures s.items[l].time <= s.now {
      assert ItemOk(s, l);
    }
    forall c: nat | c < |s.lru| ensures ListOk(t, c) {
      assert ListOk(s, c);
      SortedFrame(s.items, t.items, s.lru[c]);
      if c == it.cls {
        SortedFront(t.items, s.lru[c], k);
      }
    }
  }

  lemma PlaceKeepsInv(s: State, k: Key, it: Item)
    requires Inv(s) && k !in s.items && it.cls < |s.lru| && it.born <= it.time == s.now && 1 <= it.id <= s.links
    requires forall l :: l in s.items ==> s.items[l].id != it.id
    ensures Inv(Place(s, k, it))
  {
    var t := Place(s, k, it);
    PlaceKeepsLists(s, k, it);
    forall l | l in t.items ensures ItemOk(t, l) {
      if l == k {
        assert t.lru[it.cls][0] == k;
      } else {
        assert ItemOk(s, l);
        var q := s.lru[s.items[l].cls];
        assert l in [k] + q;
      }
    }
  }

  lemma LinkKeepsInv(s: State, k: Key, data: Bytes, exptime: nat, cls: nat)
    requires Inv(s) && k !in s.items && cls < |s.lru|
    ensures Inv(Link(s, k, data, exptime, cls))
  {
    var t := s.(links := s.links + 1);
    forall l | l in s.items ensures ItemOk(t, l) && s.items[l].id <= s.links {
      assert ItemOk(s, l);
    }
    forall c: nat | c < |t.lru| ensures ListOk(t, c) {
      assert ListOk(s, c);
    }
    PlaceKeepsInv(t, k, Item(data, exptime, cls, s.now, s.links + 1, s.now));
  }

  lemma RefreshKeepsInv(s: State, k: Key)
    requires Inv(s)
    ensures Inv(Refresh(s, k))
  {
    if Refresh(s, k) != s {
      assert ItemOk(s, k);
      UnlinkKeepsInv(s, k);
      PlaceKeepsInv(Unlink(s, k), k, s.items[k].(time := s.now));
    }
  }

  // ----- Look-up -----

  predicate HiddenByFlush(s: State, it: Item) {
    s.oldestLive != 0 && s.oldestLive <= s.now && it.time <= s.oldestLive
  }

  predicate Expired(s: State, it: Item) {
    it.exptime != 0 && it.exptime <= s.now
  }

  /** A look-up finds the item; `moving` says that its page is being taken away. */
  predicate Found(s: State, k: Key, moving: bool) {
    k in s.items && !moving && !HiddenByFlush(s, s.items[k]) && !Expired(s, s.items[k])
  }

  /** do_item_get: an item that must not be returned is unlinked on the way. */
  function AfterLookup(s: State, k: Key, moving: bool): State {
    if Found(s, k, moving) then s else Unlink(s, k)
  }

  // ----- Stores -----

  datatype Mode = Add | Set | Replace | Append | Prepend | Cas

  datatype Reply = Value(item: Item) | Stored | NotStored | Exists | NotFound | NonNumeric | OutOfMemory | Ok

  /** The identifier clients see. */
  function CasOf(useCas: bool, it: Item): nat {
    if useCas then it.id % U64 else 0
  }

  /** What a store command decides, given the identifier of the item found, if any. */
  function Decide(mode: Mode, found: Option<nat>, cas: nat): Reply {
    match mode
    case Set => Stored
    case Add => if found.None? then Stored else NotStored
    case Replace => if found.Some? then Stored else NotStored
    case Cas => if found.None? then NotFound else if found.value == cas then Stored else Exists
    case _ => if found.None? then NotStored else if cas != 0 && cas != found.value then Exists else Stored
  }

  /** A request to store: `room` is the class of the combined item, if memory was found for it. */
  datatype Request = Request(mode: Mode, key: Key, data: Bytes, exptime: nat, cls: nat, cas: nat, room: Option<nat>)

  predicate Combines(mode: Mode) {
    mode.Append? || mode.Prepend?
  }

  /** The item the request leads to, when it is stored. */
  function Contents(r: Request, s: State): Item {
    if !Combines(r.mode) || r.key !in s.items || r.room.None? then Item(r.data, r.exptime, r.cls, 0, 0, 0)
    else
      var it := s.items[r.key];
      Item(if r.mode.Append? then it.data + r.data else r.data + it.data, it.exptime, r.room.value, 0, 0, 0)
  }

  function FoundCas(useCas: bool, s: State, k: Key): Option<nat> {
    if k in s.items then Some(CasOf(useCas, s.items[k])) else None
  }

  function Relink(s: State, k: Key, it: Item): State
    requires it.cls < |s.lru|
  {
    Link(Unlink(s, k), k, it.data, it.exptime, it.cls)
  }

  predicate RequestOk(r: Request, s: State) {
    r.cls < |s.lru| && (r.room.Some? ==> r.room.value < |s.lru|)
  }

  /** The identifier the request's own item carries: with identifiers off it has none. */
  function GivenCas(useCas: bool, r: Request): nat {
    if useCas then r.cas else 0
  }

  /** do_store_item after its look-up. */
  function StoreReply(useCas: bool, s: State, r: Request): Reply {
    var d := Decide(r.mode, FoundCas(useCas, s, r.key), GivenCas(useCas, r));
    if d.Stored? && Combines(r.mode) && r.room.None? then NotStored else d
  }

  function AfterStore(useCas: bool, s: State, r: Request): State
    requires RequestOk(r, s)
  {
    if StoreReply(useCas, s, r).Stored? then Relink(s, r.key, Contents(r, s))
    else if r.mode.Add? then Refresh(s, r.key)
    else s
  }

  // ----- Flush -----

  /** The keys left in a list by the walk from its head that stops at the first old item. */
  function Walked(items: map<Key, Item>, q: seq<Key>, oldest: nat): seq<Key> {
    if q != [] && q[0] in items && items[q[0]].time >= oldest then Walked(items, q[1..], oldest) else q
  }

  /** Every item used since `oldest` is gone: what do_item_flush_expired is for. */
  function Swept(s: State): State {
    if s.oldestLive == 0 then s
    else s.(items := map k | k in s.items && s.items[k].time < s.oldestLive :: s.items[k],
            lru := seq(|s.lru|, c requires 0 <= c < |s.lru| => Walked(s.items, s.lru[c], s.oldestLive)))
  }

  function Flush(s: State, oldest: nat): State {
    Swept(s.(oldestLive := oldest))
  }

  /** flush_all without a delay; the subtraction is on 32-bit unsigned numbers. */
  function FlushNow(s: State): State {
    Flush(s, (s.now - 1) % U32)
  }

  // ----- Commands -----

  /**
   * A client command, the passing of time, or the loss of an item to eviction.
   * Delta is incr or decr, with the change it makes to a value that reads as a number.
   */
  datatype Command =
    | Get(key: Key, moving: bool)
    | Put(request: Request, moving: bool)
    | Delete(key: Key, moving: bool)
    | Touch(key: Key, exptime: nat, moving: bool)
    | Delta(key: Key, cas: nat, change: Change, room: Option<nat>, moving: bool)
    | FlushAll
    | FlushLater(oldest: nat)
    | Clock(time: nat)
    | Evict(key: Key)

  predicate CommandOk(s: State, c: Command) {
    match c
    case Put(r, _) => RequestOk(r, s)
    case Delta(_, _, change, room, _) => change.delta < U64 && (room.Some? ==> room.value < |s.lru|)
    case FlushLater(oldest) => oldest < U32
    case Clock(t) => s.now <= t < U32
    case _ => true
  }

  predicate IsFlush(c: Command) {
    c.FlushAll? || c.FlushLater?
  }

  function DeltaReply(useCas: bool, s: State, c: Command): Reply
    requires c.Delta?
  {
    if c.key !in s.items then NotFound
    else if c.cas != 0 && CasOf(useCas, s.items[c.key]) != c.cas then Exists
    else if Changed(c.change, s.items[c.key].data).None? then NonNumeric
    else if c.room.None? then OutOfMemory
    else Stored
  }

  function AfterTouch(s: State, k: Key, exptime: nat): State {
    if k in s.items then Refresh(s.(items := s.items[k := s.items[k].(exptime := exptime)]), k) else s
  }

  /** The item incr or decr leads to, when there is a number and memory for it. */
  function DeltaItem(s: State, c: Command): Item
    requires c.Delta? && c.key in s.items && c.room.Some? && Changed(c.change, s.items[c.key].data).Some?
  {
    Item(Changed(c.change, s.items[c.key].data).value, s.items[c.key].exptime, c.room.value, 0, 0, 0)
  }

  /** do_add_delta: the new value goes into a new item. */
  function AfterDelta(useCas: bool, s: State, c: Command): State
    requires c.Delta? && CommandOk(s, c)
  {
    if DeltaReply(useCas, s, c).Stored? then
      Relink(s, c.key, DeltaItem(s, c))
    else s
  }

  /** The key a command looks up first, and whether the look-up hits a page being moved. */
  function LookupOf(c: Command): Option<(Key, bool)> {
    match c
    case Get(k, moving) => Some((k, moving))
    case Put(r, moving) => Some((r.key, moving))
    case Delete(k, moving) => Some((k, moving))
    case Touch(k, _, moving) => Some((k, moving))
    case Delta(k, _, _, _, moving) => Some((k, moving))
    case _ => None
  }

  /** The state in which the command acts. */
  function Looked(s: State, c: Command): State {
    if LookupOf(c).None? then s else AfterLookup(s, LookupOf(c).value.0, LookupOf(c).value.1)
  }

  /** The rest of the command. */
  function Act(useCas: bool, s: State, c: Command): State
    requires CommandOk(s, c)
  {
    match c
    case Get(k, _) => Refresh(s, k)
    case Put(r, _) => AfterStore(useCas, s, r)
    case Delete(k, _) => Unlink(s, k)
    case Touch(k, e, _) => AfterTouch(s, k, e)
    case Delta(_, _, _, _, _) => AfterDelta(useCas, s, c)
    case FlushAll => FlushNow(s)
    case FlushLater(oldest) => Flush(s, oldest)
    case Clock(t) => s.(now := t)
    case Evict(k) => Unlink(s, k)
  }

  function Next(useCas: bool, s: State, c: Command): State
    requires CommandOk(s, c)
  {
    Act(useCas, Looked(s, c), c)
  }

  function ReplyTo(useCas: bool, s: State, c: Command): Reply {
    var t := Looked(s, c);
    match c
    case Get(k, _) => if k in t.items then Value(t.items[k]) else NotFound
    case Put(r, _) => StoreReply(useCas, t, r)
    case Delete(k, _) => if k in t.items then Ok else NotFound
    case Touch(k, _, _) => if k in t.items then Ok else NotFound
    case Delta(_, _, _, _, _) => DeltaReply(useCas, t, c)
    case _ => Ok
  }
}
