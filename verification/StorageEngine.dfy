/** memcached's item and slab memory (slabs.c, items.c) as a state machine.

Each function that runs under its locks is one step; any interleaving of steps is a run.
Free lists and LRU lists are sequences here (`LinkedQueues` has the pointer form), the hash
table is a map (`Assoc` has the bucket form). Two fields of a chunk's header are history:
`held` counts the references handed to callers, and `pending` is, while the caller of an
allocation still initialises the header outside the lock, the class it allocated from. */
module StorageEngine {
  import opened Sequences

  type Key = seq<bv8>

  /** Chunk `index` of page `page`. */
  datatype Chunk = Chunk(page: nat, index: nat)

  datatype Header = Header(
    clsid: nat, refcount: int, linked: bool, slabbed: bool, key: Key, held: int, pending: nat)

  /** Marks a chunk of a page that is being moved. */
  const MOVED := 255

  /** Slab classes 1 .. largest. With `reassign` all pages have `itemMax` bytes, so that they can
  move between classes; without it a page has just the bytes of its chunks. */
  datatype Config = Config(
    largest: nat, size: seq<nat>, perslab: seq<nat>, limit: nat, itemMax: nat, reassign: bool)

  /** The page mover: `signal` 0 idle, 1 requested, 2 running. */
  datatype Rebalance = Rebalance(signal: nat, src: nat, dst: nat, page: nat, pos: nat, busy: nat, done: bool)

  datatype State = State(
    owner: map<nat, nat>,           // page -> slab class
    mem: map<Chunk, Header>,
    free: seq<seq<Chunk>>,          // slots of each class
    slCurr: seq<int>,
    lru: seq<seq<Chunk>>,           // heads .. tails of each class
    slabs: seq<seq<nat>>,           // slab_list of each class
    table: map<Key, Chunk>,
    malloced: nat,
    rebal: Rebalance)

  ghost predicate ValidConfig(cf: Config) {
    && 1 <= cf.largest < 200
    && |cf.size| == |cf.perslab| == cf.largest + 1
    && forall k :: 1 <= k <= cf.largest ==> cf.perslab[k] >= 1 && cf.size[k] * cf.perslab[k] <= cf.itemMax
  }

  predicate IsClass(cf: Config, k: int) { 1 <= k <= cf.largest }

  function PerSlab(cf: Config, k: nat): nat {
    if k < |cf.perslab| then cf.perslab[k] else 0
  }

  /** The bytes of a page of class k. */
  function PageLen(cf: Config, k: nat): nat {
    if cf.reassign || k >= |cf.size| || k >= |cf.perslab| then cf.itemMax else cf.size[k] * cf.perslab[k]
  }

  // ----- What the state must satisfy -----

  /** A chunk on a free list. */
  predicate IsFree(h: Header) { h.refcount == 0 && h.slabbed && h.clsid != MOVED }

  /** A chunk whose last reference is gone but that is not on the free list yet. */
  predicate IsDropped(h: Header) { h.refcount == 0 && !h.slabbed && h.clsid != MOVED }

  /** The reference discipline, for a chunk of a page of class k. */
  ghost predicate GoodHeader(h: Header, k: nat) {
    && h.held >= 0
    && h.refcount == h.held + (if h.linked then 1 else 0)
    && (h.clsid == MOVED ==> h.refcount == 0 && !h.slabbed)
    && (h.pending != 0 ==> h.held == 1 && !h.linked && h.pending == k && h.clsid == 0)
    && (IsFree(h) ==> h.clsid == 0)
    && (IsDropped(h) ==> h.clsid == k)
    && (h.refcount > 0 && h.pending == 0 ==> !h.slabbed && h.clsid == k)
  }

  ghost predicate InClass(st: State, c: Chunk, k: nat) {
    c in st.mem && c.page in st.owner && st.owner[c.page] == k
  }

  ghost predicate Geometry(cf: Config, st: State) {
    && (forall p :: p in st.owner ==> IsClass(cf, st.owner[p]))
    && (forall c :: c in st.mem <==> c.page in st.owner && c.index < PerSlab(cf, st.owner[c.page]))
  }

  ghost predicate Headers(st: State) {
    forall c :: c in st.mem ==> c.page in st.owner && GoodHeader(st.mem[c], st.owner[c.page])
  }

  /** The free list of class k holds exactly its free chunks, once each. */
  ghost predicate FreeOf(st: State, k: nat)
    requires k < |st.free| && k < |st.slCurr|
  {
    && Distinct(st.free[k]) && st.slCurr[k] == |st.free[k]|
    && (forall c :: c in st.free[k] <==> InClass(st, c, k) && IsFree(st.mem[c]))
  }

  /** The LRU list of class k holds exactly its linked chunks, once each. */
  ghost predicate LruOf(st: State, k: nat)
    requires k < |st.lru|
  {
    && Distinct(st.lru[k])
    && (forall c :: c in st.lru[k] <==> InClass(st, c, k) && st.mem[c].linked)
  }

  ghost predicate ListsOf(st: State, k: nat)
    requires k < |st.free| && k < |st.lru| && k < |st.slCurr|
  {
    FreeOf(st, k) && LruOf(st, k)
  }

  ghost predicate Sized(cf: Config, st: State) {
    |st.free| == |st.lru| == |st.slabs| == |st.slCurr| == cf.largest + 1
  }

  ghost predicate Lists(cf: Config, st: State)
    requires Sized(cf, st)
  {
    forall k {:trigger ListsOf(st, k)} :: IsClass(cf, k) ==> ListsOf(st, k)
  }

  /** The hash table holds exactly the linked items, each under its key. */
  ghost predicate Table(st: State) {
    && (forall x :: x in st.table ==>
          st.table[x] in st.mem && st.mem[st.table[x]].linked && st.mem[st.table[x]].key == x)
    && (forall c :: c in st.mem && st.mem[c].linked ==> st.mem[c].key in st.table && st.table[st.mem[c].key] == c)
  }

  ghost predicate PagesOf(st: State, k: nat)
    requires k < |st.slabs|
  {
    && Distinct(st.slabs[k])
    && (forall p :: p in st.slabs[k] <==> p in st.owner && st.owner[p] == k)
  }

  ghost predicate Pages(cf: Config, st: State)
    requires Sized(cf, st)
  {
    forall k {:trigger PagesOf(st, k)} :: IsClass(cf, k) ==> PagesOf(st, k)
  }

  /** The mover: chunks it has passed in a pass without busy items are all marked, only chunks of
  its page are marked, and it is done only when it has passed the whole page that way. */
  ghost predicate Mover(cf: Config, st: State)
    requires Sized(cf, st)
  {
    var r := st.rebal;
    && r.signal <= 2
    && (r.signal < 2 ==> r.busy == 0 && !r.done && forall c :: c in st.mem ==> st.mem[c].clsid != MOVED)
    && (r.signal == 2 ==>
          && IsClass(cf, r.src) && IsClass(cf, r.dst) && r.src != r.dst
          && |st.slabs[r.src]| >= 2 && st.slabs[r.src][0] == r.page
          && (forall c :: c in st.mem && st.mem[c].clsid == MOVED ==> c.page == r.page)
          && (r.busy == 0 ==> Swept(st, r.pos))
          && (r.done ==> r.busy == 0 && r.pos >= PerSlab(cf, r.src))
          && (!r.done ==> r.pos < PerSlab(cf, r.src)))
  }

  /** All chunks of the mover's page before index n are marked. */
  ghost predicate Swept(st: State, n: nat) {
    forall c :: c in st.mem && c.page == st.rebal.page && c.index < n ==> st.mem[c].clsid == MOVED
  }

  ghost predicate Inv(cf: Config, st: State) {
    && Sized(cf, st)
    && Geometry(cf, st) && Headers(st)
    && Lists(cf, st) && Table(st) && Pages(cf, st)
    && Mover(cf, st)
  }

  // ----- The steps -----

  const FRESH := Header(0, 0, false, true, [], 0, 0)

  /** The order in which `split_slab_page_into_freelist` leaves the n chunks of a page. */
  function PageChunks(page: nat, n: nat): seq<Chunk> {
    if n == 0 then [] else [Chunk(page, n - 1)] + PageChunks(page, n - 1)
  }

  /** Memory with a page cleared and cut into n free chunks. */
  function WithPage(mem: map<Chunk, Header>, page: nat, n: nat): map<Chunk, Header> {
    (map c | c in mem && c.page != page :: mem[c]) + (map c | c in PageChunks(page, n) :: FRESH)
  }

  function SetFree(st: State, k: nat, list: seq<Chunk>): State
    requires k < |st.free| && k < |st.slCurr|
  {
    st.(free := st.free[k := list], slCurr := st.slCurr[k := st.slCurr[k] + |list| - |st.free[k]|])
  }

  function SetHeader(st: State, c: Chunk, h: Header): State {
    st.(mem := st.mem[c := h])
  }

  /** `do_item_unlink`: out of the hash table and the LRU list, dropping the link's reference. */
  function UnlinkItem(st: State, c: Chunk): State
    requires c in st.mem && (st.mem[c].linked ==> st.mem[c].clsid < |st.lru|)
  {
    var h := st.mem[c];
    if !h.linked then st
    else st.(mem := st.mem[c := h.(linked := false, refcount := h.refcount - 1)],
             table := st.table - {h.key},
             lru := st.lru[h.clsid := Drop(st.lru[h.clsid], c)])
  }

  /** `do_item_link`. */
  function LinkItem(st: State, c: Chunk): State
    requires c in st.mem && st.mem[c].clsid < |st.lru|
  {
    var h := st.mem[c];
    st.(mem := st.mem[c := h.(linked := true, refcount := h.refcount + 1)],
        table := st.table[h.key := c],
        lru := st.lru[h.clsid := [c] + st.lru[h.clsid]])
  }

  /** `do_item_remove` by a caller that holds a reference. */
  function ReleaseItem(st: State, c: Chunk): State
    requires c in st.mem
  {
    SetHeader(st, c, st.mem[c].(refcount := st.mem[c].refcount - 1, held := st.mem[c].held - 1))
  }

  /** `item_free` and `do_slabs_free`, for a chunk whose references are all gone: it goes to the
  free list of the class in its header, if that is a class at all. */
  function FreeItem(cf: Config, st: State, c: Chunk): State
    requires Sized(cf, st) && c in st.mem
  {
    var h, k := st.mem[c], st.mem[c].clsid;
    if !IsClass(cf, k) then SetHeader(st, c, h.(clsid := 0))
    else SetFree(SetHeader(st, c, h.(clsid := 0, slabbed := true)), k, [c] + st.free[k])
  }

  /** `slabs_clsid`: the first class whose chunks are large enough, 0 if there is none. */
  function ClassFor(cf: Config, size: nat, k: nat): (r: nat)
    requires ValidConfig(cf) && 1 <= k <= cf.largest
    ensures r == 0 || (k <= r <= cf.largest && cf.size[r] >= size)
    ensures forall j :: k <= j <= cf.largest && (j < r || r == 0) ==> cf.size[j] < size
    decreases cf.largest - k
  {
    if size <= cf.size[k] then k else if k == cf.largest then 0 else ClassFor(cf, size, k + 1)
  }

  method ComputeClass(cf: Config, size: nat) returns (r: nat)
    requires ValidConfig(cf)
    ensures r == if size == 0 then 0 else ClassFor(cf, size, 1)
  {
    if size == 0 {
      return 0;
    }
    r := 1;
    while size > cf.size[r]
      invariant 1 <= r <= cf.largest && ClassFor(cf, size, 1) == ClassFor(cf, size, r)
      decreases cf.largest - r
    {
      if r == cf.largest {
        return 0;
      }
      r := r + 1;
    }
  }

  /** `do_slabs_newslab`; `ok` says that the memory allocation succeeds, at address `page`. */
  function NewSlab(cf: Config, st: State, k: nat, page: nat, ok: bool): State
    requires Sized(cf, st) && IsClass(cf, k)
  {
    if !ok || (cf.limit != 0 && st.malloced + PageLen(cf, k) > cf.limit && |st.slabs[k]| > 0) then st
    else
      var n := PerSlab(cf, k);
      SetFree(st, k, PageChunks(page, n) + st.free[k])
        .(owner := st.owner[page := k], mem := WithPage(st.mem, page, n),
          slabs := st.slabs[k := st.slabs[k] + [page]], malloced := st.malloced + PageLen(cf, k))
  }

  /** What `do_item_alloc` does with the chunk it obtained: the caller holds the one reference. */
  function Take(st: State, c: Chunk, k: nat): State
    requires c in st.mem
  {
    SetHeader(st, c, st.mem[c].(refcount := 1, held := 1, pending := k))
  }

  /** What it does with an item it takes over: unlink it, clear its class, take it. */
  function Recycle(st: State, c: Chunk, k: nat): State
    requires c in st.mem && (st.mem[c].linked ==> st.mem[c].clsid < |st.lru|)
  {
    var st1 := UnlinkItem(st, c);
    Take(SetHeader(st1, c, st1.mem[c].(clsid := 0)), c, k)
  }

  /** `slabs_alloc` of a chunk of class k, then taken by the caller. */
  function SlabTake(cf: Config, st: State, k: nat, page: nat, ok: bool): (State, Option<Chunk>)
    requires Sized(cf, st) && IsClass(cf, k)
  {
    var st1 := if st.slCurr[k] != 0 then st else NewSlab(cf, st, k, page, ok);
    if st1.free[k] == [] || st1.free[k][0] !in st1.mem then (st1, None)
    else
      var c := st1.free[k][0];
      (Take(SetFree(st1, k, st1.free[k][1..]), c, k), Some(c))
  }

  /** What a step of the allocator may find: items whose lock is taken, items that are expired or
  flushed, whether eviction is on, and the memory the system hands out. */
  datatype Choice = Choice(locked: set<Chunk>, expired: set<Chunk>, evict: bool, page: nat, ok: bool)

  /** The walk up from the tail of a list: the last of its final `tries` elements that can be
  used. */
  function WalkUp<T>(list: seq<T>, usable: T -> bool, tries: nat): (r: Option<T>)
    ensures r.Some? ==> r.value in list && usable(r.value)
    decreases tries
  {
    if tries == 0 || list == [] then None
    else if usable(list[|list| - 1]) then Some(list[|list| - 1])
    else WalkUp(list[..|list| - 1], usable, tries - 1)
  }

  /** How far `do_item_alloc` walks. */
  const TRIES := 5

  /** The item `do_item_alloc` may recycle: not locked, and with no reference but the link's. */
  function Candidate(st: State, list: seq<Chunk>, locked: set<Chunk>): Option<Chunk> {
    WalkUp(list, c => c !in locked && c in st.mem && st.mem[c].refcount == 1, TRIES)
  }

  /** `do_item_alloc` for an item of ntotal bytes. */
  function AllocItem(cf: Config, st: State, ntotal: nat, ch: Choice): (State, Option<Chunk>)
    requires ValidConfig(cf) && Inv(cf, st)
  {
    var k := if ntotal == 0 then 0 else ClassFor(cf, ntotal, 1);
    if k == 0 then (st, None)
    else
      var slab := SlabTake(cf, st, k, ch.page, ch.ok);
      match Candidate(st, st.lru[k], ch.locked)
      case None => slab
      case Some(c) =>
        assert ListsOf(st, k);
        if c in ch.expired || (slab.1.None? && ch.evict) then (Recycle(st, c, k), Some(c))
        else slab
  }

  /** The frame of a chunk that is linked: its class number is that of its page. */
  lemma LinkedHasClass(cf: Config, st: State, c: Chunk)
    requires Inv(cf, st) && c in st.mem && st.mem[c].linked
    ensures st.mem[c].clsid == st.owner[c.page] && IsClass(cf, st.mem[c].clsid) && c in st.lru[st.mem[c].clsid]
  {
    assert GoodHeader(st.mem[c], st.owner[c.page]) && ListsOf(st, st.owner[c.page]);
  }

  /** `do_item_get`: a hit takes a reference, unless the item is in the page being moved or is
  expired or flushed (`dead`), in which case it is unlinked instead. */
  function GetItem(cf: Config, st: State, x: Key, dead: bool): (State, Option<Chunk>)
    requires Inv(cf, st)
  {
    if x !in st.table then (st, None)
    else
      var c := st.table[x];
      LinkedHasClass(cf, st, c);
      if dead || (st.rebal.signal == 2 && c.page == st.rebal.page) then (UnlinkItem(st, c), None)
      else (HoldItem(st, c), Some(c))
  }

  /** `do_item_update`: a linked item whose last use is long enough ago (`due`) moves to the head of
  its LRU list. */
  function UpdateItem(st: State, c: Chunk, due: bool): State
    requires c in st.mem && (st.mem[c].linked ==> st.mem[c].clsid < |st.lru|)
  {
    var k := st.mem[c].clsid;
    if due && st.mem[c].linked then st.(lru := st.lru[k := [c] + Drop(st.lru[k], c)]) else st
  }

  /** `slab_rebalance_start`. */
  function StartMove(cf: Config, st: State): State
    requires Sized(cf, st)
  {
    var r := st.rebal;
    if !IsClass(cf, r.src) || !IsClass(cf, r.dst) || r.src == r.dst || |st.slabs[r.src]| < 2
    then st.(rebal := r.(signal := 0))
    else st.(rebal := r.(page := st.slabs[r.src][0], pos := 0, done := false, signal := 2))
  }

  datatype MoveStatus = Pass | Done | Busy | Locked

  /** What the mover decides about a chunk, from its header and the outcome of its trylock. */
  function Decide(h: Header, locked: bool): MoveStatus {
    if h.clsid == MOVED then Pass
    else if locked then Locked
    else if h.refcount + 1 == 1 then (if h.slabbed then Done else Busy)
    else if h.refcount + 1 == 2 then (if h.linked then Done else Busy)
    else Busy
  }

  /** The mover is at work, on the chunk that `slab_pos` points at. */
  ghost predicate Moving(st: State) { st.rebal.signal == 2 && !st.rebal.done }

  function Cursor(st: State): Chunk { Chunk(st.rebal.page, st.rebal.pos) }

  lemma CursorIsChunk(cf: Config, st: State)
    requires Inv(cf, st) && Moving(st)
    ensures InClass(st, Cursor(st), st.rebal.src) && GoodHeader(st.mem[Cursor(st)], st.rebal.src)
    ensures IsClass(cf, st.rebal.src) && (st.mem[Cursor(st)].linked ==> st.mem[Cursor(st)].clsid == st.rebal.src)
  {
    assert PagesOf(st, st.rebal.src);
    assert st.slabs[st.rebal.src][0] in st.slabs[st.rebal.src];
  }

  /** One round of the loop in `slab_rebalance_move`. */
  function MoveChunk(cf: Config, st: State, locked: bool): State
    requires Inv(cf, st) && Moving(st)
  {
    CursorIsChunk(cf, st);
    var r := st.rebal;
    var c := Cursor(st);
    var h := st.mem[c];
    match Decide(h, locked)
    case Pass => st.(rebal := r.(pos := r.pos + 1))
    case Done =>
      var off := if h.refcount == 0 then SetFree(st, r.src, Drop(st.free[r.src], c)) else UnlinkItem(st, c);
      SetHeader(off, c, h.(clsid := MOVED, refcount := 0, linked := false, slabbed := false))
        .(rebal := r.(pos := r.pos + 1))
    case _ => st.(rebal := r.(pos := r.pos + 1, busy := r.busy + 1))
  }

  /** The end of `slab_rebalance_move`: start over, or done. */
  function EndPass(cf: Config, st: State): State {
    var r := st.rebal;
    if r.pos < PerSlab(cf, r.src) then st
    else if r.busy > 0 then st.(rebal := r.(pos := 0, busy := 0))
    else st.(rebal := r.(done := true))
  }

  /** `slab_rebalance_finish`. */
  function FinishMove(cf: Config, st: State): State
    requires Sized(cf, st) && IsClass(cf, st.rebal.src) && IsClass(cf, st.rebal.dst)
    requires st.rebal.src != st.rebal.dst && |st.slabs[st.rebal.src]| >= 1
  {
    var r := st.rebal;
    var pages, n := st.slabs[r.src], PerSlab(cf, r.dst);
    SetFree(st, r.dst, PageChunks(r.page, n) + st.free[r.dst])
      .(owner := st.owner[r.page := r.dst], mem := WithPage(st.mem, r.page, n),
        slabs := st.slabs[r.src := pages[0 := pages[|pages| - 1]][..|pages| - 1]][r.dst := st.slabs[r.dst] + [r.page]],
        rebal := Rebalance(0, 0, 0, 0, 0, 0, false))
  }

  // ----- One chunk changes -----

  lemma ListsAfterWrite(cf: Config, st: State, st': State, c: Chunk, k: nat)
    requires Sized(cf, st) && Sized(cf, st') && Lists(cf, st)
    requires InClass(st, c, k) && IsClass(cf, k) && st'.owner == st.owner
    requires c in st'.mem && st'.mem == st.mem[c := st'.mem[c]]
    requires st'.free == st.free[k := st'.free[k]] && st'.lru == st.lru[k := st'.lru[k]]
    requires st'.slCurr == st.slCurr[k := |st'.free[k]|]
    requires Distinct(st'.free[k]) && Distinct(st'.lru[k])
    requires forall d :: d in st'.free[k] <==> if d == c then IsFree(st'.mem[c]) else d in st.free[k]
    requires forall d :: d in st'.lru[k] <==> if d == c then st'.mem[c].linked else d in st.lru[k]
    ensures Lists(cf, st')
  {
    forall j | IsClass(cf, j) ensures ListsOf(st', j) {
      assert ListsOf(st, j);
    }
  }

  lemma MoverAfterWrite(cf: Config, st: State, st': State, c: Chunk)
    requires Sized(cf, st) && Sized(cf, st') && Mover(cf, st)
    requires st'.rebal == st.rebal && st'.slabs == st.slabs
    requires c in st.mem && c in st'.mem && st'.mem == st.mem[c := st'.mem[c]]
    requires st.mem[c].clsid != MOVED && st'.mem[c].clsid != MOVED
    ensures Mover(cf, st')
  {
    if st.rebal.signal == 2 && st.rebal.busy == 0 {
      assert Swept(st, st.rebal.pos);
      assert Swept(st', st.rebal.pos);
    }
  }

  /** The frame of every step by a client: one chunk of class k that is not being moved. */
  lemma WriteKeepsInv(cf: Config, st: State, st': State, c: Chunk, k: nat)
    requires Inv(cf, st) && Sized(cf, st')
    requires InClass(st, c, k) && st'.owner == st.owner && st'.slabs == st.slabs && st'.rebal == st.rebal
    requires c in st'.mem && st'.mem == st.mem[c := st'.mem[c]]
    requires st.mem[c].clsid != MOVED && st'.mem[c].clsid != MOVED
    requires GoodHeader(st'.mem[c], k)
    requires IsClass(cf, k)
    requires st'.free == st.free[k := st'.free[k]] && st'.lru == st.lru[k := st'.lru[k]]
    requires st'.slCurr == st.slCurr[k := |st'.free[k]|]
    requires Distinct(st'.free[k]) && Distinct(st'.lru[k])
    requires forall d :: d in st'.free[k] <==> if d == c then IsFree(st'.mem[c]) else d in st.free[k]
    requires forall d :: d in st'.lru[k] <==> if d == c then st'.mem[c].linked else d in st.lru[k]
    requires Table(st')
    ensures Inv(cf, st')
  {
    ListsAfterWrite(cf, st, st', c, k);
    MoverAfterWrite(cf, st, st', c);
    assert Geometry(cf, st');
    assert Headers(st');
    forall j | IsClass(cf, j) ensures PagesOf(st', j) {
      assert PagesOf(st, j);
    }
  }

  lemma UnlinkKeepsInv(cf: Config, st: State, c: Chunk)
    requires Inv(cf, st) && c in st.mem
    ensures st.mem[c].linked ==> st.mem[c].clsid == st.owner[c.page] && IsClass(cf, st.mem[c].clsid)
    ensures Inv(cf, UnlinkItem(st, c))
  {
    var k := st.owner[c.page];
    assert GoodHeader(st.mem[c], k);
    if st.mem[c].linked {
      assert ListsOf(st, k);
      DropIs(st.lru[k], c);
      WriteKeepsInv(cf, st, UnlinkItem(st, c), c, k);
    }
  }

  lemma LinkKeepsInv(cf: Config, st: State, c: Chunk)
    requires Inv(cf, st) && c in st.mem && st.mem[c].held >= 1 && st.mem[c].pending == 0
    requires !st.mem[c].linked && st.mem[c].key !in st.table
    ensures st.mem[c].clsid == st.owner[c.page] && IsClass(cf, st.mem[c].clsid) && !st.mem[c].slabbed
    ensures Inv(cf, LinkItem(st, c))
  {
    var k := st.owner[c.page];
    assert GoodHeader(st.mem[c], k) && ListsOf(st, k);
    WriteKeepsInv(cf, st, LinkItem(st, c), c, k);
  }

  /** Rewriting a header that stays off (or on) the same lists. */
  lemma HeaderKeepsInv(cf: Config, st: State, c: Chunk, h: Header)
    requires Inv(cf, st) && c in st.mem && GoodHeader(h, st.owner[c.page])
    requires st.mem[c].clsid != MOVED && h.clsid != MOVED
    requires h.linked == st.mem[c].linked && IsFree(h) == IsFree(st.mem[c])
    requires h.linked ==> h.key == st.mem[c].key
    ensures Inv(cf, SetHeader(st, c, h))
  {
    var k := st.owner[c.page];
    assert ListsOf(st, k);
    WriteKeepsInv(cf, st, SetHeader(st, c, h), c, k);
  }

  lemma FreeKeepsInv(cf: Config, st: State, c: Chunk)
    requires Inv(cf, st) && c in st.mem && IsDropped(st.mem[c])
    ensures IsClass(cf, st.owner[c.page])
    ensures Inv(cf, FreeItem(cf, st, c)) && c in FreeItem(cf, st, c).free[st.owner[c.page]]
  {
    var k := st.owner[c.page];
    assert GoodHeader(st.mem[c], k) && ListsOf(st, k);
    WriteKeepsInv(cf, st, FreeItem(cf, st, c), c, k);
  }

  lemma UpdateKeepsInv(cf: Config, st: State, c: Chunk, due: bool)
    requires Inv(cf, st) && c in st.mem
    ensures st.mem[c].linked ==> IsClass(cf, st.mem[c].clsid)
    ensures Inv(cf, UpdateItem(st, c, due))
  {
    var k := st.owner[c.page];
    assert GoodHeader(st.mem[c], k);
    if st.mem[c].linked {
      assert ListsOf(st, k);
      DropIs(st.lru[k], c);
      WriteKeepsInv(cf, st, UpdateItem(st, c, due), c, k);
    }
  }

  /** A caller takes one more reference to a linked item. */
  function HoldItem(st: State, c: Chunk): State
    requires c in st.mem
  {
    SetHeader(st, c, st.mem[c].(refcount := st.mem[c].refcount + 1, held := st.mem[c].held + 1))
  }

  lemma HoldKeepsInv(cf: Config, st: State, c: Chunk)
    requires Inv(cf, st) && c in st.mem && st.mem[c].linked
    ensures Inv(cf, HoldItem(st, c))
  {
    assert GoodHeader(st.mem[c], st.owner[c.page]);
    HeaderKeepsInv(cf, st, c, HoldItem(st, c).mem[c]);
  }

  lemma GetKeepsInv(cf: Config, st: State, x: Key, dead: bool)
    requires Inv(cf, st)
    ensures Inv(cf, GetItem(cf, st, x, dead).0)
  {
    if x in st.table {
      var c := st.table[x];
      if dead || (st.rebal.signal == 2 && c.page == st.rebal.page) {
        UnlinkKeepsInv(cf, st, c);
      } else {
        HoldKeepsInv(cf, st, c);
      }
    }
  }

  /** Taking the first chunk of a free list. */
  lemma PopKeepsInv(cf: Config, st: State, k: nat)
    requires Inv(cf, st) && IsClass(cf, k) && st.free[k] != []
    ensures var c := st.free[k][0];
            InClass(st, c, k) && IsFree(st.mem[c]) && Inv(cf, Take(SetFree(st, k, st.free[k][1..]), c, k))
  {
    assert ListsOf(st, k);
    var c, rest := st.free[k][0], st.free[k][1..];
    assert c in st.free[k];
    assert GoodHeader(st.mem[c], k);
    assert forall d :: d in st.free[k] <==> d == c || d in rest;
    WriteKeepsInv(cf, st, Take(SetFree(st, k, rest), c, k), c, k);
  }

  /** Recycling an item that only the link refers to. */
  lemma RecycleKeepsInv(cf: Config, st: State, c: Chunk, k: nat)
    requires Inv(cf, st) && IsClass(cf, k) && c in st.lru[k]
    requires c in st.mem && st.mem[c].refcount == 1
    ensures InClass(st, c, k) && st.mem[c].linked && st.mem[c].held == 0 && st.mem[c].clsid == k
    ensures Inv(cf, Recycle(st, c, k))
  {
    assert ListsOf(st, k);
    assert GoodHeader(st.mem[c], k);
    UnlinkKeepsInv(cf, st, c);
    var mid := UnlinkItem(st, c);
    assert GoodHeader(mid.mem[c], k);
    HeaderKeepsInv(cf, mid, c, Recycle(st, c, k).mem[c]);
    assert Recycle(st, c, k).mem == mid.mem[c := Recycle(st, c, k).mem[c]];
  }

  // ----- A whole page changes -----

  lemma {:induction false} PageChunksAre(page: nat, n: nat)
    ensures |PageChunks(page, n)| == n && Distinct(PageChunks(page, n))
    ensures forall c :: c in PageChunks(page, n) <==> c.page == page && c.index < n
  {
    if n > 0 {
      PageChunksAre(page, n - 1);
      var rest := PageChunks(page, n - 1);
      assert PageChunks(page, n) == [Chunk(page, n - 1)] + rest;
      forall j | 0 <= j < |rest| ensures rest[j] != Chunk(page, n - 1) {
        assert rest[j] in rest;
      }
    }
  }

  lemma WithPageIs(mem: map<Chunk, Header>, page: nat, n: nat)
    ensures forall c :: c in WithPage(mem, page, n) <==> if c.page == page then c.index < n else c in mem
    ensures forall c :: c in WithPage(mem, page, n) ==>
              WithPage(mem, page, n)[c] == if c.page == page then FRESH else mem[c]
  {
    PageChunksAre(page, n);
  }

  /** Giving a cleared page to class k: a new one, or one whose chunks are all marked. */
  ghost predicate PageGiven(cf: Config, st: State, st': State, page: nat, k: nat) {
    && Sized(cf, st) && Sized(cf, st') && IsClass(cf, k)
    && (page in st.owner ==> st.owner[page] != k)
    && (forall c :: c in st.mem && c.page == page ==> st.mem[c].clsid == MOVED)
    && st'.owner == st.owner[page := k] && st'.mem == WithPage(st.mem, page, PerSlab(cf, k))
    && st'.lru == st.lru && st'.table == st.table
    && st'.free == st.free[k := PageChunks(page, PerSlab(cf, k)) + st.free[k]]
    && st'.slCurr == st.slCurr[k := |st'.free[k]|]
  }

  lemma MarkedIsIdle(st: State, page: nat)
    requires Headers(st) && forall c :: c in st.mem && c.page == page ==> st.mem[c].clsid == MOVED
    ensures forall c :: c in st.mem && c.page == page ==> !IsFree(st.mem[c]) && !st.mem[c].linked
  {
    forall c | c in st.mem && c.page == page ensures !IsFree(st.mem[c]) && !st.mem[c].linked {
      assert GoodHeader(st.mem[c], st.owner[page]);
    }
  }

  lemma PageKeepsFree(cf: Config, st: State, st': State, page: nat, k: nat)
    requires Inv(cf, st) && PageGiven(cf, st, st', page, k)
    ensures FreeOf(st', k)
  {
    WithPageIs(st.mem, page, PerSlab(cf, k));
    PageChunksAre(page, PerSlab(cf, k));
    assert ListsOf(st, k);
    var added, list := PageChunks(page, PerSlab(cf, k)), st'.free[k];
    forall c ensures c in list <==> InClass(st', c, k) && IsFree(st'.mem[c]) {
      assert c in list <==> c in added || c in st.free[k];
    }
    forall a, b | 0 <= a < b < |list| ensures list[a] != list[b] {
      if a < |added| <= b {
        assert list[a] in added && list[b] in st.free[k];
      }
    }
  }

  lemma PageKeepsLru(cf: Config, st: State, st': State, page: nat, k: nat, j: nat)
    requires Inv(cf, st) && PageGiven(cf, st, st', page, k) && IsClass(cf, j)
    ensures LruOf(st', j)
  {
    WithPageIs(st.mem, page, PerSlab(cf, k));
    MarkedIsIdle(st, page);
    assert ListsOf(st, j);
  }

  lemma PageKeepsOtherFree(cf: Config, st: State, st': State, page: nat, k: nat, j: nat)
    requires Headers(st) && PageGiven(cf, st, st', page, k) && IsClass(cf, j) && j != k && FreeOf(st, j)
    ensures FreeOf(st', j)
  {
    PageFrame(cf, st, st', page, k);
    MarkedIsIdle(st, page);
    forall c ensures c in st'.free[j] <==> InClass(st', c, j) && IsFree(st'.mem[c]) {
      assert c in st.free[j] <==> InClass(st, c, j) && IsFree(st.mem[c]);
    }
  }

  lemma PageKeepsLists(cf: Config, st: State, st': State, page: nat, k: nat)
    requires Inv(cf, st) && PageGiven(cf, st, st', page, k)
    ensures Lists(cf, st')
  {
    PageKeepsFree(cf, st, st', page, k);
    forall j | IsClass(cf, j) ensures ListsOf(st', j) {
      PageKeepsLru(cf, st, st', page, k, j);
      if j != k {
        assert ListsOf(st, j);
        PageKeepsOtherFree(cf, st, st', page, k, j);
      }
    }
  }

  /** The page's chunks are fresh, the others are untouched. */
  lemma PageFrame(cf: Config, st: State, st': State, page: nat, k: nat)
    requires PageGiven(cf, st, st', page, k)
    ensures forall c :: c in st'.mem <==> if c.page == page then c.index < PerSlab(cf, k) else c in st.mem
    ensures forall c :: c in st'.mem && c.page == page ==> st'.mem[c] == FRESH
    ensures forall c :: c in st'.mem && c.page != page ==> c in st.mem && st'.mem[c] == st.mem[c]
  {
    WithPageIs(st.mem, page, PerSlab(cf, k));
  }

  lemma PageKeepsHeaders(cf: Config, st: State, st': State, page: nat, k: nat)
    requires Geometry(cf, st) && Headers(st) && PageGiven(cf, st, st', page, k)
    ensures Geometry(cf, st') && Headers(st')
  {
    PageFrame(cf, st, st', page, k);
    PageKeepsGeometry(cf, st, st', page, k);
    forall c | c in st'.mem ensures c.page in st'.owner && GoodHeader(st'.mem[c], st'.owner[c.page]) {
      if c.page != page { assert c in st.mem && st'.owner[c.page] == st.owner[c.page]; }
    }
  }

  lemma PageKeepsGeometry(cf: Config, st: State, st': State, page: nat, k: nat)
    requires Geometry(cf, st) && PageGiven(cf, st, st', page, k)
    ensures Geometry(cf, st')
  {
    PageFrame(cf, st, st', page, k);
  }

  lemma PageKeepsTable(cf: Config, st: State, st': State, page: nat, k: nat)
    requires Headers(st) && Table(st) && PageGiven(cf, st, st', page, k)
    ensures Table(st')
  {
    PageFrame(cf, st, st', page, k);
    forall c | c in st.mem && c.page == page ensures !st.mem[c].linked {
      assert GoodHeader(st.mem[c], st.owner[page]);
    }
  }

  lemma PageKeepsRest(cf: Config, st: State, st': State, page: nat, k: nat)
    requires Inv(cf, st) && PageGiven(cf, st, st', page, k)
    ensures Geometry(cf, st') && Headers(st') && Table(st')
    ensures forall c :: c in st'.mem && c.page == page ==> st'.mem[c] == FRESH
    ensures forall c :: c in st'.mem && c.page != page ==> c in st.mem && st'.mem[c] == st.mem[c]
  {
    PageFrame(cf, st, st', page, k);
    PageKeepsHeaders(cf, st, st', page, k);
    PageKeepsTable(cf, st, st', page, k);
  }

  lemma NewSlabGivesPage(cf: Config, st: State, k: nat, page: nat, ok: bool)
    requires Inv(cf, st) && IsClass(cf, k) && page !in st.owner && NewSlab(cf, st, k, page, ok) != st
    ensures PageGiven(cf, st, NewSlab(cf, st, k, page, ok), page, k)
  {
    assert ListsOf(st, k) && FreeOf(st, k);
    assert forall c :: c in st.mem ==> c.page != page;
  }

  lemma NewSlabKeepsInv(cf: Config, st: State, k: nat, page: nat, ok: bool)
    requires ValidConfig(cf) && Inv(cf, st) && IsClass(cf, k) && page !in st.owner
    ensures Inv(cf, NewSlab(cf, st, k, page, ok))
  {
    var st' := NewSlab(cf, st, k, page, ok);
    if st' != st {
      NewSlabGivesPage(cf, st, k, page, ok);
      PageKeepsLists(cf, st, st', page, k);
      PageKeepsRest(cf, st, st', page, k);
      NewPages(cf, st, st', page, k);
      MoverIgnoresPage(cf, st, st', page);
    }
  }

  lemma NewPages(cf: Config, st: State, st': State, page: nat, k: nat)
    requires Sized(cf, st) && Sized(cf, st') && Pages(cf, st) && IsClass(cf, k) && page !in st.owner
    requires st'.owner == st.owner[page := k] && st'.slabs == st.slabs[k := st.slabs[k] + [page]]
    ensures Pages(cf, st')
  {
    forall j | IsClass(cf, j) ensures PagesOf(st', j) {
      assert PagesOf(st, j);
    }
  }

  lemma MoverIgnoresPage(cf: Config, st: State, st': State, page: nat)
    requires Inv(cf, st) && Sized(cf, st') && page !in st.owner && st'.rebal == st.rebal
    requires forall k :: IsClass(cf, k) ==> st.slabs[k] <= st'.slabs[k]
    requires forall c :: c in st'.mem && c.page == page ==> st'.mem[c] == FRESH
    requires forall c :: c in st'.mem && c.page != page ==> c in st.mem && st'.mem[c] == st.mem[c]
    ensures Mover(cf, st')
  {
    var r := st.rebal;
    if r.signal == 2 {
      assert PagesOf(st, r.src);
      assert st.slabs[r.src][0] in st.slabs[r.src];
      if r.busy == 0 {
        assert Swept(st, r.pos);
        assert Swept(st', r.pos);
      }
    }
  }

  /** A new page has a free chunk, and no other chunk changes. */
  lemma NewSlabFrame(cf: Config, st: State, k: nat, page: nat, ok: bool)
    requires ValidConfig(cf) && Sized(cf, st) && Geometry(cf, st) && IsClass(cf, k) && page !in st.owner
    ensures var st' := NewSlab(cf, st, k, page, ok);
            && (st' != st ==> |st'.free| > k && st'.free[k] != [])
            && forall c :: c in st.mem ==> c in st'.mem && st'.mem[c] == st.mem[c]
  {
    PageChunksAre(page, PerSlab(cf, k));
    WithPageIs(st.mem, page, PerSlab(cf, k));
  }

  lemma SlabTakeKeepsInv(cf: Config, st: State, k: nat, page: nat, ok: bool)
    requires ValidConfig(cf) && Inv(cf, st) && IsClass(cf, k) && page !in st.owner
    ensures Inv(cf, SlabTake(cf, st, k, page, ok).0)
    ensures var (st', c) := SlabTake(cf, st, k, page, ok);
            && (c.Some? ==> Taken(st', c.value, k) && (c.value in st.mem ==> IsFree(st.mem[c.value])))
            && (c.None? ==> st' == st)
  {
    NewSlabKeepsInv(cf, st, k, page, ok);
    NewSlabFrame(cf, st, k, page, ok);
    var st1 := if st.slCurr[k] != 0 then st else NewSlab(cf, st, k, page, ok);
    if st1.free[k] != [] {
      PopKeepsInv(cf, st1, k);
    }
  }

  /** A chunk of class k that has just been handed to a caller, who holds the one reference. */
  ghost predicate Taken(st: State, c: Chunk, k: nat) {
    InClass(st, c, k) && st.mem[c].refcount == 1 && st.mem[c].held == 1 && !st.mem[c].linked
  }

  /** An allocation either takes a chunk from the slabs or recycles an item of the same class
  that only the link refers to. */
  lemma AllocCases(cf: Config, st: State, ntotal: nat, ch: Choice) returns (k: nat)
    requires ValidConfig(cf) && Inv(cf, st)
    ensures k == 0 ==> AllocItem(cf, st, ntotal, ch) == (st, None)
    ensures k != 0 ==> IsClass(cf, k) && cf.size[k] >= ntotal && k == ClassFor(cf, ntotal, 1)
    ensures var (st', r) := AllocItem(cf, st, ntotal, ch);
            k != 0 ==>
              || (st', r) == SlabTake(cf, st, k, ch.page, ch.ok)
              || (r.Some? && r.value in st.lru[k] && r.value in st.mem && st.mem[r.value].refcount == 1
                  && (st.mem[r.value].linked ==> st.mem[r.value].clsid < |st.lru|)
                  && st' == Recycle(st, r.value, k))
  {
    k := if ntotal == 0 then 0 else ClassFor(cf, ntotal, 1);
    if k != 0 {
      assert ListsOf(st, k);
      var r := Candidate(st, st.lru[k], ch.locked);
      assert r.Some? ==> r.value in st.lru[k] && r.value in st.mem && st.mem[r.value].refcount == 1;
    }
  }

  lemma AllocKeepsInv(cf: Config, st: State, ntotal: nat, ch: Choice)
    requires ValidConfig(cf) && Inv(cf, st) && ch.page !in st.owner
    ensures Inv(cf, AllocItem(cf, st, ntotal, ch).0)
  {
    var k := AllocCases(cf, st, ntotal, ch);
    if k != 0 {
      var (st', r) := AllocItem(cf, st, ntotal, ch);
      if (st', r) == SlabTake(cf, st, k, ch.page, ch.ok) {
        SlabTakeKeepsInv(cf, st, k, ch.page, ch.ok);
      } else {
        RecycleKeepsInv(cf, st, r.value, k);
      }
    }
  }

  /** `do_item_alloc` hands out a chunk at least as large as asked for, and one that nobody else
  holds: it was free, or freshly allocated, or linked with no reference but the link's. When it
  hands out nothing, nothing has changed. */
  lemma AllocIsSafe(cf: Config, st: State, ntotal: nat, ch: Choice)
    requires ValidConfig(cf) && Inv(cf, st) && ch.page !in st.owner
    ensures var (st', r) := AllocItem(cf, st, ntotal, ch);
            && (r.None? ==> st' == st)
            && (r.Some? ==>
                  && (exists k :: IsClass(cf, k) && cf.size[k] >= ntotal && Taken(st', r.value, k))
                  && (r.value in st.mem ==> st.mem[r.value].held == 0 && st.mem[r.value].clsid != MOVED))
  {
    var k := AllocCases(cf, st, ntotal, ch);
    if k != 0 {
      var (st', r) := AllocItem(cf, st, ntotal, ch);
      if r.Some? && r.value in st.mem {
        assert GoodHeader(st.mem[r.value], st.owner[r.value.page]);
      }
      if (st', r) == SlabTake(cf, st, k, ch.page, ch.ok) {
        SlabTakeKeepsInv(cf, st, k, ch.page, ch.ok);
        assert r.Some? ==> Taken(st', r.value, k);
      } else {
        RecycleKeepsInv(cf, st, r.value, k);
        assert Taken(st', r.value, k);
      }
    }
  }

  // ----- The page mover -----

  lemma MoverOnly(cf: Config, st: State, r: Rebalance)
    requires Inv(cf, st) && Mover(cf, st.(rebal := r))
    ensures Inv(cf, st.(rebal := r))
  {
    RebalKeepsLists(cf, st, r);
    RebalKeepsRest(cf, st, r);
  }

  lemma StartKeepsInv(cf: Config, st: State)
    requires ValidConfig(cf) && Inv(cf, st) && st.rebal.signal == 1
    ensures Inv(cf, StartMove(cf, st))
  {
    MoverOnly(cf, st, StartMove(cf, st).rebal);
  }

  lemma MarkKeepsLists(cf: Config, st: State, locked: bool)
    requires Inv(cf, st) && Moving(st)
    ensures var st' := MoveChunk(cf, st, locked);
            Sized(cf, st') && Lists(cf, st') && Table(st')
  {
    CursorIsChunk(cf, st);
    if Decide(st.mem[Cursor(st)], locked) == Done {
      DoneKeepsLists(cf, st, locked);
    } else {
      SameLists(cf, st, MoveChunk(cf, st, locked));
    }
  }

  lemma DoneKeepsLists(cf: Config, st: State, locked: bool)
    requires Inv(cf, st) && Moving(st) && Cursor(st) in st.mem && Decide(st.mem[Cursor(st)], locked) == Done
    ensures var st' := MoveChunk(cf, st, locked);
            Sized(cf, st') && Lists(cf, st') && Table(st')
  {
    CursorIsChunk(cf, st);
    var k, c := st.rebal.src, Cursor(st);
    assert ListsOf(st, k);
    DropIs(st.free[k], c);
    DropIs(st.lru[k], c);
    ListsAfterWrite(cf, st, MoveChunk(cf, st, locked), c, k);
  }

  lemma SameLists(cf: Config, st: State, st': State)
    requires Sized(cf, st) && Lists(cf, st) && Table(st)
    requires st' == st.(rebal := st'.rebal)
    ensures Sized(cf, st') && Lists(cf, st') && Table(st')
  {
    forall j | IsClass(cf, j) ensures ListsOf(st', j) {
      assert ListsOf(st, j);
    }
  }

  lemma MoveChunkFrame(cf: Config, st: State, locked: bool)
    requires Inv(cf, st) && Moving(st)
    ensures Cursor(st) in st.mem
    ensures var st', h, r := MoveChunk(cf, st, locked), st.mem[Cursor(st)], st.rebal;
            && Sized(cf, st') && st'.owner == st.owner && st'.slabs == st.slabs
            && (match Decide(h, locked)
                case Pass => st'.mem == st.mem && st'.rebal == r.(pos := r.pos + 1)
                case Done =>
                  var h' := h.(clsid := MOVED, refcount := 0, linked := false, slabbed := false);
                  st'.mem == st.mem[Cursor(st) := h']
                             && st'.rebal == r.(pos := r.pos + 1)
                case _ => st'.mem == st.mem && st'.rebal == r.(pos := r.pos + 1, busy := r.busy + 1))
  {
    CursorIsChunk(cf, st);
  }

  lemma SamePagesOf(cf: Config, st: State, st': State)
    requires Sized(cf, st) && Sized(cf, st') && Pages(cf, st) && st'.owner == st.owner && st'.slabs == st.slabs
    ensures Pages(cf, st')
  {
    forall j | IsClass(cf, j) ensures PagesOf(st', j) {
      assert PagesOf(st, j);
    }
  }

  lemma MarkKeepsRest(cf: Config, st: State, locked: bool)
    requires Inv(cf, st) && Moving(st)
    ensures var st' := MoveChunk(cf, st, locked);
            && Sized(cf, st') && Geometry(cf, st') && Headers(st') && Pages(cf, st')
            && (forall c :: c in st'.mem && st'.mem[c].clsid == MOVED ==> c.page == st'.rebal.page)
  {
    CursorIsChunk(cf, st);
    MoveChunkFrame(cf, st, locked);
    var st', c := MoveChunk(cf, st, locked), Cursor(st);
    assert c in st'.mem && GoodHeader(st'.mem[c], st.rebal.src);
    SamePagesOf(cf, st, st');
  }

  /** A pass without a busy chunk leaves everything behind it marked. */
  lemma MarkSweeps(cf: Config, st: State, locked: bool)
    requires Inv(cf, st) && Moving(st)
    ensures var st' := MoveChunk(cf, st, locked);
            st'.rebal.busy == 0 ==> Swept(st', st'.rebal.pos)
  {
    MoveChunkFrame(cf, st, locked);
    var st', c := MoveChunk(cf, st, locked), Cursor(st);
    if st'.rebal.busy == 0 {
      assert Swept(st, st.rebal.pos);
      forall d | d in st'.mem && d.page == st'.rebal.page && d.index < st'.rebal.pos ensures st'.mem[d].clsid == MOVED {
        assert d == c || d.index < st.rebal.pos;
      }
    }
  }

  lemma RebalKeepsLists(cf: Config, st: State, r: Rebalance)
    requires Sized(cf, st) && Lists(cf, st) && Pages(cf, st)
    ensures Lists(cf, st.(rebal := r)) && Pages(cf, st.(rebal := r))
  {
    var st' := st.(rebal := r);
    forall j | IsClass(cf, j) ensures ListsOf(st', j) && PagesOf(st', j) {
      assert ListsOf(st, j) && PagesOf(st, j);
    }
  }

  lemma RebalKeepsRest(cf: Config, st: State, r: Rebalance)
    requires Geometry(cf, st) && Headers(st) && Table(st)
    ensures Geometry(cf, st.(rebal := r)) && Headers(st.(rebal := r)) && Table(st.(rebal := r))
  {
  }

  /** The end of a pass touches only the mover. */
  lemma EndPassKeepsInv(cf: Config, st: State)
    requires Sized(cf, st) && Geometry(cf, st) && Headers(st) && Lists(cf, st) && Table(st) && Pages(cf, st)
    requires Mover(cf, EndPass(cf, st))
    ensures Inv(cf, EndPass(cf, st))
  {
    RebalKeepsLists(cf, st, EndPass(cf, st).rebal);
    RebalKeepsRest(cf, st, EndPass(cf, st).rebal);
    assert EndPass(cf, st) == st.(rebal := EndPass(cf, st).rebal);
  }

  lemma MoveKeepsMover(cf: Config, st: State, locked: bool)
    requires Inv(cf, st) && Moving(st)
    ensures Sized(cf, MoveChunk(cf, st, locked)) && Mover(cf, EndPass(cf, MoveChunk(cf, st, locked)))
  {
    MarkKeepsRest(cf, st, locked);
    MarkSweeps(cf, st, locked);
    MoveChunkFrame(cf, st, locked);
    var st1 := MoveChunk(cf, st, locked);
    assert st1.rebal.busy == 0 ==> Swept(EndPass(cf, st1), st1.rebal.pos);
  }

  lemma MoveKeepsInv(cf: Config, st: State, locked: bool)
    requires Inv(cf, st) && Moving(st)
    ensures Inv(cf, EndPass(cf, MoveChunk(cf, st, locked)))
  {
    MarkKeepsLists(cf, st, locked);
    MarkKeepsRest(cf, st, locked);
    MoveKeepsMover(cf, st, locked);
    EndPassKeepsInv(cf, MoveChunk(cf, st, locked));
  }

  /** `slab_rebalance_move`: up to |locked| chunks under one hold of the locks. */
  function MovePass(cf: Config, st: State, locked: seq<bool>): State
    requires Inv(cf, st) && Moving(st)
    decreases |locked|
  {
    if locked == [] then st
    else
      MoveKeepsInv(cf, st, locked[0]);
      var st' := EndPass(cf, MoveChunk(cf, st, locked[0]));
      if MoveChunk(cf, st, locked[0]).rebal.pos >= PerSlab(cf, st.rebal.src) then st'
      else MovePass(cf, st', locked[1..])
  }

  lemma {:induction false} MovePassKeepsInv(cf: Config, st: State, locked: seq<bool>)
    requires Inv(cf, st) && Moving(st)
    ensures Inv(cf, MovePass(cf, st, locked))
    decreases |locked|
  {
    if locked != [] {
      MoveKeepsInv(cf, st, locked[0]);
      var st1 := MoveChunk(cf, st, locked[0]);
      if st1.rebal.pos < PerSlab(cf, st.rebal.src) {
        MovePassKeepsInv(cf, EndPass(cf, st1), locked[1..]);
      }
    }
  }

  lemma FinishedPages(cf: Config, st: State, st': State)
    requires Inv(cf, st) && st.rebal.signal == 2 && st' == FinishMove(cf, st)
    ensures Pages(cf, st')
  {
    var r, pages := st.rebal, st.slabs[st.rebal.src];
    assert PagesOf(st, r.src) && PagesOf(st, r.dst);
    var rest, n := pages[0 := pages[|pages| - 1]][..|pages| - 1], |pages| - 1;
    assert pages[0] in pages;
    forall p ensures p in rest <==> p in pages && p != r.page {
      if p in pages && p != r.page {
        var i :| 0 <= i < |pages| && pages[i] == p;
        assert rest[if i == n then 0 else i] == p;
      }
      if p in rest {
        var i :| 0 <= i < |rest| && rest[i] == p;
        assert pages[if i == 0 then n else i] == p;
      }
    }
    assert Distinct(rest);
    forall j | IsClass(cf, j) ensures PagesOf(st', j) {
      assert PagesOf(st, j);
      if j == r.dst {
        assert r.page !in st.slabs[r.dst];
      }
    }
  }

  lemma DonePageIsMarked(cf: Config, st: State, c: Chunk)
    requires Inv(cf, st) && st.rebal.signal == 2 && st.rebal.done && c in st.mem && c.page == st.rebal.page
    ensures st.mem[c].clsid == MOVED
  {
    assert PagesOf(st, st.rebal.src);
    assert st.slabs[st.rebal.src][0] in st.slabs[st.rebal.src];
    assert Swept(st, st.rebal.pos);
  }

  lemma FinishGivesPage(cf: Config, st: State)
    requires ValidConfig(cf) && Inv(cf, st) && st.rebal.signal == 2 && st.rebal.done
    ensures PageGiven(cf, st, FinishMove(cf, st), st.rebal.page, st.rebal.dst)
  {
    MovedPageIsOwned(cf, st);
    forall c | c in st.mem && c.page == st.rebal.page ensures st.mem[c].clsid == MOVED {
      DonePageIsMarked(cf, st, c);
    }
    FinishIsGiving(cf, st);
  }

  lemma MovedPageIsOwned(cf: Config, st: State)
    requires Inv(cf, st) && st.rebal.signal == 2
    ensures var r := st.rebal;
            && IsClass(cf, r.src) && IsClass(cf, r.dst) && r.src != r.dst && |st.slabs[r.src]| >= 2
            && r.page in st.owner && st.owner[r.page] == r.src && st.slCurr[r.dst] == |st.free[r.dst]|
  {
    var r := st.rebal;
    assert ListsOf(st, r.dst) && FreeOf(st, r.dst) && PagesOf(st, r.src);
    assert st.slabs[r.src][0] in st.slabs[r.src];
  }

  lemma FinishIsGiving(cf: Config, st: State)
    requires Sized(cf, st) && IsClass(cf, st.rebal.src) && IsClass(cf, st.rebal.dst)
    requires st.rebal.src != st.rebal.dst && |st.slabs[st.rebal.src]| >= 2
    requires st.rebal.page in st.owner && st.owner[st.rebal.page] == st.rebal.src
    requires st.slCurr[st.rebal.dst] == |st.free[st.rebal.dst]|
    requires forall c :: c in st.mem && c.page == st.rebal.page ==> st.mem[c].clsid == MOVED
    ensures PageGiven(cf, st, FinishMove(cf, st), st.rebal.page, st.rebal.dst)
  {
  }

  lemma FinishKeepsInv(cf: Config, st: State)
    requires ValidConfig(cf) && Inv(cf, st) && st.rebal.signal == 2 && st.rebal.done
    ensures Inv(cf, FinishMove(cf, st))
  {
    var st', r := FinishMove(cf, st), st.rebal;
    FinishGivesPage(cf, st);
    PageKeepsLists(cf, st, st', r.page, r.dst);
    PageKeepsRest(cf, st, st', r.page, r.dst);
    FinishedPages(cf, st, st');
  }

  // ----- Runs -----

  datatype Step =
    | Alloc(ntotal: nat, choice: Choice)
    | Init(chunk: Chunk, key: Key)        // the caller fills in the header of a new item
    | Link(chunk: Chunk)
    | Unlink(chunk: Chunk)                // by a caller that holds the item
    | Expunge(chunk: Chunk)               // by a flush, which holds nothing
    | Release(chunk: Chunk)
    | Free(chunk: Chunk)                  // the second half of a release that found zero
    | Get(x: Key, dead: bool)
    | Update(chunk: Chunk, due: bool)
    | Request(src: nat, dst: nat)         // `do_slabs_reassign`
    | Start
    | Move(locked: seq<bool>)
    | Finish

  ghost predicate Holds(st: State, c: Chunk) {
    c in st.mem && st.mem[c].held >= 1 && st.mem[c].pending == 0
  }

  ghost predicate Enabled(cf: Config, st: State, step: Step)
    requires Sized(cf, st)
  {
    match step
    case Alloc(_, ch) => ch.page !in st.owner
    case Init(c, _) => c in st.mem && st.mem[c].pending != 0
    case Link(c) => Holds(st, c) && !st.mem[c].linked && st.mem[c].key !in st.table
    case Unlink(c) => Holds(st, c)
    case Expunge(c) => c in st.mem && st.mem[c].linked
    case Release(c) => Holds(st, c)
    case Free(c) => c in st.mem && IsDropped(st.mem[c])
    case Get(_, _) => true
    case Update(c, _) => Holds(st, c)
    case Request(src, dst) =>
      && cf.reassign && st.rebal.signal == 0
      && src != dst && IsClass(cf, src) && IsClass(cf, dst) && |st.slabs[src]| >= 2
    case Start => st.rebal.signal == 1
    case Move(locked) => Moving(st)
    case Finish => st.rebal.signal == 2 && st.rebal.done
  }

  lemma HeldHasClass(cf: Config, st: State, c: Chunk)
    requires Inv(cf, st) && c in st.mem
    ensures IsClass(cf, st.owner[c.page])
    ensures st.mem[c].linked || Holds(st, c) ==> st.mem[c].clsid == st.owner[c.page] && !st.mem[c].slabbed
  {
    assert GoodHeader(st.mem[c], st.owner[c.page]);
  }

  function Next(cf: Config, st: State, step: Step): State
    requires ValidConfig(cf) && Inv(cf, st) && Enabled(cf, st, step)
  {
    match step
    case Alloc(ntotal, ch) => AllocItem(cf, st, ntotal, ch).0
    case Init(c, key) =>
      SetHeader(st, c, st.mem[c].(clsid := st.mem[c].pending, slabbed := false, key := key, pending := 0))
    case Link(c) => HeldHasClass(cf, st, c); LinkItem(st, c)
    case Unlink(c) => HeldHasClass(cf, st, c); UnlinkItem(st, c)
    case Expunge(c) => HeldHasClass(cf, st, c); UnlinkItem(st, c)
    case Release(c) => ReleaseItem(st, c)
    case Free(c) => HeldHasClass(cf, st, c); FreeItem(cf, st, c)
    case Get(x, dead) => GetItem(cf, st, x, dead).0
    case Update(c, due) => HeldHasClass(cf, st, c); UpdateItem(st, c, due)
    case Request(src, dst) => st.(rebal := st.rebal.(signal := 1, src := src, dst := dst))
    case Start => StartMove(cf, st)
    case Move(locked) => MovePass(cf, st, locked)
    case Finish => FinishMove(cf, st)
  }

  /** Steps that touch one item. */
  predicate IsItemStep(step: Step) {
    step.Init? || step.Link? || step.Unlink? || step.Expunge? || step.Release? || step.Free? || step.Update?
  }

  lemma ItemStepKeepsInv(cf: Config, st: State, step: Step)
    requires ValidConfig(cf) && Inv(cf, st) && Enabled(cf, st, step) && IsItemStep(step)
    ensures Inv(cf, Next(cf, st, step))
  {
    var c := step.chunk;
    assert GoodHeader(st.mem[c], st.owner[c.page]);
    if step.Link? {
      LinkKeepsInv(cf, st, c);
    } else if step.Unlink? || step.Expunge? {
      UnlinkKeepsInv(cf, st, c);
    } else if step.Free? {
      FreeKeepsInv(cf, st, c);
    } else if step.Update? {
      UpdateKeepsInv(cf, st, c, step.due);
    } else {
      HeaderKeepsInv(cf, st, c, Next(cf, st, step).mem[c]);
    }
  }

  lemma NextKeepsInv(cf: Config, st: State, step: Step)
    requires ValidConfig(cf) && Inv(cf, st) && Enabled(cf, st, step)
    ensures Inv(cf, Next(cf, st, step))
  {
    if IsItemStep(step) {
      ItemStepKeepsInv(cf, st, step);
    } else if step.Alloc? {
      AllocKeepsInv(cf, st, step.ntotal, step.choice);
    } else if step.Get? {
      GetKeepsInv(cf, st, step.x, step.dead);
    } else if step.Request? {
      MoverOnly(cf, st, Next(cf, st, step).rebal);
    } else if step.Start? {
      StartKeepsInv(cf, st);
    } else if step.Move? {
      MovePassKeepsInv(cf, st, step.locked);
    } else {
      FinishKeepsInv(cf, st);
    }
  }

  function Initial(cf: Config): State {
    var n := cf.largest + 1;
    State(map[], map[], Blank(n), seq(n, _ => 0), Blank(n), Blank(n), map[], 0, Rebalance(0, 0, 0, 0, 0, 0, false))
  }

  lemma InitialInv(cf: Config)
    ensures Inv(cf, Initial(cf))
  {
    var st := Initial(cf);
    forall k | IsClass(cf, k) ensures ListsOf(st, k) && PagesOf(st, k) {}
  }

  /** One step of a run. Steps are defined on states that satisfy the invariant, which
  `RunKeepsInv` shows to be all states of a run. */
  ghost predicate Takes(cf: Config, st: State, step: Step, st': State)
    requires ValidConfig(cf)
  {
    Inv(cf, st) ==> Enabled(cf, st, step) && st' == Next(cf, st, step)
  }

  ghost predicate IsRun(cf: Config, steps: seq<Step>, states: seq<State>)
    requires ValidConfig(cf)
  {
    && |states| == |steps| + 1
    && states[0] == Initial(cf)
    && forall i :: 0 <= i < |steps| ==> IsStep(cf, steps, states, i)
  }

  ghost predicate IsStep(cf: Config, steps: seq<Step>, states: seq<State>, i: nat)
    requires ValidConfig(cf) && i < |steps| && |states| == |steps| + 1
  {
    Takes(cf, states[i], steps[i], states[i + 1])
  }

  lemma {:induction false} RunKeepsInv(cf: Config, steps: seq<Step>, states: seq<State>, n: nat)
    requires ValidConfig(cf) && IsRun(cf, steps, states) && n < |states|
    ensures Inv(cf, states[n])
  {
    if n == 0 {
      InitialInv(cf);
    } else {
      RunKeepsInv(cf, steps, states, n - 1);
      assert IsStep(cf, steps, states, n - 1);
      NextKeepsInv(cf, states[n - 1], steps[n - 1]);
    }
  }
}
