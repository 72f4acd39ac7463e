/** What every run of memcached's item and slab memory guarantees, whatever the interleaving
(slabs.c, items.c). */
module StorageSafety {
  import opened Sequences
  import opened StorageEngine

  /** No list, table entry or caller refers to the chunk. */
  ghost predicate Unknown(cf: Config, st: State, c: Chunk)
    requires Sized(cf, st)
  {
    && (forall k {:trigger st.free[k]} :: IsClass(cf, k) ==> c !in st.free[k] && c !in st.lru[k])
    && (forall x :: x in st.table ==> st.table[x] != c)
    && (c in st.mem ==> st.mem[c].refcount == 0 && st.mem[c].held == 0 && st.mem[c].pending == 0)
  }

  lemma MarkedIsUnknown(cf: Config, st: State, c: Chunk)
    requires Inv(cf, st) && c in st.mem && st.mem[c].clsid == MOVED
    ensures Unknown(cf, st, c)
  {
    assert GoodHeader(st.mem[c], st.owner[c.page]);
    forall k | IsClass(cf, k) ensures c !in st.free[k] && c !in st.lru[k] {
      assert ListsOf(st, k);
    }
  }

  /** The page move is safe: once the mover is done, and until it clears the page, no chunk of
  the page is on a free list, on an LRU list, in the hash table, or referred to by anyone. */
  lemma PageMoveIsSafe(cf: Config, steps: seq<Step>, states: seq<State>, n: nat, c: Chunk)
    requires ValidConfig(cf) && IsRun(cf, steps, states) && n < |states|
    requires states[n].rebal.signal == 2 && states[n].rebal.done
    requires c in states[n].mem && c.page == states[n].rebal.page
    ensures Inv(cf, states[n]) && states[n].mem[c].clsid == MOVED && Unknown(cf, states[n], c)
  {
    RunKeepsInv(cf, steps, states, n);
    var st := states[n];
    assert PagesOf(st, st.rebal.src) && st.slabs[st.rebal.src][0] in st.slabs[st.rebal.src];
    assert Swept(st, st.rebal.pos);
    MarkedIsUnknown(cf, st, c);
  }

  lemma MoveKeepsMark(cf: Config, st: State, locked: bool, c: Chunk)
    requires Inv(cf, st) && Moving(st) && c in st.mem && st.mem[c].clsid == MOVED
    ensures var st' := EndPass(cf, MoveChunk(cf, st, locked));
            c in st'.mem && st'.mem[c].clsid == MOVED
  {
    MoveChunkFrame(cf, st, locked);
  }

  lemma {:induction false} MovePassKeepsMark(cf: Config, st: State, locked: seq<bool>, c: Chunk)
    requires Inv(cf, st) && Moving(st) && c in st.mem && st.mem[c].clsid == MOVED
    ensures c in MovePass(cf, st, locked).mem && MovePass(cf, st, locked).mem[c].clsid == MOVED
    decreases |locked|
  {
    if locked != [] {
      MoveKeepsInv(cf, st, locked[0]);
      MoveKeepsMark(cf, st, locked[0], c);
      var st1 := MoveChunk(cf, st, locked[0]);
      if st1.rebal.pos < PerSlab(cf, st.rebal.src) {
        MovePassKeepsMark(cf, EndPass(cf, st1), locked[1..], c);
      }
    }
  }

  /** An allocation changes no chunk but the one it hands out. */
  lemma SlabTakeFrame(cf: Config, st: State, k: nat, page: nat, ok: bool, d: Chunk)
    requires ValidConfig(cf) && Inv(cf, st) && IsClass(cf, k) && page !in st.owner && d in st.mem
    ensures var (st', r) := SlabTake(cf, st, k, page, ok);
            d in st'.mem && (r != Some(d) ==> st'.mem[d] == st.mem[d])
  {
    WithPageIs(st.mem, page, PerSlab(cf, k));
  }

  lemma AllocFrame(cf: Config, st: State, ntotal: nat, ch: Choice, d: Chunk)
    requires ValidConfig(cf) && Inv(cf, st) && ch.page !in st.owner && d in st.mem
    ensures var (st', r) := AllocItem(cf, st, ntotal, ch);
            d in st'.mem && (r != Some(d) ==> st'.mem[d] == st.mem[d])
  {
    var k := AllocCases(cf, st, ntotal, ch);
    if k != 0 {
      SlabTakeFrame(cf, st, k, ch.page, ch.ok, d);
    }
  }

  /** A chunk that an allocation leaves is as it was, one that it takes is neither free nor marked. */
  lemma AllocKeepsChunk(cf: Config, st: State, ntotal: nat, ch: Choice, c: Chunk)
    requires ValidConfig(cf) && Inv(cf, st) && ch.page !in st.owner && c in st.mem
    ensures var st' := AllocItem(cf, st, ntotal, ch).0;
            c in st'.mem && (st'.mem[c] == st.mem[c] || (st.mem[c].clsid != MOVED && st'.mem[c].refcount == 1))
  {
    AllocFrame(cf, st, ntotal, ch, c);
    AllocIsSafe(cf, st, ntotal, ch);
  }

  /** A chunk the mover has marked stays marked, whatever steps intervene, until the mover clears
  its page. */
  lemma MarkStays(cf: Config, st: State, step: Step, c: Chunk)
    requires ValidConfig(cf) && Inv(cf, st) && Enabled(cf, st, step) && !step.Finish?
    requires c in st.mem && st.mem[c].clsid == MOVED
    ensures c in Next(cf, st, step).mem && Next(cf, st, step).mem[c].clsid == MOVED
  {
    assert GoodHeader(st.mem[c], st.owner[c.page]);
    match step
    case Alloc(ntotal, ch) => AllocKeepsChunk(cf, st, ntotal, ch, c);
    case Move(locked) => MovePassKeepsMark(cf, st, locked, c);
    case _ =>
  }

  /** The reference discipline: at every state of every run, an item's count is the number of
  references callers hold plus one if it is linked; it is in the hash table exactly when it is
  linked; and it is on the free list of its page's class exactly when it is a free chunk. */
  lemma RefcountsCount(cf: Config, steps: seq<Step>, states: seq<State>, n: nat, c: Chunk)
    requires ValidConfig(cf) && IsRun(cf, steps, states) && n < |states| && c in states[n].mem
    ensures var st, h := states[n], states[n].mem[c];
            && Inv(cf, st)
            && h.held >= 0 && h.refcount == h.held + (if h.linked then 1 else 0)
            && (h.linked <==> h.key in st.table && st.table[h.key] == c)
            && (c in st.free[st.owner[c.page]] <==> IsFree(h))
            && (c in st.lru[st.owner[c.page]] <==> h.linked)
  {
    RunKeepsInv(cf, steps, states, n);
    var st := states[n];
    assert GoodHeader(st.mem[c], st.owner[c.page]) && ListsOf(st, st.owner[c.page]);
  }

  // ----- Chunks reach the free list once, at zero -----

  lemma MoveNeverFrees(cf: Config, st: State, locked: bool, c: Chunk)
    requires Inv(cf, st) && Moving(st) && c in st.mem
    ensures var st' := EndPass(cf, MoveChunk(cf, st, locked));
            c in st'.mem && (IsFree(st'.mem[c]) ==> IsFree(st.mem[c]))
  {
    MoveChunkFrame(cf, st, locked);
  }

  lemma {:induction false} MovePassNeverFrees(cf: Config, st: State, locked: seq<bool>, c: Chunk)
    requires Inv(cf, st) && Moving(st) && c in st.mem
    ensures c in MovePass(cf, st, locked).mem && (IsFree(MovePass(cf, st, locked).mem[c]) ==> IsFree(st.mem[c]))
    decreases |locked|
  {
    if locked != [] {
      MoveKeepsInv(cf, st, locked[0]);
      MoveNeverFrees(cf, st, locked[0], c);
      var st1 := MoveChunk(cf, st, locked[0]);
      if st1.rebal.pos < PerSlab(cf, st.rebal.src) {
        MovePassNeverFrees(cf, EndPass(cf, st1), locked[1..], c);
      }
    }
  }

  /** A chunk becomes free only by the release of its last reference, or, with its whole page,
  when the mover hands the page over. */
  lemma FreedOnceAtZero(cf: Config, st: State, step: Step, c: Chunk)
    requires ValidConfig(cf) && Inv(cf, st) && Enabled(cf, st, step) && c in st.mem
    requires !IsFree(st.mem[c])
    requires c in Next(cf, st, step).mem && IsFree(Next(cf, st, step).mem[c])
    ensures (step == Free(c) && st.mem[c].refcount == 0 && st.mem[c].held == 0 && !st.mem[c].linked)
            || (step == Finish && c.page == st.rebal.page && st.mem[c].clsid == MOVED)
  {
    assert GoodHeader(st.mem[c], st.owner[c.page]);
    match step
    case Alloc(ntotal, ch) => AllocKeepsChunk(cf, st, ntotal, ch, c);
    case Move(locked) => MovePassNeverFrees(cf, st, locked, c);
    case Finish =>
      FinishGivesPage(cf, st);
      PageFrame(cf, st, FinishMove(cf, st), st.rebal.page, st.rebal.dst);
    case _ =>
  }

  /** The chunk is not in memory yet, free, or taken away by the mover. */
  ghost predicate Idle(st: State, c: Chunk) {
    c in st.mem ==> IsFree(st.mem[c]) || st.mem[c].clsid == MOVED
  }

  /** The step is an allocation that returns c. */
  ghost predicate HandsOut(cf: Config, st: State, step: Step, c: Chunk)
    requires ValidConfig(cf)
  {
    Inv(cf, st) && step.Alloc? && AllocItem(cf, st, step.ntotal, step.choice).1 == Some(c)
  }

  lemma SlabTakeIdle(cf: Config, st: State, k: nat, page: nat, ok: bool, c: Chunk)
    requires ValidConfig(cf) && Inv(cf, st) && IsClass(cf, k) && page !in st.owner && c !in st.mem
    ensures var (st', r) := SlabTake(cf, st, k, page, ok);
            r != Some(c) ==> Idle(st', c)
  {
    WithPageIs(st.mem, page, PerSlab(cf, k));
  }

  lemma AllocIdle(cf: Config, st: State, ntotal: nat, ch: Choice, c: Chunk)
    requires ValidConfig(cf) && Inv(cf, st) && ch.page !in st.owner && Idle(st, c)
    ensures var (st', r) := AllocItem(cf, st, ntotal, ch);
            r != Some(c) ==> Idle(st', c)
  {
    if c in st.mem {
      AllocFrame(cf, st, ntotal, ch, c);
    } else {
      var k := AllocCases(cf, st, ntotal, ch);
      if k != 0 { SlabTakeIdle(cf, st, k, ch.page, ch.ok, c); }
    }
  }

  lemma MoveIdle(cf: Config, st: State, locked: bool, c: Chunk)
    requires Inv(cf, st) && Moving(st) && Idle(st, c)
    ensures Idle(EndPass(cf, MoveChunk(cf, st, locked)), c)
  {
    MoveChunkFrame(cf, st, locked);
  }

  lemma {:induction false} MovePassIdle(cf: Config, st: State, locked: seq<bool>, c: Chunk)
    requires Inv(cf, st) && Moving(st) && Idle(st, c)
    ensures Idle(MovePass(cf, st, locked), c)
    decreases |locked|
  {
    if locked != [] {
      MoveKeepsInv(cf, st, locked[0]);
      MoveIdle(cf, st, locked[0], c);
      var st1 := MoveChunk(cf, st, locked[0]);
      if st1.rebal.pos < PerSlab(cf, st.rebal.src) {
        MovePassIdle(cf, EndPass(cf, st1), locked[1..], c);
      }
    }
  }

  lemma FinishIdle(cf: Config, st: State, c: Chunk)
    requires ValidConfig(cf) && Inv(cf, st) && st.rebal.signal == 2 && st.rebal.done && Idle(st, c)
    ensures Idle(FinishMove(cf, st), c)
  {
    FinishGivesPage(cf, st);
    PageFrame(cf, st, FinishMove(cf, st), st.rebal.page, st.rebal.dst);
  }

  lemma ItemStepIdle(cf: Config, st: State, step: Step, c: Chunk)
    requires ValidConfig(cf) && Inv(cf, st) && Enabled(cf, st, step) && IsItemStep(step) && Idle(st, c)
    ensures Idle(Next(cf, st, step), c)
  {
    if c in st.mem { assert GoodHeader(st.mem[c], st.owner[c.page]); }
  }

  /** Only an allocation that returns the chunk ends its idleness. */
  lemma IdleStays(cf: Config, st: State, step: Step, c: Chunk)
    requires ValidConfig(cf) && Inv(cf, st) && Enabled(cf, st, step) && Idle(st, c)
    requires !HandsOut(cf, st, step, c)
    ensures Idle(Next(cf, st, step), c)
  {
    match step
    case Alloc(ntotal, ch) => AllocIdle(cf, st, ntotal, ch, c);
    case Move(locked) => MovePassIdle(cf, st, locked, c);
    case Finish => FinishIdle(cf, st, c);
    case _ => if IsItemStep(step) { ItemStepIdle(cf, st, step, c); }
  }

  lemma {:induction false} IdleUntilHandedOut(cf: Config, steps: seq<Step>, states: seq<State>,
                                              i: nat, j: nat, c: Chunk)
    requires ValidConfig(cf) && IsRun(cf, steps, states) && i <= j <= |steps| && Idle(states[i], c)
    requires forall m :: i <= m < j ==> !HandsOut(cf, states[m], steps[m], c)
    ensures Idle(states[j], c)
    decreases j
  {
    if i < j {
      IdleUntilHandedOut(cf, steps, states, i, j - 1, c);
      RunKeepsInv(cf, steps, states, j - 1);
      assert IsStep(cf, steps, states, j - 1);
      IdleStays(cf, states[j - 1], steps[j - 1], c);
    }
  }

  lemma FreedIsIdle(cf: Config, st: State, c: Chunk)
    requires ValidConfig(cf) && Inv(cf, st) && Enabled(cf, st, Free(c))
    ensures !Idle(st, c) && Idle(Next(cf, st, Free(c)), c)
  {
    assert GoodHeader(st.mem[c], st.owner[c.page]);
    HeldHasClass(cf, st, c);
  }

  lemma FreeEndsUse(cf: Config, steps: seq<Step>, states: seq<State>, i: nat, c: Chunk)
    requires ValidConfig(cf) && IsRun(cf, steps, states) && i < |steps| && steps[i] == Free(c)
    ensures !Idle(states[i], c) && Idle(states[i + 1], c)
  {
    RunKeepsInv(cf, steps, states, i);
    assert IsStep(cf, steps, states, i);
    FreedIsIdle(cf, states[i], c);
  }

  /** Freed once for each allocation: between two steps of a run that free a chunk, an allocation
  returns it. */
  lemma FreedOncePerAllocation(cf: Config, steps: seq<Step>, states: seq<State>, i: nat, j: nat, c: Chunk)
    requires ValidConfig(cf) && IsRun(cf, steps, states) && i < j < |steps|
    requires steps[i] == Free(c) && steps[j] == Free(c)
    ensures exists m :: i < m < j && HandsOut(cf, states[m], steps[m], c)
  {
    FreeEndsUse(cf, steps, states, i, c);
    FreeEndsUse(cf, steps, states, j, c);
    if forall m :: i < m < j ==> !HandsOut(cf, states[m], steps[m], c) {
      IdleUntilHandedOut(cf, steps, states, i + 1, j, c);
    }
  }

  // ----- The assertions of the source -----

  /** The steps that link, release, free, update or unlink c. A look-up unlinks what it finds dead or
  on the page being moved. */
  ghost predicate Touches(st: State, step: Step, c: Chunk) {
    match step
    case Link(d) => d == c
    case Release(d) => d == c
    case Free(d) => d == c
    case Update(d, _) => d == c
    case Unlink(d) => d == c
    case Expunge(d) => d == c
    case Get(x, _) => x in st.table && st.table[x] == c
    case _ => false
  }

  /** The assertions the source makes when an item is linked, released, freed, updated or unlinked
  cannot fail; a freed item goes back to a class that exists, with its class number cleared. */
  lemma SourceAssertionsHold(cf: Config, st: State, step: Step, c: Chunk)
    requires ValidConfig(cf) && Inv(cf, st) && Enabled(cf, st, step)
    requires Touches(st, step, c)
    ensures c in st.mem && !st.mem[c].slabbed
    ensures step == Free(c) ==>
              && !st.mem[c].linked && st.mem[c].refcount == 0 && IsClass(cf, st.mem[c].clsid)
              && c in Next(cf, st, step).mem && Next(cf, st, step).mem[c].clsid == 0
    ensures step == Free(c) || step == Link(c) ==> forall k {:trigger st.lru[k]} :: IsClass(cf, k) ==> c !in st.lru[k]
  {
    HeldHasClass(cf, st, c);
    assert GoodHeader(st.mem[c], st.owner[c.page]);
    forall k | IsClass(cf, k) && (step == Free(c) || step == Link(c)) ensures c !in st.lru[k] {
      assert ListsOf(st, k);
    }
  }

  lemma FirstFreeIsCleared(cf: Config, st: State, k: nat)
    requires Inv(cf, st) && IsClass(cf, k)
    ensures st.slCurr[k] == 0 || (st.free[k] != [] && st.free[k][0] in st.mem && st.mem[st.free[k][0]].clsid == 0)
  {
    assert ListsOf(st, k) && FreeOf(st, k);
    if st.free[k] != [] {
      var c := st.free[k][0];
      assert c in st.free[k] && GoodHeader(st.mem[c], k);
    }
  }

  /** Those of the allocators: the first free chunk of a class has its class number cleared, and
  so has the item handed out, which is on no list. */
  lemma AllocAssertionsHold(cf: Config, st: State, ntotal: nat, ch: Choice, k: nat)
    requires ValidConfig(cf) && Inv(cf, st) && ch.page !in st.owner && IsClass(cf, k)
    ensures st.slCurr[k] == 0 || (st.free[k] != [] && st.free[k][0] in st.mem && st.mem[st.free[k][0]].clsid == 0)
    ensures var (st', r) := AllocItem(cf, st, ntotal, ch);
            r.Some? ==> r.value in st'.mem && st'.mem[r.value].clsid == 0 && |st'.lru| > k && r.value !in st'.lru[k]
  {
    FirstFreeIsCleared(cf, st, k);
    var (st', r) := AllocItem(cf, st, ntotal, ch);
    if r.Some? {
      AllocKeepsInv(cf, st, ntotal, ch);
      AllocIsSafe(cf, st, ntotal, ch);
      assert ListsOf(st', k) && GoodHeader(st'.mem[r.value], st'.owner[r.value.page]);
    }
  }

  // ----- When incr and decr write in place -----

  /** A look-up that finds an item leaves a count of at least 2 on it. */
  lemma LookedUpItemIsShared(cf: Config, st: State, x: Key)
    requires Inv(cf, st) && GetItem(cf, st, x, false).1.Some?
    ensures var (st', r) := GetItem(cf, st, x, false);
            r.value in st'.mem && st'.mem[r.value].refcount >= 2 && st'.mem[r.value].key == x
  {
    assert GoodHeader(st.mem[st.table[x]], st.owner[st.table[x].page]);
  }

  /** `do_add_delta` writes in place at a count of 1. The caller's item has that count exactly when it
  was unlinked in the meantime and nobody else holds it; then no look-up, allocation or list can
  lead to it. */
  lemma InPlaceIff(cf: Config, st: State, c: Chunk)
    requires Inv(cf, st) && Holds(st, c)
    ensures st.mem[c].refcount == 1 <==> !st.mem[c].linked && st.mem[c].held == 1
    ensures !st.mem[c].linked ==>
              && (forall x :: x in st.table ==> st.table[x] != c)
              && (forall k {:trigger st.lru[k]} :: IsClass(cf, k) ==> c !in st.lru[k] && c !in st.free[k])
  {
    assert GoodHeader(st.mem[c], st.owner[c.page]);
    forall k | IsClass(cf, k) && !st.mem[c].linked ensures c !in st.lru[k] && c !in st.free[k] {
      assert ListsOf(st, k);
    }
  }

  /** That happens: a flush takes only `cache_lock`, so it may come between the look-up and the test,
  and an item held by nobody else is then left with the caller's reference. */
  lemma FlushLeavesOneReference(cf: Config, st: State, x: Key)
    requires ValidConfig(cf) && Inv(cf, st) && GetItem(cf, st, x, false).1.Some?
    ensures var (st1, r) := GetItem(cf, st, x, false);
            && Inv(cf, st1) && r.value in st.mem && Enabled(cf, st1, Expunge(r.value))
            && var st2 := Next(cf, st1, Expunge(r.value));
               && Holds(st2, r.value) && !st2.mem[r.value].linked
               && (st2.mem[r.value].refcount == 1 <==> st.mem[r.value].held == 0)
  {
    GetKeepsInv(cf, st, x, false);
    var c := st.table[x];
    assert GoodHeader(st.mem[c], st.owner[c.page]);
  }

  // ----- The look-up without cache_lock -----

  /** `do_item_get` finds an item and takes its reference without `cache_lock`. The reference is good
  if and only if the item has not lost all others in between. */
  lemma LateReferenceIsSafeIff(cf: Config, st: State, c: Chunk)
    requires Inv(cf, st) && c in st.mem && st.mem[c].pending == 0
    ensures Inv(cf, HoldItem(st, c)) && !IsDropped(st.mem[c]) <==> st.mem[c].refcount > 0
  {
    var h := st.mem[c];
    assert GoodHeader(h, st.owner[c.page]);
    if h.refcount > 0 {
      HeaderKeepsInv(cf, st, c, HoldItem(st, c).mem[c]);
    } else if Inv(cf, HoldItem(st, c)) {
      assert GoodHeader(HoldItem(st, c).mem[c], st.owner[c.page]);
    }
  }

  /** A flush in between takes the last reference exactly when nobody else holds the item. */
  lemma FlushDropsUnheld(cf: Config, st: State, c: Chunk)
    requires ValidConfig(cf) && Inv(cf, st) && Enabled(cf, st, Expunge(c))
    ensures c in Next(cf, st, Expunge(c)).mem
    ensures Next(cf, st, Expunge(c)).mem[c].refcount > 0 <==> st.mem[c].held > 0
    ensures Next(cf, st, Expunge(c)).mem[c].pending == 0
  {
    assert GoodHeader(st.mem[c], st.owner[c.page]);
  }

  // ----- Page accounting -----

  /** Number of classes 1 .. n that own a page. */
  function Owning(slabs: seq<seq<nat>>, n: nat): nat
    requires n < |slabs|
  {
    if n == 0 then 0 else Owning(slabs, n - 1) + (if slabs[n] == [] then 0 else 1)
  }

  lemma {:induction false} OwningGrows(s: seq<seq<nat>>, t: seq<seq<nat>>, n: nat)
    requires |s| == |t| && n < |s|
    requires forall k :: 1 <= k <= n && s[k] != [] ==> t[k] != []
    ensures Owning(s, n) <= Owning(t, n) <= n
    ensures (exists k :: 1 <= k <= n && s[k] == [] && t[k] != []) ==> Owning(s, n) + 1 <= Owning(t, n)
  {
    if n > 0 {
      OwningGrows(s, t, n - 1);
    }
  }

  /** The bytes of the pages of classes 1 .. n. */
  function Total(cf: Config, slabs: seq<seq<nat>>, n: nat): nat
    requires n < |slabs|
  {
    if n == 0 then 0 else Total(cf, slabs, n - 1) + |slabs[n]| * PageLen(cf, n)
  }

  lemma {:induction false} TotalSet(cf: Config, slabs: seq<seq<nat>>, n: nat, k: nat, x: seq<nat>)
    requires 1 <= k < |slabs| && n < |slabs|
    ensures Total(cf, slabs[k := x], n) ==
              Total(cf, slabs, n) + if k <= n then |x| * PageLen(cf, k) - |slabs[k]| * PageLen(cf, k) else 0
  {
    if n > 0 {
      TotalSet(cf, slabs, n - 1, k, x);
    }
  }

  lemma OneMore(n: nat, m: nat)
    ensures (n + 1) * m == n * m + m
  {
  }

  /** One page more in class k. */
  lemma TotalGrows(cf: Config, slabs: seq<seq<nat>>, n: nat, k: nat, page: nat)
    requires 1 <= k <= n < |slabs|
    ensures Total(cf, slabs[k := slabs[k] + [page]], n) == Total(cf, slabs, n) + PageLen(cf, k)
  {
    TotalSet(cf, slabs, n, k, slabs[k] + [page]);
    OneMore(|slabs[k]|, PageLen(cf, k));
  }

  /** One page less. */
  lemma TotalShrinks(cf: Config, slabs: seq<seq<nat>>, n: nat, k: nat, rest: seq<nat>)
    requires 1 <= k <= n < |slabs| && |rest| + 1 == |slabs[k]|
    ensures Total(cf, slabs[k := rest], n) + PageLen(cf, k) == Total(cf, slabs, n)
  {
    TotalSet(cf, slabs, n, k, rest);
    OneMore(|rest|, PageLen(cf, k));
  }

  /** Memory is exactly the pages in use. No class gives up its last page, so the limit is exceeded
  by at most one page for each class that owns one. Pages move only if they all have one size. */
  ghost predicate Accounted(cf: Config, st: State)
    requires Sized(cf, st)
  {
    && st.malloced == Total(cf, st.slabs, cf.largest)
    && (cf.reassign ==> st.malloced == cf.itemMax * |st.owner|)
    && (st.rebal.signal != 0 ==> cf.reassign)
    && (cf.limit != 0 ==> st.malloced <= cf.limit + cf.itemMax * Owning(st.slabs, cf.largest))
  }

  lemma {:induction false} MoreOwners(m: nat, a: nat, b: nat)
    requires a <= b
    ensures m * a <= m * b
    ensures a + 1 <= b ==> m * a + m <= m * b
  {
    if a < b {
      MoreOwners(m, a, b - 1);
      assert m * b == m * (b - 1) + m;
    }
  }

  lemma PageFits(cf: Config, k: nat)
    requires ValidConfig(cf) && IsClass(cf, k)
    ensures PageLen(cf, k) <= cf.itemMax
  {
  }

  /** The limit: a class that owns pages stays below it, one that owns none adds a page to it. */
  lemma NewSlabLimited(cf: Config, st: State, k: nat, page: nat, ok: bool)
    requires ValidConfig(cf) && Sized(cf, st) && Accounted(cf, st) && IsClass(cf, k) && cf.limit != 0
    ensures var st' := NewSlab(cf, st, k, page, ok);
            |st'.slabs| > cf.largest && st'.malloced <= cf.limit + cf.itemMax * Owning(st'.slabs, cf.largest)
  {
    var st' := NewSlab(cf, st, k, page, ok);
    var a, b := Owning(st.slabs, cf.largest), Owning(st'.slabs, cf.largest);
    OwningGrows(st.slabs, st'.slabs, cf.largest);
    MoreOwners(cf.itemMax, a, b);
    PageFits(cf, k);
    NewSlabCases(cf, st, k, page, ok);
  }

  lemma NewSlabCases(cf: Config, st: State, k: nat, page: nat, ok: bool)
    requires Sized(cf, st) && IsClass(cf, k) && cf.limit != 0
    ensures var st' := NewSlab(cf, st, k, page, ok);
            || st'.malloced == st.malloced
            || st'.malloced <= cf.limit
            || (st'.malloced == st.malloced + PageLen(cf, k) && st.slabs[k] == [] && st'.slabs[k] != [])
  {
  }

  lemma NewSlabAccounted(cf: Config, st: State, k: nat, page: nat, ok: bool)
    requires ValidConfig(cf) && Sized(cf, st) && Accounted(cf, st) && IsClass(cf, k) && page !in st.owner
    ensures Sized(cf, NewSlab(cf, st, k, page, ok)) && Accounted(cf, NewSlab(cf, st, k, page, ok))
  {
    if NewSlab(cf, st, k, page, ok) != st {
      NewSlabTotal(cf, st, k, page, ok);
      NewSlabOwned(cf, st, k, page, ok);
    }
    if cf.limit != 0 {
      NewSlabLimited(cf, st, k, page, ok);
    }
  }

  lemma NewSlabTotal(cf: Config, st: State, k: nat, page: nat, ok: bool)
    requires Sized(cf, st) && IsClass(cf, k) && NewSlab(cf, st, k, page, ok) != st
    requires st.malloced == Total(cf, st.slabs, cf.largest)
    ensures var st' := NewSlab(cf, st, k, page, ok);
            Sized(cf, st') && st'.malloced == Total(cf, st'.slabs, cf.largest)
  {
    TotalGrows(cf, st.slabs, cf.largest, k, page);
  }

  lemma NewSlabOwned(cf: Config, st: State, k: nat, page: nat, ok: bool)
    requires Sized(cf, st) && IsClass(cf, k) && page !in st.owner && NewSlab(cf, st, k, page, ok) != st
    requires cf.reassign ==> st.malloced == cf.itemMax * |st.owner|
    ensures var st' := NewSlab(cf, st, k, page, ok);
            cf.reassign ==> st'.malloced == cf.itemMax * |st'.owner|
  {
    NewSlabCounts(cf, st, k, page, ok);
    OnePage(cf.itemMax, |st.owner|);
  }

  lemma OnePage(m: nat, n: nat)
    ensures m * (n + 1) == m * n + m
  {
  }

  lemma NewSlabCounts(cf: Config, st: State, k: nat, page: nat, ok: bool)
    requires Sized(cf, st) && IsClass(cf, k) && page !in st.owner && NewSlab(cf, st, k, page, ok) != st
    ensures var st' := NewSlab(cf, st, k, page, ok);
            st'.malloced == st.malloced + PageLen(cf, k) && |st'.owner| == |st.owner| + 1
  {
    assert |st.owner[page := k]| == |st.owner| + 1;
  }

  ghost predicate SamePages(st: State, st': State) {
    st'.owner == st.owner && st'.slabs == st.slabs && st'.malloced == st.malloced
  }

  lemma {:induction false} MovePassKeepsPages(cf: Config, st: State, locked: seq<bool>)
    requires Inv(cf, st) && Moving(st)
    ensures SamePages(st, MovePass(cf, st, locked))
    decreases |locked|
  {
    if locked != [] {
      MoveKeepsInv(cf, st, locked[0]);
      MoveChunkFrame(cf, st, locked[0]);
      var st1 := MoveChunk(cf, st, locked[0]);
      assert SamePages(st, st1);
      if st1.rebal.pos < PerSlab(cf, st.rebal.src) {
        MovePassKeepsPages(cf, EndPass(cf, st1), locked[1..]);
      }
    }
  }

  lemma SlabTakePages(cf: Config, st: State, k: nat, page: nat, ok: bool)
    requires Sized(cf, st) && IsClass(cf, k)
    ensures var st' := SlabTake(cf, st, k, page, ok).0;
            SamePages(st, st') || SamePages(NewSlab(cf, st, k, page, ok), st')
  {
  }

  lemma AllocAccounted(cf: Config, st: State, ntotal: nat, ch: Choice)
    requires ValidConfig(cf) && Inv(cf, st) && Accounted(cf, st) && ch.page !in st.owner
    ensures var st' := AllocItem(cf, st, ntotal, ch).0;
            Sized(cf, st') && Accounted(cf, st')
  {
    AllocKeepsInv(cf, st, ntotal, ch);
    var k := AllocPages(cf, st, ntotal, ch);
    var st' := AllocItem(cf, st, ntotal, ch).0;
    if SamePages(st, st') {
      PagesAccounted(cf, st, st');
    } else {
      NewSlabAccounted(cf, st, k, ch.page, ch.ok);
      PagesAccounted(cf, NewSlab(cf, st, k, ch.page, ch.ok), st');
    }
  }

  /** An allocation gives the class at most one page. */
  lemma AllocPages(cf: Config, st: State, ntotal: nat, ch: Choice) returns (k: nat)
    requires ValidConfig(cf) && Inv(cf, st)
    ensures var st' := AllocItem(cf, st, ntotal, ch).0;
            && st'.rebal == st.rebal
            && (SamePages(st, st') || (IsClass(cf, k) && SamePages(NewSlab(cf, st, k, ch.page, ch.ok), st')))
  {
    k := AllocCases(cf, st, ntotal, ch);
    if k != 0 { SlabTakePages(cf, st, k, ch.page, ch.ok); }
  }

  lemma PagesAccounted(cf: Config, st: State, st': State)
    requires Sized(cf, st) && Sized(cf, st') && Accounted(cf, st) && SamePages(st, st') && st'.rebal == st.rebal
    ensures Accounted(cf, st')
  {
  }

  lemma FinishAccounted(cf: Config, st: State)
    requires ValidConfig(cf) && Inv(cf, st) && Accounted(cf, st) && st.rebal.signal == 2 && st.rebal.done
    ensures var st' := FinishMove(cf, st);
            Sized(cf, st') && Accounted(cf, st') && st'.owner.Keys == st.owner.Keys && st'.malloced == st.malloced
  {
    var st' := FinishMove(cf, st);
    assert PagesOf(st, st.rebal.src) && st.slabs[st.rebal.src][0] in st.slabs[st.rebal.src];
    assert st'.owner.Keys == st.owner.Keys;
    assert |st'.owner.Keys| == |st'.owner| && |st.owner.Keys| == |st.owner|;
    OwningGrows(st.slabs, st'.slabs, cf.largest);
    MoreOwners(cf.itemMax, Owning(st.slabs, cf.largest), Owning(st'.slabs, cf.largest));
    FinishTotal(cf, st);
  }

  lemma FinishTotal(cf: Config, st: State)
    requires Sized(cf, st) && cf.reassign && IsClass(cf, st.rebal.src) && IsClass(cf, st.rebal.dst)
    requires st.rebal.src != st.rebal.dst && |st.slabs[st.rebal.src]| >= 1
    ensures Total(cf, FinishMove(cf, st).slabs, cf.largest) == Total(cf, st.slabs, cf.largest)
  {
    var r, pages := st.rebal, st.slabs[st.rebal.src];
    var rest := pages[0 := pages[|pages| - 1]][..|pages| - 1];
    TotalShrinks(cf, st.slabs, cf.largest, r.src, rest);
    TotalGrows(cf, st.slabs[r.src := rest], cf.largest, r.dst, r.page);
  }

  lemma {:induction false} MovePassKeepsSignal(cf: Config, st: State, locked: seq<bool>)
    requires Inv(cf, st) && Moving(st)
    ensures MovePass(cf, st, locked).rebal.signal == 2
    decreases |locked|
  {
    if locked != [] {
      MoveKeepsInv(cf, st, locked[0]);
      MoveChunkFrame(cf, st, locked[0]);
      var st1 := MoveChunk(cf, st, locked[0]);
      if st1.rebal.pos < PerSlab(cf, st.rebal.src) {
        MovePassKeepsSignal(cf, EndPass(cf, st1), locked[1..]);
      }
    }
  }

  lemma MovesNeedReassign(cf: Config, st: State, step: Step)
    requires ValidConfig(cf) && Inv(cf, st) && Enabled(cf, st, step) && (st.rebal.signal != 0 ==> cf.reassign)
    ensures Next(cf, st, step).rebal.signal != 0 ==> cf.reassign
  {
    if step.Move? {
      MovePassKeepsSignal(cf, st, step.locked);
    } else if step.Alloc? {
      var k := AllocCases(cf, st, step.ntotal, step.choice);
    }
  }

  lemma OtherStepsKeepPages(cf: Config, st: State, step: Step)
    requires ValidConfig(cf) && Inv(cf, st) && Enabled(cf, st, step)
    requires !step.Alloc? && !step.Finish?
    ensures SamePages(st, Next(cf, st, step))
  {
    if step.Move? {
      MovePassKeepsPages(cf, st, step.locked);
    }
  }

  lemma NextAccounted(cf: Config, st: State, step: Step)
    requires ValidConfig(cf) && Inv(cf, st) && Accounted(cf, st) && Enabled(cf, st, step)
    ensures Sized(cf, Next(cf, st, step)) && Accounted(cf, Next(cf, st, step))
  {
    NextKeepsInv(cf, st, step);
    if step.Alloc? {
      AllocAccounted(cf, st, step.ntotal, step.choice);
    } else if step.Finish? {
      FinishAccounted(cf, st);
    } else {
      OtherStepsKeepPages(cf, st, step);
      MovesNeedReassign(cf, st, step);
    }
  }

  lemma {:induction false} RunAccounted(cf: Config, steps: seq<Step>, states: seq<State>, n: nat)
    requires ValidConfig(cf) && IsRun(cf, steps, states) && n < |states|
    ensures Inv(cf, states[n]) && Accounted(cf, states[n])
  {
    RunKeepsInv(cf, steps, states, n);
    if n > 0 {
      RunAccounted(cf, steps, states, n - 1);
      assert IsStep(cf, steps, states, n - 1);
      NextAccounted(cf, states[n - 1], steps[n - 1]);
    } else {
      InitialAccounted(cf);
    }
  }

  /** In every state of every run: memory is exactly the pages in use; with a limit, it never
  exceeds the limit by more than one page for each class; and the recorded length of each free
  list is its length. */
  lemma AccountingHolds(cf: Config, steps: seq<Step>, states: seq<State>, n: nat)
    requires ValidConfig(cf) && IsRun(cf, steps, states) && n < |states|
    ensures var st := states[n];
            && Inv(cf, st)
            && st.malloced == Total(cf, st.slabs, cf.largest)
            && (cf.reassign ==> st.malloced == cf.itemMax * |st.owner|)
            && (cf.limit != 0 ==> st.malloced <= cf.limit + cf.itemMax * cf.largest)
            && (forall k {:trigger st.slCurr[k]} :: IsClass(cf, k) ==> st.slCurr[k] == |st.free[k]|)
  {
    RunAccounted(cf, steps, states, n);
    var st := states[n];
    OwningGrows(st.slabs, st.slabs, cf.largest);
    MoreOwners(cf.itemMax, Owning(st.slabs, cf.largest), cf.largest);
    forall k | IsClass(cf, k) ensures st.slCurr[k] == |st.free[k]| {
      assert ListsOf(st, k) && FreeOf(st, k);
    }
  }

  lemma {:induction false} EmptyTotal(cf: Config, slabs: seq<seq<nat>>, n: nat)
    requires n < |slabs| && forall k :: 0 <= k < |slabs| ==> slabs[k] == []
    ensures Total(cf, slabs, n) == 0
  {
    if n > 0 { EmptyTotal(cf, slabs, n - 1); }
  }

  lemma InitialAccounted(cf: Config)
    ensures Sized(cf, Initial(cf)) && Accounted(cf, Initial(cf))
  {
    EmptyTotal(cf, Initial(cf).slabs, cf.largest);
    OwningGrows(Initial(cf).slabs, Initial(cf).slabs, cf.largest);
    MoreOwners(cf.itemMax, 0, Owning(Initial(cf).slabs, cf.largest));
  }

  /** Each chunk is in exactly one place: on the free list of its class, handed out or linked,
  dropped and about to be freed, or marked by the mover. */
  lemma ChunkIsInOnePlace(cf: Config, st: State, c: Chunk)
    requires Inv(cf, st) && c in st.mem
    ensures var h, k := st.mem[c], st.owner[c.page];
            One(c in st.free[k]) + One(h.refcount > 0) + One(IsDropped(h)) + One(h.clsid == MOVED) == 1
  {
    var k := st.owner[c.page];
    assert GoodHeader(st.mem[c], k) && ListsOf(st, k) && FreeOf(st, k);
  }

  function One(b: bool): nat { if b then 1 else 0 }

  // ----- The repair of leaked references -----

  /** What `do_item_alloc` does to a linked item that has been in use for hours: the references are
  taken for leaked, and the item is unlinked with the last of them. */
  function TailRepaired(st: State, c: Chunk): State
    requires c in st.mem && (st.mem[c].linked ==> st.mem[c].clsid < |st.lru|)
  {
    UnlinkItem(SetHeader(st, c, st.mem[c].(refcount := 1)), c)
  }

  /** The state without the references to c that nobody holds. */
  function WithoutLeaks(st: State, c: Chunk): State
    requires c in st.mem
  {
    SetHeader(st, c, st.mem[c].(refcount := st.mem[c].held + 1))
  }

  /** The repair is right if and only if all references but the link's are leaked. */
  lemma TailRepairIsSafeIff(cf: Config, st: State, c: Chunk)
    requires c in st.mem && st.mem[c].linked && Inv(cf, WithoutLeaks(st, c))
    ensures st.mem[c].clsid < |st.lru|
    ensures Inv(cf, TailRepaired(st, c)) <==> st.mem[c].held == 0
  {
    var st1, h := WithoutLeaks(st, c), st.mem[c];
    UnlinkKeepsInv(cf, st1, c);
    if h.held == 0 {
      assert TailRepaired(st, c) == UnlinkItem(st1, c);
    } else {
      var h' := TailRepaired(st, c).mem[c];
      assert h'.refcount == 0 && h'.held == h.held && !h'.linked;
    }
  }

  /** Without leaks there is nothing to repair: an item found in use is in use. */
  lemma NothingToRepair(cf: Config, st: State, c: Chunk)
    requires Inv(cf, st) && c in st.mem && st.mem[c].linked && st.mem[c].refcount != 1
    ensures st.mem[c].held > 0 && st.mem[c].clsid < |st.lru| && !Inv(cf, TailRepaired(st, c))
  {
    assert GoodHeader(st.mem[c], st.owner[c.page]);
    assert WithoutLeaks(st, c) == st;
    TailRepairIsSafeIff(cf, st, c);
  }
}
