/** What callers of memcached's item and slab memory see (items.c, slabs.c): the effect of each step,
which item a look-up finds after any run, when an allocation succeeds, and that a page move comes to
its end. */
module StorageRuns {
  import opened Sequences
  import opened StorageEngine
  import opened StorageSafety

  // ----- The effect of the steps on one item -----

  /** Linking: the table leads to the item, it is first in the list of its class, and the link counts. */
  lemma LinkEffect(cf: Config, st: State, c: Chunk)
    requires ValidConfig(cf) && Inv(cf, st) && Enabled(cf, st, Link(c))
    ensures var st', h, k := Next(cf, st, Link(c)), st.mem[c], st.owner[c.page];
            && IsClass(cf, k)
            && st'.table == st.table[h.key := c]
            && st'.lru[k] == [c] + st.lru[k] && (forall j :: 0 <= j < |st.lru| && j != k ==> st'.lru[j] == st.lru[j])
            && c in st'.mem && st'.mem[c].linked && st'.mem[c].key == h.key
            && st'.mem[c].refcount == h.refcount + 1 && st'.mem[c].held == h.held
            && st'.free == st.free
  {
    HeldHasClass(cf, st, c);
  }

  /** Unlinking, by a holder or by a flush: the item leaves the table and its list, the link's reference
  goes, and the other items of the class keep their order. */
  lemma UnlinkEffect(cf: Config, st: State, step: Step, c: Chunk)
    requires ValidConfig(cf) && Inv(cf, st) && Enabled(cf, st, step) && (step == Unlink(c) || step == Expunge(c))
    requires st.mem[c].linked
    ensures var st', h, k := Next(cf, st, step), st.mem[c], st.owner[c.page];
            && IsClass(cf, k) && h.key in st.table
            && st'.table == st.table - {h.key}
            && st'.lru[k] == Drop(st.lru[k], c) && c !in st'.lru[k]
            && c in st'.mem && !st'.mem[c].linked
            && st'.mem[c].refcount == h.refcount - 1 && st'.mem[c].held == h.held
            && st'.free == st.free
  {
    HeldHasClass(cf, st, c);
    var k := st.owner[c.page];
    assert ListsOf(st, k) && LruOf(st, k);
    DropIs(st.lru[k], c);
  }

  /** Releasing takes one from the holders and one from the count, and moves nothing. */
  lemma ReleaseEffect(cf: Config, st: State, c: Chunk)
    requires ValidConfig(cf) && Inv(cf, st) && Enabled(cf, st, Release(c))
    ensures var st', h := Next(cf, st, Release(c)), st.mem[c];
            && c in st'.mem && st'.mem[c].held == h.held - 1 && st'.mem[c].refcount == h.refcount - 1
            && st'.mem[c].linked == h.linked
            && st'.table == st.table && st'.lru == st.lru && st'.free == st.free
            && (IsDropped(st'.mem[c]) <==> h.held == 1 && !h.linked)
  {
    assert GoodHeader(st.mem[c], st.owner[c.page]);
  }

  /** The second half of a last release: the chunk is the next one its class hands out. */
  lemma FreeEffect(cf: Config, st: State, c: Chunk)
    requires ValidConfig(cf) && Inv(cf, st) && Enabled(cf, st, Free(c))
    ensures var st', k := Next(cf, st, Free(c)), st.owner[c.page];
            && IsClass(cf, k)
            && st'.free[k] == [c] + st.free[k] && st'.slCurr[k] == st.slCurr[k] + 1
            && st'.table == st.table && st'.lru == st.lru
            && c in st'.mem && IsFree(st'.mem[c])
  {
    HeldHasClass(cf, st, c);
    assert GoodHeader(st.mem[c], st.owner[c.page]);
  }

  /** A look-up: a live item off the moving page is returned with one more reference, another one is
  unlinked, and a key that is not there changes nothing. */
  lemma LookupEffect(cf: Config, st: State, x: Key, dead: bool)
    requires ValidConfig(cf) && Inv(cf, st)
    ensures var (st', r) := GetItem(cf, st, x, dead);
            && (x !in st.table ==> r == None && st' == st)
            && (x in st.table ==>
                  var c := st.table[x];
                  var gone := dead || (st.rebal.signal == 2 && c.page == st.rebal.page);
                  && c in st.mem && c in st'.mem
                  && (gone ==> r == None && x !in st'.table && st'.mem[c].held == st.mem[c].held && !st'.mem[c].linked)
                  && (!gone ==> r == Some(c) && st'.table == st.table && st'.lru == st.lru
                                && st'.mem[c].held == st.mem[c].held + 1
                                && st'.mem[c].refcount == st.mem[c].refcount + 1))
  {
  }

  /** An update of an item that is due makes it the most recent of its class and keeps the others. */
  lemma UpdateEffect(cf: Config, st: State, c: Chunk, due: bool)
    requires ValidConfig(cf) && Inv(cf, st) && Enabled(cf, st, Update(c, due))
    ensures var st', k := Next(cf, st, Update(c, due)), st.owner[c.page];
            && IsClass(cf, k) && st'.mem == st.mem && st'.table == st.table && st'.free == st.free
            && st'.lru[k] == if due && st.mem[c].linked then [c] + Drop(st.lru[k], c) else st.lru[k]
  {
    HeldHasClass(cf, st, c);
  }

  /** Filling in the header: the item has its key and the class it was allocated from. */
  lemma InitEffect(cf: Config, st: State, c: Chunk, key: Key)
    requires ValidConfig(cf) && Inv(cf, st) && Enabled(cf, st, Init(c, key))
    ensures var st' := Next(cf, st, Init(c, key));
            && c in st'.mem && st'.mem[c].key == key && Holds(st', c)
            && st'.mem[c].clsid == st.owner[c.page] && st'.mem[c].refcount == 1 && !st'.mem[c].linked
            && st'.table == st.table
  {
    assert GoodHeader(st.mem[c], st.owner[c.page]);
  }

  // ----- What a look-up finds after a run -----

  /** The steps that can take item c, linked under x, out of the table. */
  ghost predicate Removes(cf: Config, st: State, step: Step, x: Key, c: Chunk)
    requires ValidConfig(cf)
  {
    || step == Unlink(c) || step == Expunge(c)
    || (step.Get? && step.x == x && (step.dead || OnMovingPage(st, c)))
    || HandsOut(cf, st, step, c)
    || (step.Move? && OnMovingPage(st, c))
  }

  predicate OnMovingPage(st: State, c: Chunk) {
    st.rebal.signal == 2 && c.page == st.rebal.page
  }

  lemma AllocTable(cf: Config, st: State, ntotal: nat, ch: Choice, x: Key)
    requires ValidConfig(cf) && Inv(cf, st) && ch.page !in st.owner && x in st.table
    ensures var (st', r) := AllocItem(cf, st, ntotal, ch);
            r != Some(st.table[x]) ==> x in st'.table && st'.table[x] == st.table[x]
  {
    var k := AllocCases(cf, st, ntotal, ch);
    if k != 0 {
      var r := AllocItem(cf, st, ntotal, ch).1;
      if r.Some? && r.value in st.mem && st.mem[r.value].linked {
        assert st.table[st.mem[r.value].key] == r.value;
      }
    }
  }

  ghost predicate Leads(st: State, x: Key, c: Chunk) {
    x in st.table && st.table[x] == c
  }

  lemma MoveTable(cf: Config, st: State, locked: bool, x: Key, c: Chunk)
    requires Inv(cf, st) && Moving(st) && Leads(st, x, c) && c.page != st.rebal.page
    ensures var st' := EndPass(cf, MoveChunk(cf, st, locked));
            Leads(st', x, c) && st'.rebal.page == st.rebal.page
  {
    CursorIsChunk(cf, st);
    if st.mem[Cursor(st)].linked { assert st.table[st.mem[Cursor(st)].key] == Cursor(st); }
  }

  lemma {:induction false} MovePassTable(cf: Config, st: State, locked: seq<bool>, x: Key, c: Chunk)
    requires Inv(cf, st) && Moving(st) && Leads(st, x, c) && c.page != st.rebal.page
    ensures Leads(MovePass(cf, st, locked), x, c)
    decreases |locked|
  {
    if locked != [] {
      MoveTable(cf, st, locked[0], x, c);
      var st1, more := PassUnfolds(cf, st, locked);
      if more { MovePassTable(cf, st1, locked[1..], x, c); }
    }
  }

  /** The first chunk of a pass, and the rest of it if there is one. */
  lemma PassUnfolds(cf: Config, st: State, locked: seq<bool>) returns (st1: State, more: bool)
    requires Inv(cf, st) && Moving(st) && locked != []
    ensures st1 == EndPass(cf, MoveChunk(cf, st, locked[0])) && Inv(cf, st1) && (more ==> Moving(st1))
    ensures MovePass(cf, st, locked) == if more then MovePass(cf, st1, locked[1..]) else st1
  {
    MoveKeepsInv(cf, st, locked[0]);
    var next := MoveChunk(cf, st, locked[0]);
    st1, more := EndPass(cf, next), next.rebal.pos < PerSlab(cf, st.rebal.src);
  }

  lemma ItemStepTable(cf: Config, st: State, step: Step, x: Key)
    requires ValidConfig(cf) && Inv(cf, st) && Enabled(cf, st, step) && IsItemStep(step) && x in st.table
    requires !Removes(cf, st, step, x, st.table[x])
    ensures x in Next(cf, st, step).table && Next(cf, st, step).table[x] == st.table[x]
  {
    var c := step.chunk;
    if st.mem[c].linked { assert st.table[st.mem[c].key] == c; }
  }

  /** Every other step leaves the item where it is. */
  lemma StaysInTable(cf: Config, st: State, step: Step, x: Key)
    requires ValidConfig(cf) && Inv(cf, st) && Enabled(cf, st, step) && x in st.table
    requires !Removes(cf, st, step, x, st.table[x])
    ensures x in Next(cf, st, step).table && Next(cf, st, step).table[x] == st.table[x]
  {
    match step
    case Alloc(ntotal, ch) => AllocTable(cf, st, ntotal, ch, x);
    case Move(locked) => MovePassTable(cf, st, locked, x, st.table[x]);
    case Get(y, dead) =>
      if y in st.table { assert st.mem[st.table[y]].key == y; }
    case _ => if IsItemStep(step) { ItemStepTable(cf, st, step, x); }
  }

  lemma StepLeads(cf: Config, st: State, step: Step, st': State, x: Key, c: Chunk)
    requires ValidConfig(cf) && Inv(cf, st) && Takes(cf, st, step, st')
    requires if step == Link(c) then st.mem[c].key == x else Leads(st, x, c) && !Removes(cf, st, step, x, c)
    ensures Leads(st', x, c)
  {
    if step == Link(c) {
      LinkEffect(cf, st, c);
    } else {
      StaysInTable(cf, st, step, x);
    }
  }

  lemma {:induction false} TableLeads(cf: Config, steps: seq<Step>, states: seq<State>, i: nat, j: nat,
                                      x: Key, c: Chunk)
    requires ValidConfig(cf) && IsRun(cf, steps, states) && i < j <= |steps| && steps[i] == Link(c)
    requires c in states[i].mem && states[i].mem[c].key == x
    requires forall m :: i < m < j ==> steps[m] != Link(c) && !Removes(cf, states[m], steps[m], x, c)
    ensures Leads(states[j], x, c)
    decreases j
  {
    if j > i + 1 { TableLeads(cf, steps, states, i, j - 1, x, c); }
    RunKeepsInv(cf, steps, states, j - 1);
    assert IsStep(cf, steps, states, j - 1);
    StepLeads(cf, states[j - 1], steps[j - 1], states[j], x, c);
  }

  lemma LeadsIsFound(cf: Config, st: State, x: Key, c: Chunk)
    requires ValidConfig(cf) && Inv(cf, st) && Leads(st, x, c)
    ensures GetItem(cf, st, x, false).1 == if OnMovingPage(st, c) then None else Some(c)
  {
    LookupEffect(cf, st, x, false);
  }

  /** A look-up finds what was linked: after a step Link(c) of a run, and until a step that can take the
  item away, a look-up of its key returns c, unless its page is being moved. */
  lemma LookupFindsLinked(cf: Config, steps: seq<Step>, states: seq<State>, i: nat, j: nat, x: Key, c: Chunk)
    requires ValidConfig(cf) && IsRun(cf, steps, states) && i < j <= |steps| && steps[i] == Link(c)
    requires c in states[i].mem && states[i].mem[c].key == x
    requires forall m :: i < m < j ==> steps[m] != Link(c) && !Removes(cf, states[m], steps[m], x, c)
    ensures Inv(cf, states[j])
    ensures GetItem(cf, states[j], x, false).1 == if OnMovingPage(states[j], c) then None else Some(c)
  {
    RunKeepsInv(cf, steps, states, j);
    TableLeads(cf, steps, states, i, j, x, c);
    LeadsIsFound(cf, states[j], x, c);
  }

  // ----- When an allocation succeeds -----

  /** There is a free chunk, or a page may be had: the first page of a class may exceed the limit. */
  predicate HasChunk(cf: Config, st: State, k: nat, ok: bool)
    requires Sized(cf, st) && IsClass(cf, k)
  {
    || st.free[k] != []
    || (ok && (cf.limit == 0 || st.malloced + PageLen(cf, k) <= cf.limit || st.slabs[k] == []))
  }

  /** Position i of the list is among its last five, and its item is not locked and not in use. */
  predicate Usable(st: State, list: seq<Chunk>, locked: set<Chunk>, i: nat) {
    i < |list| <= i + 5 && list[i] !in locked && list[i] in st.mem && st.mem[list[i]].refcount == 1
  }

  lemma {:induction false} WalkUpFinds<T>(list: seq<T>, usable: T -> bool, tries: nat)
    ensures var r := WalkUp(list, usable, tries);
            && (r.Some? <==> exists i :: 0 <= i < |list| <= i + tries && usable(list[i]))
            && (r.Some? ==> exists i :: 0 <= i < |list| <= i + tries && r.value == list[i] && usable(list[i])
                              && forall j :: i < j < |list| ==> !usable(list[j]))
    decreases tries
  {
    if tries > 0 && list != [] {
      var n := |list| - 1;
      if usable(list[n]) {
        assert 0 <= n < |list| <= n + tries;
      } else {
        var rest := list[..n];
        WalkUpFinds(rest, usable, tries - 1);
        forall i | 0 <= i < |list| <= i + tries && usable(list[i])
          ensures 0 <= i < |rest| <= i + (tries - 1) && usable(rest[i])
        {
        }
        if WalkUp(rest, usable, tries - 1).Some? {
          var i :| && 0 <= i < |rest| <= i + (tries - 1) && WalkUp(rest, usable, tries - 1).value == rest[i]
                   && usable(rest[i]) && forall j :: i < j < |rest| ==> !usable(rest[j]);
          assert list[i] == rest[i];
        }
      }
    }
  }

  ghost predicate LastUsable(st: State, list: seq<Chunk>, locked: set<Chunk>, i: nat) {
    Usable(st, list, locked, i) && forall j :: i < j < |list| ==> !Usable(st, list, locked, j)
  }

  /** The item that may be recycled is the last usable one of the list. */
  lemma CandidateIsLast(st: State, list: seq<Chunk>, locked: set<Chunk>)
    ensures var r := Candidate(st, list, locked);
            && (forall i: nat :: LastUsable(st, list, locked, i) ==> r == Some(list[i]))
            && (r.Some? ==> exists i: nat :: LastUsable(st, list, locked, i))
  {
    var usable := (c: Chunk) => c !in locked && c in st.mem && st.mem[c].refcount == 1;
    var r := Candidate(st, list, locked);
    assert r == WalkUp(list, usable, 5);
    WalkUpFinds(list, usable, 5);
    if r.Some? {
      var n :| 0 <= n < |list| <= n + 5 && r.value == list[n] && usable(list[n])
               && forall j :: n < j < |list| ==> !usable(list[j]);
      assert LastUsable(st, list, locked, n);
      forall i: nat | LastUsable(st, list, locked, i) ensures r == Some(list[i]) {
        assert Usable(st, list, locked, n) && Usable(st, list, locked, i) && usable(list[i]);
      }
    } else {
      assert forall i :: 0 <= i < |list| <= i + 5 ==> !usable(list[i]);
    }
  }

  lemma SlabTakeIff(cf: Config, st: State, k: nat, page: nat, ok: bool)
    requires ValidConfig(cf) && Inv(cf, st) && IsClass(cf, k) && page !in st.owner
    ensures var r := SlabTake(cf, st, k, page, ok).1;
            && (r.Some? <==> HasChunk(cf, st, k, ok))
            && (r.Some? && r.value in st.mem ==> r.value == st.free[k][0] && IsFree(st.mem[r.value]))
  {
    assert ListsOf(st, k) && FreeOf(st, k);
    if st.free[k] != [] {
      assert st.free[k][0] in st.free[k];
    } else {
      NewSlabHas(cf, st, k, page, ok);
    }
  }

  /** A new page brings chunks, and the first of them is in memory. */
  lemma NewSlabHas(cf: Config, st: State, k: nat, page: nat, ok: bool)
    requires ValidConfig(cf) && Sized(cf, st) && Geometry(cf, st) && IsClass(cf, k)
    requires page !in st.owner && st.free[k] == []
    ensures var st' := NewSlab(cf, st, k, page, ok);
            && k < |st'.free| && (st'.free[k] != [] <==> HasChunk(cf, st, k, ok))
            && (st'.free[k] != [] ==> st'.free[k][0] in st'.mem && st'.free[k][0] !in st.mem)
  {
    PageChunksAre(page, PerSlab(cf, k));
    WithPageIs(st.mem, page, PerSlab(cf, k));
  }

  /** Exactly when an item of ntotal bytes is handed out, for the first class k that is large enough: when
  there is a chunk for it, or an item of the last five of the list that is not locked and not in use
  may be taken over because it is expired or because eviction is on. */
  lemma AllocSucceedsIff(cf: Config, st: State, ntotal: nat, ch: Choice, k: nat)
    requires ValidConfig(cf) && Inv(cf, st) && ch.page !in st.owner && ntotal > 0
    requires IsClass(cf, k) && cf.size[k] >= ntotal && forall j :: 1 <= j < k ==> cf.size[j] < ntotal
    ensures AllocItem(cf, st, ntotal, ch).1.Some? <==>
              || HasChunk(cf, st, k, ch.ok)
              || exists i: nat :: LastUsable(st, st.lru[k], ch.locked, i) && (ch.evict || st.lru[k][i] in ch.expired)
  {
    assert ClassFor(cf, ntotal, 1) == k;
    CandidateIsLast(st, st.lru[k], ch.locked);
    SlabTakeIff(cf, st, k, ch.page, ch.ok);
  }

  /** What is handed out: an expired item first, then a chunk, and only then an item that is in the
  cache. No class is large enough, or nothing was asked for: nothing. */
  lemma AllocPrefers(cf: Config, st: State, ntotal: nat, ch: Choice, k: nat, i: nat)
    requires ValidConfig(cf) && Inv(cf, st) && ch.page !in st.owner && ntotal > 0
    requires IsClass(cf, k) && cf.size[k] >= ntotal && forall j :: 1 <= j < k ==> cf.size[j] < ntotal
    requires LastUsable(st, st.lru[k], ch.locked, i)
    ensures var r, c := AllocItem(cf, st, ntotal, ch).1, st.lru[k][i];
            && (c in ch.expired ==> r == Some(c))
            && (c !in ch.expired && HasChunk(cf, st, k, ch.ok) ==>
                  r.Some? && (r.value in st.mem ==> IsFree(st.mem[r.value])))
            && (c !in ch.expired && !HasChunk(cf, st, k, ch.ok) ==> r == if ch.evict then Some(c) else None)
  {
    assert ClassFor(cf, ntotal, 1) == k;
    CandidateIsLast(st, st.lru[k], ch.locked);
    SlabTakeIff(cf, st, k, ch.page, ch.ok);
  }

  lemma AllocTooLarge(cf: Config, st: State, ntotal: nat, ch: Choice)
    requires ValidConfig(cf) && Inv(cf, st)
    requires ntotal == 0 || forall j :: IsClass(cf, j) ==> cf.size[j] < ntotal
    ensures AllocItem(cf, st, ntotal, ch) == (st, None)
  {
  }

  // ----- A page move comes to its end -----

  /** Nobody holds the chunk, and nobody is about to free it. */
  predicate Quiet(h: Header) {
    h.clsid == MOVED || IsFree(h) || (h.linked && h.held == 0)
  }

  ghost predicate QuietFrom(st: State, page: nat, n: nat) {
    forall c :: c in st.mem && c.page == page && c.index >= n ==> Quiet(st.mem[c])
  }

  /** The mover marks the chunk it is at exactly when it is quiet and its lock is free. */
  lemma MarksIff(cf: Config, st: State, locked: bool)
    requires Inv(cf, st) && Moving(st)
    ensures Cursor(st) in st.mem && Cursor(st) in MoveChunk(cf, st, locked).mem
    ensures var st', h := MoveChunk(cf, st, locked), st.mem[Cursor(st)];
            && (st'.mem[Cursor(st)].clsid == MOVED <==> h.clsid == MOVED || (!locked && Quiet(h)))
            && st'.rebal.pos == st.rebal.pos + 1
            && (st'.rebal.busy == st.rebal.busy <==> st'.mem[Cursor(st)].clsid == MOVED)
            && st'.rebal.busy >= st.rebal.busy
            && (forall c :: c in st.mem && c != Cursor(st) ==> c in st'.mem && st'.mem[c] == st.mem[c])
            && (forall c :: c in st'.mem ==> c in st.mem)
            && st'.rebal == st.rebal.(pos := st'.rebal.pos, busy := st'.rebal.busy)
  {
    CursorIsChunk(cf, st);
    MoveChunkFrame(cf, st, locked);
  }

  lemma {:induction false} PassFinishes(cf: Config, st: State, locked: seq<bool>)
    requires Inv(cf, st) && Moving(st) && st.rebal.busy == 0 && QuietFrom(st, st.rebal.page, st.rebal.pos)
    requires st.rebal.pos + |locked| >= PerSlab(cf, st.rebal.src) && forall i :: 0 <= i < |locked| ==> !locked[i]
    ensures MovePass(cf, st, locked).rebal == st.rebal.(pos := PerSlab(cf, st.rebal.src), done := true)
    decreases |locked|
  {
    MarksIff(cf, st, locked[0]);
    MoveKeepsInv(cf, st, locked[0]);
    var st1 := MoveChunk(cf, st, locked[0]);
    if st1.rebal.pos < PerSlab(cf, st.rebal.src) {
      PassFinishes(cf, EndPass(cf, st1), locked[1..]);
    }
  }

  lemma PassCompletes(cf: Config, st: State, locked: seq<bool>)
    requires ValidConfig(cf) && Inv(cf, st) && Moving(st) && st.rebal.busy == 0
    requires QuietFrom(st, st.rebal.page, st.rebal.pos)
    requires st.rebal.pos + |locked| >= PerSlab(cf, st.rebal.src) && forall i :: 0 <= i < |locked| ==> !locked[i]
    ensures var st' := Next(cf, st, Move(locked));
            Inv(cf, st') && Enabled(cf, st', Finish) && st'.rebal.page == st.rebal.page && st'.rebal.dst == st.rebal.dst
  {
    PassFinishes(cf, st, locked);
    NextKeepsInv(cf, st, Move(locked));
  }

  lemma FinishHandsOver(cf: Config, st: State)
    requires ValidConfig(cf) && Inv(cf, st) && Enabled(cf, st, Finish)
    ensures var st', page, dst := Next(cf, st, Finish), st.rebal.page, st.rebal.dst;
            && Inv(cf, st') && IsClass(cf, dst) && st'.rebal.signal == 0
            && page in st'.owner && st'.owner[page] == dst && page in st'.slabs[dst]
            && (forall c: Chunk :: c.page == page && c.index < PerSlab(cf, dst) ==> c in st'.free[dst])
  {
    NextKeepsInv(cf, st, Finish);
    FinishGivesPage(cf, st);
    var st', page, dst := Next(cf, st, Finish), st.rebal.page, st.rebal.dst;
    PageFrame(cf, st, st', page, dst);
    assert PagesOf(st', dst) && ListsOf(st', dst) && FreeOf(st', dst);
  }

  lemma StartBegins(cf: Config, st: State)
    requires ValidConfig(cf) && Inv(cf, st) && Enabled(cf, st, Start)
    requires IsClass(cf, st.rebal.src) && IsClass(cf, st.rebal.dst) && st.rebal.src != st.rebal.dst
    requires |st.slabs[st.rebal.src]| >= 2
    ensures var st' := Next(cf, st, Start);
            && Inv(cf, st') && Moving(st') && st'.rebal.page == st.slabs[st.rebal.src][0] && st'.rebal.pos == 0
            && st'.rebal.busy == 0 && st'.rebal.src == st.rebal.src && st'.rebal.dst == st.rebal.dst
            && st'.mem == st.mem
  {
    NextKeepsInv(cf, st, Start);
  }

  /** The whole protocol: from an idle mover, with no chunk of the source's first page in use and no lock
  held by others, request, start, one pass and finish follow on each other, and then the page belongs to
  the other class and all its chunks are free. */
  lemma PageMoveCompletes(cf: Config, st: State, src: nat, dst: nat, locked: seq<bool>)
    returns (st1: State, st2: State, st3: State, st4: State)
    requires ValidConfig(cf) && Inv(cf, st) && Enabled(cf, st, Request(src, dst))
    requires QuietFrom(st, st.slabs[src][0], 0)
    requires |locked| >= PerSlab(cf, src) && forall i :: 0 <= i < |locked| ==> !locked[i]
    ensures Takes(cf, st, Request(src, dst), st1) && Inv(cf, st1)
    ensures Takes(cf, st1, Start, st2) && Inv(cf, st2)
    ensures Takes(cf, st2, Move(locked), st3) && Inv(cf, st3)
    ensures Takes(cf, st3, Finish, st4) && Inv(cf, st4)
    ensures var page := st.slabs[src][0];
            && st4.rebal.signal == 0 && page in st4.owner && st4.owner[page] == dst && page in st4.slabs[dst]
            && (forall c: Chunk :: c.page == page && c.index < PerSlab(cf, dst) ==> c in st4.free[dst])
  {
    NextKeepsInv(cf, st, Request(src, dst));
    st1 := Next(cf, st, Request(src, dst));
    StartBegins(cf, st1);
    st2 := Next(cf, st1, Start);
    PassCompletes(cf, st2, locked);
    st3 := Next(cf, st2, Move(locked));
    FinishHandsOver(cf, st3);
    st4 := Next(cf, st3, Finish);
  }
}
