/**
 * What holds over whole runs of memcached commands: recency lists stay sorted by time, an
 * identifier never comes back, a compare-and-swap succeeds only on the item that was read, and a
 * flush hides what came before it and nothing that comes after.
 */
module CommandRuns {
  import opened Sequences
  import opened Words
  import opened Commands
  import opened Counters

  // ----- Flush keeps the invariant -----

  lemma {:induction false} WalkedIsSuffix(items: map<Key, Item>, q: seq<Key>, oldest: nat) returns (n: nat)
    requires Sorted(items, q)
    ensures n <= |q| && Walked(items, q, oldest) == q[n..]
    ensures forall i :: 0 <= i < |q| ==> (items[q[i]].time >= oldest <==> i < n)
  {
    if q != [] && items[q[0]].time >= oldest {
      var m := WalkedIsSuffix(items, q[1..], oldest);
      n := m + 1;
      forall i | 0 <= i < |q| ensures items[q[i]].time >= oldest <==> i < n {
        if i > 0 { assert q[1..][i - 1] == q[i]; }
      }
    } else {
      n := 0;
    }
  }

  /** The walk from the head of a sorted list leaves exactly the old items, in their order. */
  lemma WalkedHas(items: map<Key, Item>, q: seq<Key>, oldest: nat)
    requires Sorted(items, q)
    ensures forall k :: k in Walked(items, q, oldest) <==> k in q && items[k].time < oldest
    ensures Sorted(items, Walked(items, q, oldest))
  {
    var n := WalkedIsSuffix(items, q, oldest);
    forall k | k in q && items[k].time < oldest ensures k in q[n..] {
      var i := PositionOf(q, k);
      assert q[n..][i - n] == k;
    }
  }

  lemma SweptKeepsInv(s: State)
    requires Inv(s)
    ensures Inv(Swept(s))
  {
    if s.oldestLive != 0 {
      var t := Swept(s);
      forall c: nat | c < |t.lru| ensures ListOk(t, c) {
        assert ListOk(s, c);
        WalkedHas(s.items, s.lru[c], s.oldestLive);
        SortedFrame(s.items, t.items, t.lru[c]);
      }
      forall k | k in t.items ensures ItemOk(t, k) {
        assert ItemOk(s, k) && ListOk(s, s.items[k].cls);
        WalkedHas(s.items, s.lru[s.items[k].cls], s.oldestLive);
      }
    }
  }

  lemma GlobalsKeepInv(s: State, now: nat, oldest: nat)
    requires Inv(s) && s.now <= now < U32 && oldest < U32
    ensures Inv(s.(now := now, oldestLive := oldest))
  {
    var t := s.(now := now, oldestLive := oldest);
    forall k | k in s.items ensures ItemOk(t, k) { assert ItemOk(s, k); }
    forall c: nat | c < |s.lru| ensures ListOk(t, c) { assert ListOk(s, c); }
  }

  lemma FlushKeepsInv(s: State, oldest: nat)
    requires Inv(s) && oldest < U32
    ensures Inv(Flush(s, oldest))
  {
    GlobalsKeepInv(s, s.now, oldest);
    SweptKeepsInv(s.(oldestLive := oldest));
  }

  lemma FlushNowKeepsInv(s: State)
    requires Inv(s)
    ensures Inv(FlushNow(s))
  {
    FlushKeepsInv(s, (s.now - 1) % U32);
  }

  // ----- Every command keeps the invariant -----

  lemma TouchKeepsInv(s: State, k: Key, exptime: nat)
    requires Inv(s) && k in s.items
    ensures Inv(s.(items := s.items[k := s.items[k].(exptime := exptime)]))
  {
    var t := s.(items := s.items[k := s.items[k].(exptime := exptime)]);
    forall l | l in t.items ensures ItemOk(t, l) { assert ItemOk(s, l); }
    forall c: nat | c < |s.lru| ensures ListOk(t, c) {
      assert ListOk(s, c);
      SortedFrame(s.items, t.items, s.lru[c]);
    }
  }

  lemma DropKeepsInv(s: State, k: Key)
    requires Inv(s)
    ensures Inv(Unlink(s, k)) && Unlink(s, k).items == s.items - {k}
  {
    if k in s.items {
      UnlinkKeepsInv(s, k);
    } else {
      assert s.items - {k} == s.items;
    }
  }

  lemma RelinkKeepsInv(s: State, k: Key, it: Item)
    requires Inv(s) && it.cls < |s.lru|
    ensures Inv(Relink(s, k, it))
  {
    DropKeepsInv(s, k);
    LinkKeepsInv(Unlink(s, k), k, it.data, it.exptime, it.cls);
  }

  lemma LookedKeepsInv(s: State, c: Command)
    requires Inv(s)
    ensures Inv(Looked(s, c)) && Looked(s, c) == s.(items := Looked(s, c).items, lru := Looked(s, c).lru)
    ensures |Looked(s, c).lru| == |s.lru|
    ensures forall k :: k in Looked(s, c).items ==> k in s.items && Looked(s, c).items[k] == s.items[k]
  {
    if LookupOf(c).Some? {
      DropKeepsInv(s, LookupOf(c).value.0);
    }
  }

  lemma AfterStoreKeepsInv(useCas: bool, s: State, r: Request)
    requires Inv(s) && RequestOk(r, s)
    ensures Inv(AfterStore(useCas, s, r))
  {
    RefreshKeepsInv(s, r.key);
    RelinkKeepsInv(s, r.key, Contents(r, s));
  }

  lemma AfterTouchKeepsInv(s: State, k: Key, exptime: nat)
    requires Inv(s)
    ensures Inv(AfterTouch(s, k, exptime))
  {
    if k in s.items {
      TouchKeepsInv(s, k, exptime);
      RefreshKeepsInv(s.(items := s.items[k := s.items[k].(exptime := exptime)]), k);
    }
  }

  lemma AfterDeltaKeepsInv(useCas: bool, s: State, c: Command)
    requires Inv(s) && c.Delta? && CommandOk(s, c)
    ensures Inv(AfterDelta(useCas, s, c))
  {
    if DeltaReply(useCas, s, c).Stored? {
      RelinkKeepsInv(s, c.key, DeltaItem(s, c));
    }
  }

  lemma ActKeepsInv(useCas: bool, s: State, c: Command)
    requires Inv(s) && CommandOk(s, c)
    ensures Inv(Act(useCas, s, c))
  {
    match c
    case Get(k, _) => RefreshKeepsInv(s, k);
    case Put(r, _) => AfterStoreKeepsInv(useCas, s, r);
    case Delete(k, _) => DropKeepsInv(s, k);
    case Touch(k, e, _) => AfterTouchKeepsInv(s, k, e);
    case Delta(_, _, _, _, _) => AfterDeltaKeepsInv(useCas, s, c);
    case FlushAll => FlushNowKeepsInv(s);
    case FlushLater(oldest) => FlushKeepsInv(s, oldest);
    case Clock(t) => GlobalsKeepInv(s, t, s.oldestLive);
    case Evict(k) => DropKeepsInv(s, k);
  }

  /** Every command keeps the lists sorted, the keys unique and the identifiers distinct. */
  lemma NextKeepsInv(useCas: bool, s: State, c: Command)
    requires Inv(s) && CommandOk(s, c)
    ensures Inv(Next(useCas, s, c))
  {
    LookedKeepsInv(s, c);
    ActKeepsInv(useCas, Looked(s, c), c);
  }

  // ----- Where items come from -----

  /** The item at k in t was linked by the step, or is an item of s, perhaps used or touched. */
  ghost predicate Origin(s: State, t: State, k: Key)
    requires k in t.items
  {
    var it := t.items[k];
    || (it.id == s.links + 1 && it.born == it.time == s.now)
    || (k in s.items && it == s.items[k].(time := it.time, exptime := it.exptime)
        && (it.time == s.items[k].time || it.time == s.now))
  }

  ghost predicate Follows(s: State, t: State) {
    && s.now <= t.now && s.links <= t.links && |t.lru| == |s.lru|
    && forall k :: k in t.items ==> Origin(s, t, k)
  }

  lemma UnlinkFollows(s: State, k: Key)
    requires Inv(s)
    ensures Follows(s, Unlink(s, k)) && Unlink(s, k).links == s.links
  {
    DropKeepsInv(s, k);
  }

  lemma RefreshFollows(s: State, k: Key)
    requires Inv(s)
    ensures Follows(s, Refresh(s, k)) && Refresh(s, k).links == s.links
  {
    DropKeepsInv(s, k);
  }

  lemma RelinkFollows(s: State, k: Key, it: Item)
    requires Inv(s) && it.cls < |s.lru|
    ensures Follows(s, Relink(s, k, it)) && Relink(s, k, it).links == s.links + 1
    ensures Relink(s, k, it).items[k].data == it.data && Relink(s, k, it).items[k].exptime == it.exptime
  {
    DropKeepsInv(s, k);
  }

  lemma AfterStoreFollows(useCas: bool, s: State, r: Request)
    requires Inv(s) && RequestOk(r, s)
    ensures Follows(s, AfterStore(useCas, s, r))
  {
    RefreshFollows(s, r.key);
    RelinkFollows(s, r.key, Contents(r, s));
  }

  lemma AfterTouchFollows(s: State, k: Key, exptime: nat)
    requires Inv(s)
    ensures Follows(s, AfterTouch(s, k, exptime)) && AfterTouch(s, k, exptime).links == s.links
  {
    if k in s.items {
      TouchKeepsInv(s, k, exptime);
      RefreshFollows(s.(items := s.items[k := s.items[k].(exptime := exptime)]), k);
    }
  }

  lemma AfterDeltaFollows(useCas: bool, s: State, c: Command)
    requires Inv(s) && c.Delta? && CommandOk(s, c)
    ensures Follows(s, AfterDelta(useCas, s, c))
  {
    if DeltaReply(useCas, s, c).Stored? {
      RelinkFollows(s, c.key, DeltaItem(s, c));
    }
  }

  lemma ActFollows(useCas: bool, s: State, c: Command)
    requires Inv(s) && CommandOk(s, c)
    ensures Follows(s, Act(useCas, s, c))
  {
    match c
    case Get(k, _) => RefreshFollows(s, k);
    case Put(r, _) => AfterStoreFollows(useCas, s, r);
    case Delete(k, _) => UnlinkFollows(s, k);
    case Touch(k, e, _) => AfterTouchFollows(s, k, e);
    case Delta(_, _, _, _, _) => AfterDeltaFollows(useCas, s, c);
    case FlushAll =>
    case FlushLater(_) =>
    case Clock(_) =>
    case Evict(k) => UnlinkFollows(s, k);
  }

  /** A step creates at most one item, with a number never used before. */
  lemma NextFollows(useCas: bool, s: State, c: Command)
    requires Inv(s) && CommandOk(s, c)
    ensures Follows(s, Next(useCas, s, c))
  {
    LookedKeepsInv(s, c);
    ActFollows(useCas, Looked(s, c), c);
  }

  // ----- What a command does to its key, and to the others -----

  function KeyOf(c: Command): Option<Key> {
    if c.Evict? then Some(c.key) else if LookupOf(c).Some? then Some(LookupOf(c).value.0) else None
  }

  /** The item under l is the same, or missing, in both. */
  ghost predicate Agree(s: State, t: State, l: Key) {
    (l in s.items <==> l in t.items) && (l in s.items ==> s.items[l] == t.items[l])
  }

  lemma UnlinkOther(s: State, k: Key, l: Key)
    requires Inv(s) && l != k
    ensures Agree(s, Unlink(s, k), l)
  {
    DropKeepsInv(s, k);
  }

  lemma RefreshOther(s: State, k: Key, l: Key)
    requires Inv(s) && l != k
    ensures Agree(s, Refresh(s, k), l)
  {
    DropKeepsInv(s, k);
  }

  lemma RelinkOther(s: State, k: Key, it: Item, l: Key)
    requires Inv(s) && it.cls < |s.lru| && l != k
    ensures Agree(s, Relink(s, k, it), l)
  {
    DropKeepsInv(s, k);
  }

  lemma StoreOther(useCas: bool, s: State, r: Request, l: Key)
    requires Inv(s) && RequestOk(r, s) && l != r.key
    ensures Agree(s, AfterStore(useCas, s, r), l)
  {
    RefreshOther(s, r.key, l);
    RelinkOther(s, r.key, Contents(r, s), l);
  }

  lemma TouchOther(s: State, k: Key, exptime: nat, l: Key)
    requires Inv(s) && l != k
    ensures Agree(s, AfterTouch(s, k, exptime), l)
  {
    if k in s.items {
      TouchKeepsInv(s, k, exptime);
      RefreshOther(s.(items := s.items[k := s.items[k].(exptime := exptime)]), k, l);
    }
  }

  lemma DeltaOther(useCas: bool, s: State, c: Command, l: Key)
    requires Inv(s) && c.Delta? && CommandOk(s, c) && l != c.key
    ensures Agree(s, AfterDelta(useCas, s, c), l)
  {
    if DeltaReply(useCas, s, c).Stored? {
      RelinkOther(s, c.key, DeltaItem(s, c), l);
    }
  }

  lemma ActKeepsOthers(useCas: bool, s: State, c: Command, l: Key)
    requires Inv(s) && CommandOk(s, c) && !IsFlush(c) && KeyOf(c) != Some(l)
    ensures Agree(s, Act(useCas, s, c), l)
  {
    match c
    case Get(k, _) => RefreshOther(s, k, l);
    case Put(r, _) => StoreOther(useCas, s, r, l);
    case Delete(k, _) => UnlinkOther(s, k, l);
    case Touch(k, e, _) => TouchOther(s, k, e, l);
    case Delta(_, _, _, _, _) => DeltaOther(useCas, s, c, l);
    case Clock(_) =>
    case Evict(k) => UnlinkOther(s, k, l);
  }

  /** A command on one key leaves every other item exactly as it was. */
  lemma OtherKeysStay(useCas: bool, s: State, c: Command, l: Key)
    requires Inv(s) && CommandOk(s, c) && !IsFlush(c) && KeyOf(c) != Some(l)
    ensures Agree(s, Next(useCas, s, c), l)
  {
    LookedKeepsInv(s, c);
    if LookupOf(c).Some? {
      UnlinkOther(s, LookupOf(c).value.0, l);
    }
    ActKeepsOthers(useCas, Looked(s, c), c, l);
  }

  /** The value a store leaves: a plain one replaces, append and prepend extend what was there. */
  lemma StoreEffect(useCas: bool, s: State, c: Command)
    requires Inv(s) && c.Put? && CommandOk(s, c) && ReplyTo(useCas, s, c) == Stored
    ensures c.request.key in Next(useCas, s, c).items
    ensures var r, it := c.request, Next(useCas, s, c).items[c.request.key];
            && it.time == it.born == s.now && it.id == s.links + 1
            && (!Combines(r.mode) ==> it.data == r.data && it.exptime == r.exptime && it.cls == r.cls)
            && (Combines(r.mode) ==>
                  && Found(s, r.key, c.moving) && it.exptime == s.items[r.key].exptime
                  && it.data == if r.mode == Append then s.items[r.key].data + r.data else r.data + s.items[r.key].data)
            && (r.mode == Add ==> !Found(s, r.key, c.moving))
            && (r.mode == Replace ==> Found(s, r.key, c.moving))
  {
    DropKeepsInv(s, c.request.key);
    LookedKeepsInv(s, c);
    DropKeepsInv(Looked(s, c), c.request.key);
  }

  /** A look-up that finds nothing leaves nothing under the key; delete does so always. */
  lemma MissLeavesNothing(useCas: bool, s: State, c: Command)
    requires Inv(s) && CommandOk(s, c) && (c.Get? || c.Touch? || c.Delta? || c.Delete?)
    requires c.Delete? || !Found(s, c.key, c.moving)
    ensures c.key !in Next(useCas, s, c).items
  {
    DropKeepsInv(s, c.key);
    LookedKeepsInv(s, c);
    DropKeepsInv(Looked(s, c), c.key);
  }

  /** What get, touch, incr and decr do to an item they find. */
  lemma HitEffect(useCas: bool, s: State, c: Command)
    requires Inv(s) && CommandOk(s, c) && (c.Get? || c.Touch? || c.Delta?) && Found(s, c.key, c.moving)
    ensures c.key in Next(useCas, s, c).items
    ensures var was, it := s.items[c.key], Next(useCas, s, c).items[c.key];
            && (c.Get? ==> ReplyTo(useCas, s, c) == Value(was) && it == was.(time := it.time))
            && (c.Touch? ==> it == was.(time := it.time, exptime := c.exptime))
            && (c.Delta? && ReplyTo(useCas, s, c) != Stored ==> it == was)
            && (c.Delta? && ReplyTo(useCas, s, c) == Stored ==>
                  && Changed(c.change, was.data) == Some(it.data) && it.exptime == was.exptime && it.id == s.links + 1
                  && (c.cas == 0 || c.cas == CasOf(useCas, was)))
  {
    DropKeepsInv(s, c.key);
  }

  // ----- Runs -----

  ghost predicate IsRun(useCas: bool, ss: seq<State>, cs: seq<Command>) {
    && |ss| == |cs| + 1 && Inv(ss[0])
    && forall i: nat :: i < |cs| ==> IsStep(useCas, ss, cs, i)
  }

  ghost predicate IsStep(useCas: bool, ss: seq<State>, cs: seq<Command>, i: nat)
    requires i < |cs| && |ss| == |cs| + 1
  {
    CommandOk(ss[i], cs[i]) && ss[i + 1] == Next(useCas, ss[i], cs[i])
  }

  /** In every reachable state the recency lists are sorted by non-increasing time. */
  lemma {:induction false} RunKeepsInv(useCas: bool, ss: seq<State>, cs: seq<Command>, i: nat)
    requires IsRun(useCas, ss, cs) && i <= |cs|
    ensures Inv(ss[i])
  {
    if i > 0 {
      RunKeepsInv(useCas, ss, cs, i - 1);
      assert IsStep(useCas, ss, cs, i - 1);
      NextKeepsInv(useCas, ss[i - 1], cs[i - 1]);
    }
  }

  lemma RunFollows(useCas: bool, ss: seq<State>, cs: seq<Command>, i: nat)
    requires IsRun(useCas, ss, cs) && i < |cs|
    ensures Inv(ss[i]) && Follows(ss[i], ss[i + 1])
  {
    RunKeepsInv(useCas, ss, cs, i);
    assert IsStep(useCas, ss, cs, i);
    NextFollows(useCas, ss[i], cs[i]);
  }

  /** Numbers and time only grow. */
  lemma {:induction false} RunGrows(useCas: bool, ss: seq<State>, cs: seq<Command>, i: nat, j: nat)
    requires IsRun(useCas, ss, cs) && i <= j <= |cs|
    ensures ss[i].links <= ss[j].links && ss[i].now <= ss[j].now
    decreases j
  {
    if i < j {
      RunGrows(useCas, ss, cs, i, j - 1);
      RunFollows(useCas, ss, cs, j - 1);
    }
  }

  /**
   * An identifier never comes back: an item whose number was given out by time i and that is
   * linked at time j was linked at time i, under the same key and with the same value.
   */
  lemma {:induction false} NumbersNeverComeBack(useCas: bool, ss: seq<State>, cs: seq<Command>, i: nat, j: nat, k: Key)
    requires IsRun(useCas, ss, cs) && i <= j <= |cs|
    requires k in ss[j].items && ss[j].items[k].id <= ss[i].links
    ensures k in ss[i].items && ss[i].items[k].id == ss[j].items[k].id
    ensures ss[i].items[k].data == ss[j].items[k].data && ss[i].items[k].born == ss[j].items[k].born
    decreases j
  {
    if i < j {
      RunGrows(useCas, ss, cs, i, j - 1);
      RunFollows(useCas, ss, cs, j - 1);
      assert Origin(ss[j - 1], ss[j], k);
      NumbersNeverComeBack(useCas, ss, cs, i, j - 1, k);
    }
  }

  // ----- Compare and swap -----

  /** A compare-and-swap on k with identifier cas. */
  predicate IsCas(c: Command, k: Key, cas: nat) {
    c.Put? && c.request.mode == Cas && c.request.key == k && c.request.cas == cas
  }

  /** With identifiers on, a swap is accepted exactly when the linked item's number agrees modulo 2^64. */
  lemma CasComparesNumbers(s: State, c: Command, k: Key, n: nat)
    requires Inv(s) && IsCas(c, k, n % U64)
    ensures ReplyTo(true, s, c) == Stored <==> Found(s, k, c.moving) && s.items[k].id % U64 == n % U64
  {
    DropKeepsInv(s, k);
  }

  /**
   * Compare-and-swap has no ABA. A client read k at step i and swaps at step j. While fewer than
   * 2^64 items were linked, the swap is accepted exactly when a look-up at j finds the very item
   * that was read; and then that item was linked with that value at every state in between.
   */
  lemma CasHasNoAba(ss: seq<State>, cs: seq<Command>, i: nat, j: nat, k: Key, it: Item)
    requires IsRun(true, ss, cs) && i <= j < |cs|
    requires cs[i].Get? && cs[i].key == k && ReplyTo(true, ss[i], cs[i]) == Value(it)
    requires IsCas(cs[j], k, CasOf(true, it)) && ss[j].links < U64
    ensures ReplyTo(true, ss[j], cs[j]) == Stored <==> Found(ss[j], k, cs[j].moving) && ss[j].items[k].id == it.id
    ensures ReplyTo(true, ss[j], cs[j]) == Stored ==>
              forall m :: i <= m <= j ==>
                k in ss[m].items && ss[m].items[k].id == it.id && ss[m].items[k].data == it.data
  {
    RunKeepsInv(true, ss, cs, i);
    RunKeepsInv(true, ss, cs, j);
    RunGrows(true, ss, cs, i, j);
    assert Found(ss[i], k, cs[i].moving) && ItemOk(ss[i], k);
    CasComparesNumbers(ss[j], cs[j], k, it.id);
    if k in ss[j].items {
      assert ItemOk(ss[j], k);
      if ss[j].items[k].id == it.id {
        NumbersNeverComeBack(true, ss, cs, i, j, k);
        forall m | i <= m <= j
          ensures k in ss[m].items && ss[m].items[k].id == it.id && ss[m].items[k].data == it.data
        {
          RunGrows(true, ss, cs, i, m);
          NumbersNeverComeBack(true, ss, cs, m, j, k);
        }
      }
    }
  }

  lemma StoredIsNew(s: State, c: Command)
    requires Inv(s) && c.Put? && CommandOk(s, c) && ReplyTo(true, s, c) == Stored
    ensures c.request.key in Next(true, s, c).items && Next(true, s, c).items[c.request.key].id == s.links + 1
    ensures Next(true, s, c).links == s.links + 1
  {
    LookedKeepsInv(s, c);
    DropKeepsInv(Looked(s, c), c.request.key);
  }

  lemma AcceptedCas(s: State, c: Command, k: Key, cas: nat)
    requires Inv(s) && s.links < U64 && IsCas(c, k, cas) && cas < U64 && ReplyTo(true, s, c) == Stored
    ensures k in s.items && s.items[k].id == cas <= s.links
  {
    CasComparesNumbers(s, c, k, cas);
    assert ItemOk(s, k);
  }

  /** Of two swaps with the same identifier at most one is accepted. */
  lemma CasWinsOnce(ss: seq<State>, cs: seq<Command>, i: nat, j: nat, k: Key, cas: nat)
    requires IsRun(true, ss, cs) && i < j < |cs| && ss[j].links < U64
    requires IsCas(cs[i], k, cas) && IsCas(cs[j], k, cas) && cas < U64
    ensures ReplyTo(true, ss[i], cs[i]) == Stored ==> ReplyTo(true, ss[j], cs[j]) != Stored
  {
    if ReplyTo(true, ss[i], cs[i]) == Stored && ReplyTo(true, ss[j], cs[j]) == Stored {
      RunKeepsInv(true, ss, cs, i);
      RunKeepsInv(true, ss, cs, j);
      RunGrows(true, ss, cs, i, j);
      AcceptedCas(ss[i], cs[i], k, cas);
      AcceptedCas(ss[j], cs[j], k, cas);
      assert IsStep(true, ss, cs, i);
      StoredIsNew(ss[i], cs[i]);
      NumbersNeverComeBack(true, ss, cs, i + 1, j, k);
      assert false;
    }
  }

  /** With identifiers off every swap on an item that is found is accepted. */
  lemma CasOffAcceptsAll(s: State, c: Command, k: Key, cas: nat)
    requires Inv(s) && IsCas(c, k, cas)
    ensures ReplyTo(false, s, c) == Stored <==> Found(s, k, c.moving)
  {
    DropKeepsInv(s, k);
  }

  /** After 2^64 links the identifier is reused, and a swap no longer tells the two items apart. */
  lemma CasWraps(s: State, c: Command, k: Key, n: nat)
    requires Inv(s) && IsCas(c, k, n % U64) && Found(s, k, c.moving) && s.items[k].id == n + U64
    ensures ReplyTo(true, s, c) == Stored
  {
    CasComparesNumbers(s, c, k, n);
  }

  // ----- Flush -----

  /** Between flushes: an item used after the flush time was linked after it. */
  ghost predicate FlushInv(s: State, oldest: nat) {
    && s.oldestLive == oldest > 0
    && forall k :: k in s.items && s.items[k].time > oldest ==> s.items[k].born > oldest
  }

  lemma RefreshKeepsFlush(s: State, k: Key, oldest: nat)
    requires Inv(s) && FlushInv(s, oldest) && (k in s.items ==> !HiddenByFlush(s, s.items[k]))
    ensures FlushInv(Refresh(s, k), oldest)
  {
    DropKeepsInv(s, k);
  }

  lemma RelinkKeepsFlush(s: State, k: Key, it: Item, oldest: nat)
    requires Inv(s) && FlushInv(s, oldest) && it.cls < |s.lru|
    ensures FlushInv(Relink(s, k, it), oldest)
  {
    DropKeepsInv(s, k);
  }

  lemma UnlinkKeepsFlush(s: State, k: Key, oldest: nat)
    requires Inv(s) && FlushInv(s, oldest)
    ensures FlushInv(Unlink(s, k), oldest)
  {
    DropKeepsInv(s, k);
  }

  lemma AfterStoreKeepsFlush(useCas: bool, s: State, r: Request, oldest: nat)
    requires Inv(s) && RequestOk(r, s) && FlushInv(s, oldest)
    requires r.key in s.items ==> !HiddenByFlush(s, s.items[r.key])
    ensures FlushInv(AfterStore(useCas, s, r), oldest)
  {
    RefreshKeepsFlush(s, r.key, oldest);
    RelinkKeepsFlush(s, r.key, Contents(r, s), oldest);
  }

  lemma AfterTouchKeepsFlush(s: State, k: Key, exptime: nat, oldest: nat)
    requires Inv(s) && FlushInv(s, oldest) && (k in s.items ==> !HiddenByFlush(s, s.items[k]))
    ensures FlushInv(AfterTouch(s, k, exptime), oldest)
  {
    if k in s.items {
      TouchKeepsInv(s, k, exptime);
      RefreshKeepsFlush(s.(items := s.items[k := s.items[k].(exptime := exptime)]), k, oldest);
    }
  }

  lemma AfterDeltaKeepsFlush(useCas: bool, s: State, c: Command, oldest: nat)
    requires Inv(s) && c.Delta? && CommandOk(s, c) && FlushInv(s, oldest)
    ensures FlushInv(AfterDelta(useCas, s, c), oldest)
  {
    if DeltaReply(useCas, s, c).Stored? {
      RelinkKeepsFlush(s, c.key, DeltaItem(s, c), oldest);
    }
  }

  ghost predicate LookupIsLive(s: State, c: Command) {
    LookupOf(c).Some? && LookupOf(c).value.0 in s.items ==> !HiddenByFlush(s, s.items[LookupOf(c).value.0])
  }

  lemma ActKeepsFlush(useCas: bool, s: State, c: Command, oldest: nat)
    requires Inv(s) && CommandOk(s, c) && !IsFlush(c) && FlushInv(s, oldest) && LookupIsLive(s, c)
    ensures FlushInv(Act(useCas, s, c), oldest)
  {
    match c
    case Get(k, _) => RefreshKeepsFlush(s, k, oldest);
    case Put(r, _) => AfterStoreKeepsFlush(useCas, s, r, oldest);
    case Delete(k, _) => UnlinkKeepsFlush(s, k, oldest);
    case Touch(k, e, _) => AfterTouchKeepsFlush(s, k, e, oldest);
    case Delta(_, _, _, _, _) => AfterDeltaKeepsFlush(useCas, s, c, oldest);
    case Clock(_) =>
    case Evict(k) => UnlinkKeepsFlush(s, k, oldest);
  }

  /** A hidden item is never refreshed, because every use begins with a look-up. */
  lemma NextKeepsFlush(useCas: bool, s: State, c: Command, oldest: nat)
    requires Inv(s) && CommandOk(s, c) && !IsFlush(c) && FlushInv(s, oldest)
    ensures FlushInv(Next(useCas, s, c), oldest)
  {
    LookedKeepsInv(s, c);
    var t := Looked(s, c);
    assert LookupIsLive(t, c) by {
      if LookupOf(c).Some? { DropKeepsInv(s, LookupOf(c).value.0); }
    }
    ActKeepsFlush(useCas, t, c, oldest);
  }

  lemma FlushStarts(s: State, oldest: nat)
    requires Inv(s) && 0 < oldest < U32
    ensures FlushInv(Flush(s, oldest), oldest)
    ensures forall k :: k in Flush(s, oldest).items ==> k in s.items && Flush(s, oldest).items[k] == s.items[k]
    ensures forall k :: k in Flush(s, oldest).items ==> s.items[k].born <= s.items[k].time < oldest
  {
    forall k | k in s.items ensures s.items[k].born <= s.items[k].time {
      assert ItemOk(s, k);
    }
  }

  /** The value a flush command gives to the flush time. */
  function FlushTime(s: State, c: Command): nat
    requires IsFlush(c)
  {
    if c.FlushAll? then (s.now - 1) % U32 else c.oldest
  }

  /** Step i is a flush, and no other flush follows before state j. */
  ghost predicate LastFlush(cs: seq<Command>, i: nat, j: nat) {
    i < j <= |cs| && IsFlush(cs[i]) && forall m :: i < m < j ==> !IsFlush(cs[m])
  }

  lemma {:induction false} FlushLasts(useCas: bool, ss: seq<State>, cs: seq<Command>, i: nat, j: nat)
    requires IsRun(useCas, ss, cs) && LastFlush(cs, i, j) && FlushTime(ss[i], cs[i]) > 0
    ensures FlushInv(ss[j], FlushTime(ss[i], cs[i]))
    decreases j
  {
    RunKeepsInv(useCas, ss, cs, j - 1);
    assert IsStep(useCas, ss, cs, j - 1);
    if i == j - 1 {
      FlushStarts(ss[i], FlushTime(ss[i], cs[i]));
    } else {
      FlushLasts(useCas, ss, cs, i, j - 1);
      NextKeepsFlush(useCas, ss[j - 1], cs[j - 1], FlushTime(ss[i], cs[i]));
    }
  }

  /**
   * Immediate or delayed: from the flush time on, until the next flush, a look-up returns exactly
   * the unexpired items that were linked after the flush time.
   */
  lemma FlushHidesByLinkTime(useCas: bool, ss: seq<State>, cs: seq<Command>, i: nat, j: nat, k: Key, moving: bool)
    requires IsRun(useCas, ss, cs) && LastFlush(cs, i, j) && 0 < FlushTime(ss[i], cs[i]) <= ss[j].now
    ensures Found(ss[j], k, moving) <==>
              && k in ss[j].items && ss[j].items[k].born > FlushTime(ss[i], cs[i])
              && !Expired(ss[j], ss[j].items[k]) && !moving
  {
    RunKeepsInv(useCas, ss, cs, j);
    FlushLasts(useCas, ss, cs, i, j);
    if k in ss[j].items {
      assert ItemOk(ss[j], k);
    }
  }

  /** After flush_all the items numbered before it are those linked before it. */
  ghost predicate NumbersTellTime(s: State, links: nat, now: nat) {
    forall k :: k in s.items ==> (s.items[k].id > links <==> s.items[k].born >= now)
  }

  lemma FlushStep(useCas: bool, ss: seq<State>, cs: seq<Command>, i: nat)
    requires IsRun(useCas, ss, cs) && i < |cs| && cs[i] == FlushAll
    ensures ss[i + 1] == FlushNow(ss[i])
  {
    assert IsStep(useCas, ss, cs, i);
  }

  lemma FlushNumbers(s: State)
    requires Inv(s) && s.now >= 2
    ensures NumbersTellTime(FlushNow(s), s.links, s.now)
  {
    FlushStarts(s, s.now - 1);
    forall k | k in s.items ensures s.items[k].id <= s.links { assert ItemOk(s, k); }
  }

  lemma StepTellsTime(s: State, t: State, links: nat, now: nat)
    requires Follows(s, t) && NumbersTellTime(s, links, now) && s.links >= links && s.now >= now
    ensures NumbersTellTime(t, links, now)
  {
    forall k | k in t.items ensures t.items[k].id > links <==> t.items[k].born >= now {
      assert Origin(s, t, k);
    }
  }

  lemma {:induction false} NumbersKeepTellingTime(useCas: bool, ss: seq<State>, cs: seq<Command>, i: nat, j: nat)
    requires IsRun(useCas, ss, cs) && LastFlush(cs, i, j) && cs[i] == FlushAll && ss[i].now >= 2
    ensures NumbersTellTime(ss[j], ss[i].links, ss[i].now)
    decreases j
  {
    RunFollows(useCas, ss, cs, j - 1);
    if i == j - 1 {
      FlushStep(useCas, ss, cs, i);
      FlushNumbers(ss[i]);
    } else {
      NumbersKeepTellingTime(useCas, ss, cs, i, j - 1);
      RunGrows(useCas, ss, cs, i, j - 1);
      StepTellsTime(ss[j - 1], ss[j], ss[i].links, ss[i].now);
    }
  }

  /**
   * Flush correctness: after flush_all, until the next flush, a look-up returns exactly the
   * unexpired items stored after it. None from before comes back and none from after is hidden.
   */
  lemma FlushAllHidesWhatCameBefore(
    useCas: bool, ss: seq<State>, cs: seq<Command>, i: nat, j: nat, k: Key, moving: bool)
    requires IsRun(useCas, ss, cs) && LastFlush(cs, i, j) && cs[i] == FlushAll && ss[i].now >= 2
    ensures Found(ss[j], k, moving) <==>
              k in ss[j].items && ss[j].items[k].id > ss[i].links && !Expired(ss[j], ss[j].items[k]) && !moving
  {
    RunKeepsInv(useCas, ss, cs, i);
    RunGrows(useCas, ss, cs, i, j);
    FlushHidesByLinkTime(useCas, ss, cs, i, j, k, moving);
    NumbersKeepTellingTime(useCas, ss, cs, i, j);
  }

  /** flush_all needs a clock of at least 2, which is where the server starts it. */
  lemma FlushAllWorksIff(s: State, k: Key)
    requires Inv(s) && Found(s, k, false)
    ensures (forall l :: !Found(FlushNow(s), l, false)) <==> s.now >= 2
  {
    assert ItemOk(s, k);
    if s.now >= 2 {
      FlushStarts(s, s.now - 1);
    } else {
      assert Found(FlushNow(s), k, false);
    }
  }

  lemma FlushNowIs(s: State, k: Key)
    requires Inv(s) && k in s.items && s.now >= 2
    ensures FlushNow(s).now == s.now && FlushNow(s).oldestLive == s.now - 1
    ensures k in FlushNow(s).items <==> s.items[k].time < s.now - 1
    ensures k in FlushNow(s).items ==> FlushNow(s).items[k] == s.items[k]
  {
    assert (s.now - 1) % U32 == s.now - 1;
  }

  /** An item is due for a refresh after 60 seconds without use; the difference is on 32-bit unsigned numbers,
  so that in the first minute of the clock every item is due. */
  lemma DueAfterAMinute(s: State, it: Item)
    requires s.now < 0x1_0000_0000 && it.time <= s.now
    ensures IsDue(s, it) <==> s.now < 60 || it.time + 60 < s.now
  {
    if s.now < 60 {
      assert (s.now - 60) % 0x1_0000_0000 == s.now - 60 + 0x1_0000_0000;
    }
  }

  lemma RefreshAt(s: State, k: Key)
    requires Inv(s)
    ensures k in Refresh(s, k).items <==> k in s.items
    ensures k in s.items ==>
              Refresh(s, k).items[k] ==
                if IsDue(s, s.items[k]) then s.items[k].(time := s.now) else s.items[k]
    ensures k in s.items ==> s.items[k].cls < |s.lru|
    ensures k in s.items ==>
              Refresh(s, k).lru[s.items[k].cls] ==
                if IsDue(s, s.items[k]) then [k] + Drop(s.lru[s.items[k].cls], k)
                else s.lru[s.items[k].cls]
    ensures Refresh(s, k).now == s.now && Refresh(s, k).oldestLive == s.oldestLive
  {
    if k in s.items { assert ItemOk(s, k); }
  }

  /**
   * The commands take their locks twice, for the look-up and for the refresh. A flush_all in
   * between lets an item from before it live on, exactly when it was last used long enough ago.
   */
  lemma FlushBetweenLookupAndRefresh(s: State, k: Key)
    requires Inv(s) && Found(s, k, false) && s.now >= 2
    ensures Found(Refresh(FlushNow(s), k), k, false) <==>
              s.items[k].time < s.now - 1 && IsDue(s, s.items[k])
  {
    var t := FlushNow(s);
    FlushNowKeepsInv(s);
    FlushNowIs(s, k);
    RefreshAt(t, k);
  }
}
