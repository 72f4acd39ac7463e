/** What clients of memcached are told (memcached.c, items.c): the reply of every command, and what a get
finds after a store, over whole runs. */
module CommandReplies {
  import opened Sequences
  import opened Words
  import opened Counters
  import opened Commands
  import opened CommandRuns

  // ----- Replies -----

  /** The item found does not have the identifier the client gave. */
  predicate Disagrees(useCas: bool, s: State, r: Request)
    requires r.key in s.items
  {
    useCas && r.cas != s.items[r.key].id % U64
  }

  /** The reply to a store, by mode: set is always stored, add only to nothing, replace, append and prepend
  only to something; a wrong identifier is answered Exists, and memory may be short for a longer item. */
  lemma StoreReplies(useCas: bool, s: State, c: Command)
    requires Inv(s) && c.Put? && CommandOk(s, c)
    ensures var r, reply := c.request, ReplyTo(useCas, s, c);
            var found := Found(s, r.key, c.moving);
            && (r.mode == Set ==> reply == Stored)
            && (r.mode == Add ==> reply == if found then NotStored else Stored)
            && (r.mode == Replace ==> reply == if found then Stored else NotStored)
            && (r.mode == Cas ==>
                  reply == if !found then NotFound else if Disagrees(useCas, s, r) then Exists else Stored)
            && (r.mode == Append || r.mode == Prepend ==>
                  reply == if !found then NotStored
                           else if r.cas != 0 && Disagrees(useCas, s, r) then Exists
                           else if r.room.None? then NotStored
                           else Stored)
  {
    DropKeepsInv(s, c.request.key);
  }

  /** The replies to the other commands on a key. */
  lemma OtherReplies(useCas: bool, s: State, c: Command)
    requires Inv(s) && CommandOk(s, c) && (c.Get? || c.Delete? || c.Touch? || c.Delta?)
    ensures var reply := ReplyTo(useCas, s, c);
            && (!Found(s, c.key, c.moving) ==> reply == NotFound)
            && (Found(s, c.key, c.moving) ==>
                  var it := s.items[c.key];
                  && (c.Get? ==> reply == Value(it))
                  && (c.Delete? || c.Touch? ==> reply == Ok)
                  && (c.Delta? ==>
                        reply == if c.cas != 0 && c.cas != (if useCas then it.id % U64 else 0) then Exists
                                 else if SafeStrtoull(it.data + LINE_END + c.change.behind).None? then NonNumeric
                                 else if c.room.None? then OutOfMemory
                                 else Stored))
  {
    DropKeepsInv(s, c.key);
    if c.Delta? && c.key in s.items {
      assert s.items[c.key].data + LINE_END + c.change.behind == s.items[c.key].data + (LINE_END + c.change.behind);
    }
  }

  // ----- What counts as a use -----

  /** A get and a touch that find an item, and an add that is refused because of one, use it: if its last use
  is more than 60 seconds ago it is stamped with the time and goes to the head of its list. */
  lemma UseRefreshes(useCas: bool, s: State, c: Command, k: Key)
    requires Inv(s) && CommandOk(s, c) && KeyOf(c) == Some(k)
    requires c.Get? || c.Touch? || (c.Put? && c.request.mode == Add)
    requires Found(s, k, LookupOf(c).value.1)
    ensures var t, it := Next(useCas, s, c), s.items[k];
            && k in t.items && it.cls < |s.lru| && it.cls < |t.lru|
            && t.items[k].time == (if IsDue(s, it) then s.now else it.time)
            && t.lru[it.cls] == (if IsDue(s, it) then [k] + Drop(s.lru[it.cls], k) else s.lru[it.cls])
  {
    UseIsRefresh(useCas, s, c, k);
    if c.Touch? {
      TouchKeepsInv(s, k, c.exptime);
      RefreshMoves(s.(items := s.items[k := s.items[k].(exptime := c.exptime)]), k);
    } else {
      RefreshMoves(s, k);
    }
  }

  lemma RefreshMoves(s: State, k: Key)
    requires Inv(s) && k in s.items
    ensures var t, it := Refresh(s, k), s.items[k];
            && k in t.items && it.cls < |s.lru| == |t.lru|
            && t.items[k].time == (if IsDue(s, it) then s.now else it.time)
            && t.lru[it.cls] == (if IsDue(s, it) then [k] + Drop(s.lru[it.cls], k) else s.lru[it.cls])
  {
    RefreshAt(s, k);
  }

  lemma UseIsRefresh(useCas: bool, s: State, c: Command, k: Key)
    requires Inv(s) && CommandOk(s, c) && KeyOf(c) == Some(k)
    requires c.Get? || c.Touch? || (c.Put? && c.request.mode == Add)
    requires Found(s, k, LookupOf(c).value.1)
    ensures Next(useCas, s, c) ==
            if c.Touch? then Refresh(s.(items := s.items[k := s.items[k].(exptime := c.exptime)]), k) else Refresh(s, k)
  {
  }

  /** Eviction takes exactly its item, and the clock goes to the time it is set to. */
  lemma PassiveEffects(useCas: bool, s: State, c: Command)
    requires Inv(s) && CommandOk(s, c) && (c.Evict? || c.Clock?)
    ensures c.Evict? ==> Next(useCas, s, c).items == s.items - {c.key}
    ensures c.Clock? ==> Next(useCas, s, c).now == c.time && Next(useCas, s, c).items == s.items
  {
    if c.Evict? { DropKeepsInv(s, c.key); }
  }

  // ----- A get after a store -----

  /** The command neither writes nor removes k, and does not flush; it may look k up. */
  predicate LeavesAlone(c: Command, k: Key) {
    && !IsFlush(c)
    && (KeyOf(c) == Some(k) ==> c.Get? && !c.moving)
  }

  /** The item stored under k at time born, perhaps used since: a use never carries it over a flush time. */
  ghost predicate Carries(s: State, k: Key, data: Bytes, exptime: nat, born: nat) {
    && k in s.items && s.items[k].data == data && s.items[k].exptime == exptime && born <= s.items[k].time
    && (s.oldestLive != 0 && s.items[k].time > s.oldestLive ==> born > s.oldestLive)
  }

  /** The item is not found any more: expired, or behind a flush. */
  predicate IsOver(s: State, exptime: nat, born: nat) {
    (exptime != 0 && exptime <= s.now) || (s.oldestLive != 0 && born <= s.oldestLive <= s.now)
  }

  lemma CarriedIsFound(s: State, k: Key, data: Bytes, exptime: nat, born: nat)
    requires Inv(s) && Carries(s, k, data, exptime, born)
    ensures Found(s, k, false) <==> !IsOver(s, exptime, born)
  {
    assert ItemOk(s, k);
  }

  /** While not over the item is there; if it is there it is this one. */
  ghost predicate Settled(s: State, k: Key, data: Bytes, exptime: nat, born: nat) {
    && (k in s.items ==> Carries(s, k, data, exptime, born))
    && (!IsOver(s, exptime, born) ==> k in s.items)
  }

  lemma GetTime(useCas: bool, s: State, c: Command)
    requires Inv(s) && CommandOk(s, c) && c.Get? && Found(s, c.key, c.moving)
    ensures c.key in Next(useCas, s, c).items
    ensures Next(useCas, s, c).items[c.key].time in {s.items[c.key].time, s.now}
  {
    DropKeepsInv(s, c.key);
  }

  /** Only a flush sets the flush time. */
  lemma FlushTimeStays(useCas: bool, s: State, c: Command)
    requires Inv(s) && CommandOk(s, c) && !IsFlush(c)
    ensures Next(useCas, s, c).oldestLive == s.oldestLive
  {
    LookedKeepsInv(s, c);
  }

  lemma GetSettles(useCas: bool, s: State, c: Command, data: Bytes, exptime: nat, born: nat)
    requires Inv(s) && CommandOk(s, c) && c.Get? && !c.moving && Settled(s, c.key, data, exptime, born)
    ensures Settled(Next(useCas, s, c), c.key, data, exptime, born)
  {
    var k := c.key;
    FlushTimeStays(useCas, s, c);
    NextFollows(useCas, s, c);
    if k in s.items { CarriedIsFound(s, k, data, exptime, born); }
    if Found(s, k, false) {
      HitEffect(useCas, s, c);
      GetTime(useCas, s, c);
    } else {
      MissLeavesNothing(useCas, s, c);
    }
  }

  lemma StepSettles(useCas: bool, s: State, c: Command, k: Key, data: Bytes, exptime: nat, born: nat)
    requires Inv(s) && CommandOk(s, c) && LeavesAlone(c, k) && Settled(s, k, data, exptime, born)
    ensures Settled(Next(useCas, s, c), k, data, exptime, born)
  {
    if KeyOf(c) == Some(k) {
      GetSettles(useCas, s, c, data, exptime, born);
    } else {
      OtherKeysStay(useCas, s, c, k);
      FlushTimeStays(useCas, s, c);
      NextFollows(useCas, s, c);
    }
  }

  lemma StoreSettles(useCas: bool, s: State, c: Command)
    requires Inv(s) && c.Put? && CommandOk(s, c) && ReplyTo(useCas, s, c) == Stored
    ensures c.request.key in Next(useCas, s, c).items
    ensures var it := Next(useCas, s, c).items[c.request.key];
            Settled(Next(useCas, s, c), c.request.key, it.data, it.exptime, s.now)
  {
    StoreEffect(useCas, s, c);
  }

  lemma {:induction false} StaysSettled(useCas: bool, ss: seq<State>, cs: seq<Command>, i: nat, j: nat,
                                        k: Key, data: Bytes, exptime: nat, born: nat)
    requires IsRun(useCas, ss, cs) && i <= j <= |cs| && Settled(ss[i], k, data, exptime, born)
    requires forall m :: i <= m < j ==> LeavesAlone(cs[m], k)
    ensures Settled(ss[j], k, data, exptime, born) && ss[j].oldestLive == ss[i].oldestLive
    decreases j
  {
    if i < j {
      StaysSettled(useCas, ss, cs, i, j - 1, k, data, exptime, born);
      RunKeepsInv(useCas, ss, cs, j - 1);
      assert IsStep(useCas, ss, cs, j - 1) && LeavesAlone(cs[j - 1], k);
      StepSettles(useCas, ss[j - 1], cs[j - 1], k, data, exptime, born);
      FlushTimeStays(useCas, ss[j - 1], cs[j - 1]);
    }
  }

  /**
   * After a store, while nobody writes or removes the key and nobody flushes, a get finds the stored value,
   * until its time is up or the time of a flush asked for before comes. For a plain store the value and its
   * time are those of the request.
   */
  lemma GetAfterStore(useCas: bool, ss: seq<State>, cs: seq<Command>, i: nat, j: nat)
    requires IsRun(useCas, ss, cs) && i < j <= |cs|
    requires cs[i].Put? && ReplyTo(useCas, ss[i], cs[i]) == Stored
    requires forall m :: i < m < j ==> LeavesAlone(cs[m], cs[i].request.key)
    ensures var r := cs[i].request;
            && r.key in ss[i + 1].items
            && var it, flush := ss[i + 1].items[r.key], ss[i + 1].oldestLive;
               var reply := ReplyTo(useCas, ss[j], Get(r.key, false));
               && (!Combines(r.mode) ==> it.data == r.data && it.exptime == r.exptime)
               && (reply == NotFound <==>
                     (it.exptime != 0 && it.exptime <= ss[j].now) || (flush != 0 && ss[i].now <= flush <= ss[j].now))
               && (reply != NotFound ==> reply.Value? && reply.item.data == it.data)
  {
    var k := cs[i].request.key;
    RunKeepsInv(useCas, ss, cs, i);
    RunKeepsInv(useCas, ss, cs, j);
    assert IsStep(useCas, ss, cs, i);
    StoreEffect(useCas, ss[i], cs[i]);
    StoreSettles(useCas, ss[i], cs[i]);
    var it := ss[i + 1].items[k];
    StaysSettled(useCas, ss, cs, i + 1, j, k, it.data, it.exptime, ss[i].now);
    SettledReply(useCas, ss[j], k, it.data, it.exptime, ss[i].now);
  }

  lemma SettledReply(useCas: bool, s: State, k: Key, data: Bytes, exptime: nat, born: nat)
    requires Inv(s) && Settled(s, k, data, exptime, born)
    ensures var reply := ReplyTo(useCas, s, Get(k, false));
            && (reply == NotFound <==> IsOver(s, exptime, born))
            && (reply != NotFound ==> reply.Value? && reply.item.data == data)
  {
    if k in s.items { CarriedIsFound(s, k, data, exptime, born); }
    OtherReplies(useCas, s, Get(k, false));
  }
}
