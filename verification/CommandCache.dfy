/**
 * The item functions of memcached as they change the shared state, proved against the
 * value-level commands.
 */
module CommandCache {
  import opened Sequences
  import opened Words
  import opened Commands
  import opened CommandRuns

  // ----- The flush walk -----

  /** Lists before c are done; every list still walks to where it would have. */
  ghost predicate Sweeping(s: State, t: State, c: nat) {
    && Inv(t) && t == s.(items := t.items, lru := t.lru) && |t.lru| == |s.lru|
    && (forall k :: k in t.items ==> k in s.items && t.items[k] == s.items[k])
    && (forall k :: k in s.items && s.items[k].time < s.oldestLive ==> k in t.items)
    && (forall d: nat :: d < |s.lru| ==>
          Walked(s.items, t.lru[d], s.oldestLive) == Walked(s.items, s.lru[d], s.oldestLive))
    && (forall d: nat :: d < c && d < |s.lru| && t.lru[d] != [] ==>
          t.lru[d][0] in t.items && t.items[t.lru[d][0]].time < s.oldestLive)
  }

  lemma PopIsTail(q: seq<Key>)
    requires q != []
    ensures Drop(q, q[0]) == q[1..]
  {
  }

  lemma HeadIsLinked(t: State, c: nat)
    requires Inv(t) && c < |t.lru|
    ensures t.lru[c] != [] ==> t.lru[c][0] in t.items
  {
    assert ListOk(t, c);
  }

  lemma PopIs(t: State, c: nat)
    requires Inv(t) && c < |t.lru| && t.lru[c] != []
    ensures t.lru[c][0] in t.items
    ensures var u := Unlink(t, t.lru[c][0]);
            Inv(u) && u == t.(items := t.items - {t.lru[c][0]}, lru := t.lru[c := t.lru[c][1..]])
  {
    var k := t.lru[c][0];
    assert ListOk(t, c) && t.items[k].cls == c;
    UnlinkKeepsInv(t, k);
    PopIsTail(t.lru[c]);
  }

  lemma PopList(s: State, t: State, c: nat, d: nat)
    requires Sweeping(s, t, c) && c < |t.lru| && t.lru[c] != [] && d < |t.lru|
    requires t.lru[c][0] in t.items && t.items[t.lru[c][0]].time >= s.oldestLive
    ensures Walked(s.items, t.lru[c := t.lru[c][1..]][d], s.oldestLive) == Walked(s.items, s.lru[d], s.oldestLive)
  {
    if d == c {
      assert Walked(s.items, t.lru[c], s.oldestLive) == Walked(s.items, t.lru[c][1..], s.oldestLive);
    }
  }

  /** Unlinking a young head is one step of the walk. */
  lemma SweepPop(s: State, t: State, c: nat)
    requires Sweeping(s, t, c) && c < |t.lru| && t.lru[c] != []
    requires t.lru[c][0] in t.items && t.items[t.lru[c][0]].time >= s.oldestLive
    ensures Sweeping(s, Unlink(t, t.lru[c][0]), c)
    ensures Unlink(t, t.lru[c][0]).lru[c] == t.lru[c][1..]
  {
    PopIs(t, c);
    var u := Unlink(t, t.lru[c][0]);
    forall d: nat | d < |s.lru|
      ensures Walked(s.items, u.lru[d], s.oldestLive) == Walked(s.items, s.lru[d], s.oldestLive)
    {
      PopList(s, t, c, d);
    }
    forall d: nat | d < c && d < |s.lru| && u.lru[d] != []
      ensures u.lru[d][0] in u.items && u.items[u.lru[d][0]].time < s.oldestLive
    {
      assert ListOk(u, d);
    }
  }

  /** A list whose head is old is done. */
  lemma SweepNext(s: State, t: State, c: nat)
    requires Sweeping(s, t, c) && c < |t.lru|
    requires t.lru[c] != [] ==> t.lru[c][0] in t.items && t.items[t.lru[c][0]].time < s.oldestLive
    ensures Sweeping(s, t, c + 1)
  {
  }

  lemma SweptIsOld(s: State, t: State, k: Key)
    requires Sweeping(s, t, |s.lru|) && k in t.items
    ensures t.items[k].time < s.oldestLive
  {
    assert ItemOk(t, k) && ListOk(t, t.items[k].cls);
    var q := t.lru[t.items[k].cls];
    var i := PositionOf(q, k);
    assert t.items[q[0]].time >= t.items[q[i]].time;
  }

  lemma SweptLists(s: State, t: State)
    requires Sweeping(s, t, |s.lru|) && s.oldestLive != 0
    ensures t.lru == Swept(s).lru
  {
    forall d: nat | d < |s.lru| ensures t.lru[d] == Swept(s).lru[d] {
      if t.lru[d] != [] { HeadIsLinked(t, d); }
    }
  }

  /** Stopping at the first old item is enough, because the lists are sorted. */
  lemma SweepDone(s: State, t: State)
    requires Inv(s) && s.oldestLive != 0 && Sweeping(s, t, |s.lru|)
    ensures t == Swept(s)
  {
    forall k | k in t.items ensures t.items[k].time < s.oldestLive {
      SweptIsOld(s, t, k);
    }
    SweptLists(s, t);
    assert t.items == Swept(s).items;
  }

  class Cache {
    const useCas: bool
    var items: map<Key, Item>
    var lru: seq<seq<Key>>
    var now: nat
    var oldestLive: nat
    var links: nat

    function View(): State
      reads this
    {
      State(items, lru, now, oldestLive, links)
    }

    constructor (useCas: bool, classes: nat, now: nat)
      requires now < U32
      ensures this.useCas == useCas && View() == State(map[], seq(classes, _ => []), now, 0, 0) && Inv(View())
    {
      this.useCas, items, lru := useCas, map[], seq(classes, _ => []);
      this.now, oldestLive, links := now, 0, 0;
    }

    method UnlinkItem(k: Key)
      requires Inv(View())
      modifies this`items, this`lru
      ensures View() == Unlink(old(View()), k) && Inv(View()) && k !in items
    {
      DropKeepsInv(View(), k);
      if k in items {
        assert ItemOk(View(), k);
        var c := items[k].cls;
        items, lru := items - {k}, lru[c := Drop(lru[c], k)];
      }
    }

    method LinkItem(k: Key, data: Bytes, exptime: nat, cls: nat)
      requires Inv(View()) && k !in items && cls < |lru|
      modifies this`items, this`lru, this`links
      ensures View() == Link(old(View()), k, data, exptime, cls) && Inv(View())
    {
      LinkKeepsInv(View(), k, data, exptime, cls);
      links := links + 1;
      items := items[k := Item(data, exptime, cls, now, links, now)];
      lru := lru[cls := [k] + lru[cls]];
    }

    method ReplaceItem(k: Key, it: Item)
      requires Inv(View()) && it.cls < |lru|
      modifies this`items, this`lru, this`links
      ensures View() == Relink(old(View()), k, it) && Inv(View())
    {
      UnlinkItem(k);
      LinkItem(k, it.data, it.exptime, it.cls);
    }

    method UpdateItem(k: Key)
      requires Inv(View()) && k in items
      modifies this`items, this`lru
      ensures View() == Refresh(old(View()), k) && Inv(View())
    {
      RefreshKeepsInv(View(), k);
      assert ItemOk(View(), k);
      if items[k].time < (now - UPDATE_INTERVAL) % U32 {
        var it := items[k];
        lru := lru[it.cls := Drop(lru[it.cls], k)];
        lru := lru[it.cls := [k] + lru[it.cls]];
        items := items[k := it.(time := now)];
        assert items == (old(items) - {k})[k := it.(time := now)];
      }
    }

    /** Look-up with lazy expiry: what comes back is never hidden by a flush nor expired. */
    method GetItem(k: Key, moving: bool) returns (it: Option<Item>)
      requires Inv(View())
      modifies this`items, this`lru
      ensures View() == AfterLookup(old(View()), k, moving) && Inv(View())
      ensures it.Some? <==> old(Found(View(), k, moving))
      ensures it.Some? <==> k in items
      ensures it.Some? ==> items[k] == it.value == old(items)[k]
    {
      DropKeepsInv(View(), k);
      it := None;
      if k in items {
        it := Some(items[k]);
        if moving {
          UnlinkItem(k);
          it := None;
        }
      }
      if it.Some? {
        if oldestLive != 0 && oldestLive <= now && it.value.time <= oldestLive {
          UnlinkItem(k);
          it := None;
        } else if it.value.exptime != 0 && it.value.exptime <= now {
          UnlinkItem(k);
          it := None;
        }
      }
    }

    method StoreItem(r: Request, moving: bool) returns (stored: Reply)
      requires Inv(View()) && RequestOk(r, View())
      modifies this`items, this`lru, this`links
      ensures View() == Next(useCas, old(View()), Put(r, moving)) && Inv(View())
      ensures stored == ReplyTo(useCas, old(View()), Put(r, moving))
    {
      LookedKeepsInv(View(), Put(r, moving));
      var found := GetItem(r.key, moving);
      ghost var s := View();
      stored := NotStored;
      if found.Some? && r.mode == Add {
        UpdateItem(r.key);
      } else if found.None? && (r.mode == Replace || r.mode == Append || r.mode == Prepend) {
      } else if r.mode == Cas {
        stored := StoreCas(r, found);
      } else {
        stored := StorePlain(r, found);
      }
    }

    /** The branch for compare-and-swap. */
    method StoreCas(r: Request, found: Option<Item>) returns (stored: Reply)
      requires Inv(View()) && RequestOk(r, View()) && r.mode == Cas
      requires found == if r.key in items then Some(items[r.key]) else None
      modifies this`items, this`lru, this`links
      ensures View() == AfterStore(useCas, old(View()), r) && Inv(View())
      ensures stored == StoreReply(useCas, old(View()), r)
    {
      if found.None? {
        stored := NotFound;
      } else if GivenCas(useCas, r) == CasOf(useCas, found.value) {
        ReplaceItem(r.key, Item(r.data, r.exptime, r.cls, 0, 0, 0));
        stored := Stored;
      } else {
        stored := Exists;
      }
    }

    /** The last branch of do_store_item: set, add to nothing, replace, append and prepend. */
    method StorePlain(r: Request, found: Option<Item>) returns (stored: Reply)
      requires Inv(View()) && RequestOk(r, View()) && r.mode != Cas
      requires found == if r.key in items then Some(items[r.key]) else None
      requires found.Some? ==> r.mode != Add
      requires found.None? ==> r.mode == Add || r.mode == Set
      modifies this`items, this`lru, this`links
      ensures View() == AfterStore(useCas, old(View()), r) && Inv(View())
      ensures stored == StoreReply(useCas, old(View()), r)
    {
      var it := Item(r.data, r.exptime, r.cls, 0, 0, 0);
      if r.mode == Append || r.mode == Prepend {
        if GivenCas(useCas, r) != 0 && GivenCas(useCas, r) != CasOf(useCas, found.value) {
          return Exists;
        }
        if r.room.None? {
          return NotStored;
        }
        var data := if r.mode == Append then found.value.data + r.data else r.data + found.value.data;
        it := Item(data, found.value.exptime, r.room.value, 0, 0, 0);
      }
      ReplaceItem(r.key, it);
      stored := Stored;
    }

    /** One list: unlink from the head until the first old item. */
    method SweepList(ghost s: State, c: nat)
      requires Sweeping(s, View(), c) && c < |lru|
      modifies this`items, this`lru
      ensures Sweeping(s, View(), c + 1)
    {
      HeadIsLinked(View(), c);
      while lru[c] != [] && items[lru[c][0]].time >= oldestLive
        invariant Sweeping(s, View(), c) && c < |lru|
        invariant lru[c] != [] ==> lru[c][0] in items
        decreases |lru[c]|
      {
        PopHead(s, c);
      }
      SweepNext(s, View(), c);
    }

    method PopHead(ghost s: State, c: nat)
      requires Sweeping(s, View(), c) && c < |lru| && lru[c] != [] && lru[c][0] in items
      requires items[lru[c][0]].time >= oldestLive
      modifies this`items, this`lru
      ensures Sweeping(s, View(), c) && |lru| == |old(lru)| && |lru[c]| < |old(lru)[c]|
      ensures lru[c] != [] ==> lru[c][0] in items
    {
      SweepPop(s, View(), c);
      UnlinkItem(lru[c][0]);
      HeadIsLinked(View(), c);
    }

    /** do_item_flush_expired. */
    method FlushExpired()
      requires Inv(View())
      modifies this`items, this`lru
      ensures View() == Swept(old(View())) && Inv(View())
    {
      ghost var s := View();
      SweptKeepsInv(s);
      if oldestLive == 0 {
        return;
      }
      var n := |lru|;
      for c := 0 to n
        invariant Sweeping(s, View(), c) && |lru| == n
      {
        SweepList(s, c);
      }
      SweepDone(s, View());
    }

    method SetFlushTime(oldest: nat)
      modifies this`oldestLive
      ensures View() == old(View()).(oldestLive := oldest)
    {
      oldestLive := oldest;
    }

    /** flush_all without a delay. */
    method FlushAllNow()
      requires Inv(View())
      modifies this`items, this`lru, this`oldestLive
      ensures View() == FlushNow(old(View())) && Inv(View())
    {
      GlobalsKeepInv(View(), now, (now - 1) % U32);
      SetFlushTime((now - 1) % U32);
      FlushExpired();
    }
  }
}
