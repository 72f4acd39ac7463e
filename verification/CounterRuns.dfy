/** Counters over whole runs of commands: incr and decr by any clients, with any other commands
between them. */
module CounterRuns {
  import opened Sequences
  import opened Words
  import opened Counters
  import opened Commands
  import opened CommandRuns

  /** The command changes the counter k. */
  predicate Changes(useCas: bool, s: State, c: Command, k: Key) {
    c.Delta? && c.key == k && ReplyTo(useCas, s, c) == Stored
  }

  /** A counter that is found is changed exactly when it can be read back, and memory is found. */
  lemma CounterChangesIff(useCas: bool, s: State, c: Command, v: nat)
    requires Inv(s) && CommandOk(s, c) && c.Delta? && c.cas == 0 && c.room.Some? && Found(s, c.key, c.moving)
    requires s.items[c.key].data == Decimal(v) && v < U64
    ensures ReplyTo(useCas, s, c) == Stored <==> v < SIGN_BIT || '-' !in CString(c.change.behind)
    ensures ReplyTo(useCas, s, c) == Stored || ReplyTo(useCas, s, c) == NonNumeric
  {
    CounterReadsIff(v, c.change.behind);
  }

  lemma ChangedNumber(useCas: bool, s: State, c: Command, k: Key, v: nat)
    requires Inv(s) && CommandOk(s, c) && k in s.items && Changes(useCas, s, c, k)
    requires s.items[k].data == Decimal(v) && v < U64
    ensures k in Next(useCas, s, c).items
    ensures Next(useCas, s, c).items[k].data == Decimal(Adjusted(c.change.incr, v, c.change.delta))
  {
    if !Found(s, k, c.moving) {
      DropKeepsInv(s, k);
    }
    HitEffect(useCas, s, c);
    CounterReadsIff(v, c.change.behind);
  }

  /** Nothing but a store or an accepted change gives a linked key another value. */
  lemma ValueStays(useCas: bool, s: State, c: Command, k: Key)
    requires Inv(s) && CommandOk(s, c) && k in s.items && k in Next(useCas, s, c).items
    requires !Changes(useCas, s, c, k) && !(c.Put? && c.request.key == k)
    ensures Next(useCas, s, c).items[k].data == s.items[k].data
  {
    if KeyOf(c) == Some(k) {
      DropKeepsInv(s, k);
      if !c.Evict? {
        if c.Delete? || !Found(s, k, c.moving) {
          MissLeavesNothing(useCas, s, c);
        } else {
          HitEffect(useCas, s, c);
        }
      }
    } else if !IsFlush(c) {
      OtherKeysStay(useCas, s, c, k);
    }
  }

  /** The accepted changes of k among the commands from i up to j. */
  ghost function ChangesOf(useCas: bool, ss: seq<State>, cs: seq<Command>, k: Key, i: nat, j: nat): seq<Change>
    requires |ss| == |cs| + 1 && i <= j <= |cs|
    decreases j
  {
    if i == j then []
    else
      var front := ChangesOf(useCas, ss, cs, k, i, j - 1);
      if Changes(useCas, ss[j - 1], cs[j - 1], k) then front + [cs[j - 1].change] else front
  }

  /** The key stays linked and nobody stores another value under it. */
  ghost predicate Stays(ss: seq<State>, cs: seq<Command>, k: Key, m: nat)
    requires m < |cs| && |ss| == |cs| + 1
  {
    k in ss[m + 1].items && !(cs[m].Put? && cs[m].request.key == k)
  }

  /** In every run a counter is its first value with all accepted changes made, each exactly once. */
  lemma {:induction false} CounterCounts(useCas: bool, ss: seq<State>, cs: seq<Command>, k: Key,
                                         i: nat, j: nat, v: nat)
    requires IsRun(useCas, ss, cs) && i <= j <= |cs| && v < U64
    requires k in ss[i].items && ss[i].items[k].data == Decimal(v)
    requires forall m: nat :: i <= m < j ==> Stays(ss, cs, k, m)
    ensures k in ss[j].items
    ensures ss[j].items[k].data == Decimal(AdjustedAll(v, ChangesOf(useCas, ss, cs, k, i, j)))
    decreases j
  {
    if i < j {
      CounterCounts(useCas, ss, cs, k, i, j - 1, v);
      assert Stays(ss, cs, k, j - 1) && IsStep(useCas, ss, cs, j - 1);
      RunKeepsInv(useCas, ss, cs, j - 1);
      CounterStep(useCas, ss[j - 1], cs[j - 1], k, v, ChangesOf(useCas, ss, cs, k, i, j - 1));
    }
  }

  lemma CounterStep(useCas: bool, s: State, c: Command, k: Key, v: nat, changes: seq<Change>)
    requires Inv(s) && CommandOk(s, c) && k in s.items && k in Next(useCas, s, c).items && v < U64
    requires s.items[k].data == Decimal(AdjustedAll(v, changes)) && !(c.Put? && c.request.key == k)
    ensures var all := if Changes(useCas, s, c, k) then changes + [c.change] else changes;
            Next(useCas, s, c).items[k].data == Decimal(AdjustedAll(v, all))
  {
    if Changes(useCas, s, c, k) {
      AdjustedInRange(v, changes);
      ChangedNumber(useCas, s, c, k, AdjustedAll(v, changes));
      assert (changes + [c.change])[..|changes|] == changes;
    } else {
      ValueStays(useCas, s, c, k);
    }
  }

  /** When all accepted changes are increments they add up modulo 2^64, in whatever order they came;
  when all are decrements, they take away their sum, down to 0. */
  lemma ChangesAddUp(useCas: bool, ss: seq<State>, cs: seq<Command>, k: Key, i: nat, j: nat, v: nat, incr: bool)
    requires IsRun(useCas, ss, cs) && i <= j <= |cs| && v < U64
    requires k in ss[i].items && ss[i].items[k].data == Decimal(v)
    requires forall m: nat :: i <= m < j ==> Stays(ss, cs, k, m)
    ensures k in ss[j].items
    ensures var all := ChangesOf(useCas, ss, cs, k, i, j);
            AllIncr(all, incr) ==> ss[j].items[k].data == Decimal(Adjusted(incr, v, Sum(all)))
  {
    var all := ChangesOf(useCas, ss, cs, k, i, j);
    CounterCounts(useCas, ss, cs, k, i, j, v);
    if AllIncr(all, incr) { SumsUp(v, all, incr); }
  }

  // ----- A flush between the look-up and the change -----

  /** The rest of do_add_delta, in a state t after its look-up found `it`; `shared` says that somebody
  else holds the item too. An item that is not linked any more and not shared is written in place,
  unless the new text is too long for it. */
  function LateDelta(useCas: bool, t: State, c: Command, it: Item, shared: bool): State
    requires c.Delta? && CommandOk(t, c)
  {
    var linked := c.key in t.items && t.items[c.key].id == it.id;
    var text := Changed(c.change, it.data);
    if (c.cas != 0 && CasOf(useCas, it) != c.cas) || text.None? then t
    else if !linked && !shared && |text.value| <= |it.data| then t.(links := t.links + 1)
    else if c.room.None? then t
    else Relink(t, c.key, Item(text.value, it.exptime, c.room.value, 0, 0, 0))
  }

  /** With nothing in between this is the command. */
  lemma LateDeltaIsDelta(useCas: bool, s: State, c: Command, shared: bool)
    requires Inv(s) && CommandOk(s, c) && c.Delta? && Found(s, c.key, c.moving)
    ensures LateDelta(useCas, s, c, s.items[c.key], shared) == Next(useCas, s, c)
  {
  }

  /** A flush_all in between does not stop a change that is then stored as a new item, and it makes an
  accepted change vanish when it is written in place: exactly when the flush took the item, nobody
  else held it, and the new number has no more digits than the old value had characters. */
  lemma FlushBetweenLookupAndChange(useCas: bool, s: State, c: Command, shared: bool)
    requires Inv(s) && CommandOk(s, c) && c.Delta? && Found(s, c.key, false) && s.now >= 2
    requires c.cas == 0 && c.room.Some? && Changed(c.change, s.items[c.key].data).Some?
    ensures CommandOk(FlushNow(s), c)
    ensures var it, text := s.items[c.key], Changed(c.change, s.items[c.key].data).value;
            var t := LateDelta(useCas, FlushNow(s), c, it, shared);
            && (Found(t, c.key, false) <==> it.time < s.now - 1 || shared || |text| > |it.data|)
            && (Found(t, c.key, false) ==> t.items[c.key].data == text)
  {
    FlushNowKeepsInv(s);
    FlushNowIs(s, c.key);
    DropKeepsInv(FlushNow(s), c.key);
  }
}
