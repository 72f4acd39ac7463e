/** memcached's hash table (assoc.c): chained buckets that grow by doubling, one old bucket at a
time, while lookups, insertions and deletions go on.

Pointers are item numbers, with -1 for NULL. `contents` is the plain map the table stands for;
`home` says in which bucket an item is chained. The hash function is arbitrary. */
module Assoc {
  import opened Sequences

  type Key = seq<bv8>

  /** The fields of an item that the table uses. */
  datatype Node = Node(key: Key, next: int)

  datatype Home = Out | InPrimary(bucket: nat) | InOld(bucket: nat)

  // ----- Chains -----

  ghost predicate NodeOk(items: seq<Node>, o: seq<int>, i: nat)
    requires i < |o|
  {
    0 <= o[i] < |items| && items[o[i]].next == At(o, i + 1)
  }

  /** The items reached from `head` along `next` are exactly `o`. */
  ghost predicate Chain(items: seq<Node>, head: int, o: seq<int>) {
    && Distinct(o) && head == At(o, 0)
    && (forall i {:trigger NodeOk(items, o, i)} :: 0 <= i < |o| ==> NodeOk(items, o, i))
  }

  lemma SameChain(items: seq<Node>, items': seq<Node>, head: int, o: seq<int>)
    requires Chain(items, head, o) && |items'| == |items|
    requires forall p :: p in o ==> 0 <= p < |items| && items'[p].next == items[p].next
    ensures Chain(items', head, o)
  {
    forall i | 0 <= i < |o| ensures NodeOk(items', o, i) {
      assert NodeOk(items, o, i) && o[i] in o;
    }
  }

  lemma PushChain(items: seq<Node>, head: int, o: seq<int>, it: int)
    requires Chain(items, head, o) && 0 <= it < |items| && it !in o
    ensures Chain(items[it := Node(items[it].key, head)], it, [it] + o)
  {
    var items', w := items[it := Node(items[it].key, head)], [it] + o;
    forall i | 0 <= i < |w| ensures NodeOk(items', w, i) {
      if i > 0 { assert NodeOk(items, o, i - 1); }
    }
    assert Distinct(w);
  }

  /** Unlinking member j: its predecessor, if any, now points past it. */
  function CutItems(items: seq<Node>, o: seq<int>, j: nat): seq<Node>
    requires j < |o| && 0 <= o[j] < |items| && (j > 0 ==> 0 <= o[j - 1] < |items|)
  {
    var cleared := items[o[j] := Node(items[o[j]].key, -1)];
    if j == 0 then cleared else cleared[o[j - 1] := Node(items[o[j - 1]].key, items[o[j]].next)]
  }

  lemma CutChain(items: seq<Node>, head: int, o: seq<int>, j: nat)
    requires Chain(items, head, o) && j < |o|
    ensures 0 <= o[j] < |items| && (j > 0 ==> 0 <= o[j - 1] < |items|)
    ensures Chain(CutItems(items, o, j), if j == 0 then items[o[j]].next else head, Without(o, j))
  {
    assert NodeOk(items, o, j);
    if j > 0 { assert NodeOk(items, o, j - 1); }
    var items', w := CutItems(items, o, j), Without(o, j);
    forall i | 0 <= i < |w| ensures NodeOk(items', w, i) {
      var k := if i < j then i else i + 1;
      assert w[i] == o[k] && NodeOk(items, o, k);
      if i + 1 < |w| {
        assert w[i + 1] == o[if i + 1 < j then i + 1 else i + 2];
      }
    }
    assert Distinct(w);
  }

  // ----- The two tables -----

  /** All pointers, with the chains and homes they stand for. */
  datatype Tables = Tables(
    items: seq<Node>, primary: seq<int>, older: seq<int>,
    primaryChains: seq<seq<int>>, olderChains: seq<seq<int>>, home: seq<Home>)

  ghost predicate Sized(t: Tables) {
    |t.primaryChains| == |t.primary| && |t.olderChains| == |t.older| && |t.home| == |t.items|
  }

  ghost predicate PrimaryOk(t: Tables, b: nat)
    requires Sized(t) && b < |t.primary|
  {
    && Chain(t.items, t.primary[b], t.primaryChains[b])
    && (forall p :: p in t.primaryChains[b] <==> 0 <= p < |t.items| && t.home[p] == InPrimary(b))
  }

  ghost predicate OldOk(t: Tables, b: nat)
    requires Sized(t) && b < |t.older|
  {
    && Chain(t.items, t.older[b], t.olderChains[b])
    && (forall p :: p in t.olderChains[b] <==> 0 <= p < |t.items| && t.home[p] == InOld(b))
  }

  ghost predicate PrimaryTable(t: Tables)
    requires Sized(t)
  {
    forall b {:trigger PrimaryOk(t, b)} :: 0 <= b < |t.primary| ==> PrimaryOk(t, b)
  }

  /** All old buckets but one, which is being migrated; -1 excepts none. */
  ghost predicate OldTable(t: Tables, except: int)
    requires Sized(t)
  {
    forall b {:trigger OldOk(t, b)} :: 0 <= b < |t.older| && b != except ==> OldOk(t, b)
  }

  /** Where an item of hash value hv is chained: in the old table if that is still in use and its
  old bucket has not been migrated yet, else in the primary table. */
  function Where(t: Tables, hv: nat, expanding: bool, expandBucket: nat): Home
    requires |t.primary| > 0 && (expanding ==> |t.older| > 0)
  {
    if expanding && hv % |t.older| >= expandBucket then InOld(hv % |t.older|) else InPrimary(hv % |t.primary|)
  }

  /** Splitting a bucket in two: under the doubled size an item stays or moves up by the old size. */
  lemma Doubling(hv: nat, n: nat)
    requires n > 0
    ensures hv % (2 * n) == hv % n || hv % (2 * n) == hv % n + n
  {
    var q, r := hv / (2 * n), hv % (2 * n);
    var s := if r < n then r else r - n;
    var d := if r < n then 2 * q else 2 * q + 1;
    assert hv == q * (2 * n) + r;
    assert q * (2 * n) == (2 * q) * n;
    assert hv == d * n + s;
    QuotientIs(hv, n, d, s);
  }

  lemma QuotientIs(x: nat, n: nat, d: nat, s: nat)
    requires n > 0 && s < n && x == d * n + s
    ensures x % n == s
  {
    var e := x / n;
    assert x == e * n + x % n;
    if d < e {
      MultipleGap(d, e, n);
    } else if e < d {
      MultipleGap(e, d, n);
    }
  }

  lemma {:induction false} MultipleGap(d: nat, e: nat, n: nat)
    requires d < e
    ensures d * n + n <= e * n
  {
    assert e * n == (e - 1) * n + n;
    if d + 1 < e {
      MultipleGap(d, e - 1, n);
    }
  }

  // ----- Changing one bucket -----

  /** Everything bucket b of the primary table depends on is the same. */
  lemma PrimaryFrame(t: Tables, t': Tables, b: nat)
    requires Sized(t) && Sized(t') && b < |t.primary| && b < |t'.primary| && PrimaryOk(t, b)
    requires |t'.items| == |t.items|
    requires t'.primary[b] == t.primary[b] && t'.primaryChains[b] == t.primaryChains[b]
    requires forall p :: 0 <= p < |t.items| ==> (t'.home[p] == InPrimary(b) <==> t.home[p] == InPrimary(b))
    requires forall p :: 0 <= p < |t.items| && t.home[p] == InPrimary(b) ==> t'.items[p] == t.items[p]
    ensures PrimaryOk(t', b)
  {
    SameChain(t.items, t'.items, t.primary[b], t.primaryChains[b]);
  }

  lemma OldFrame(t: Tables, t': Tables, b: nat)
    requires Sized(t) && Sized(t') && b < |t.older| && b < |t'.older| && OldOk(t, b)
    requires |t'.items| == |t.items|
    requires t'.older[b] == t.older[b] && t'.olderChains[b] == t.olderChains[b]
    requires forall p :: 0 <= p < |t.items| ==> (t'.home[p] == InOld(b) <==> t.home[p] == InOld(b))
    requires forall p :: 0 <= p < |t.items| && t.home[p] == InOld(b) ==> t'.items[p] == t.items[p]
    ensures OldOk(t', b)
  {
    SameChain(t.items, t'.items, t.older[b], t.olderChains[b]);
  }

  /** Item `it` becomes the head of primary bucket b. */
  function PushPrimary(t: Tables, b: nat, it: int): Tables
    requires Sized(t) && b < |t.primary| && 0 <= it < |t.items|
  {
    t.(items := t.items[it := Node(t.items[it].key, t.primary[b])], primary := t.primary[b := it],
       primaryChains := t.primaryChains[b := [it] + t.primaryChains[b]], home := t.home[it := InPrimary(b)])
  }

  lemma PushPrimaryOk(t: Tables, b: nat, it: int, except: int)
    requires Sized(t) && b < |t.primary| && 0 <= it < |t.items| && PrimaryTable(t) && OldTable(t, except)
    requires !t.home[it].InPrimary? && (t.home[it].InOld? ==> t.home[it].bucket == except)
    ensures PrimaryTable(PushPrimary(t, b, it)) && OldTable(PushPrimary(t, b, it), except)
  {
    var t' := PushPrimary(t, b, it);
    assert PrimaryOk(t, b);
    PushChain(t.items, t.primary[b], t.primaryChains[b], it);
    forall x | 0 <= x < |t'.primary| ensures PrimaryOk(t', x) {
      if x != b {
        assert PrimaryOk(t, x);
        PrimaryFrame(t, t', x);
      }
    }
    forall x | 0 <= x < |t'.older| && x != except ensures OldOk(t', x) {
      assert OldOk(t, x);
      OldFrame(t, t', x);
    }
  }

  function PushOld(t: Tables, b: nat, it: int): Tables
    requires Sized(t) && b < |t.older| && 0 <= it < |t.items|
  {
    t.(items := t.items[it := Node(t.items[it].key, t.older[b])], older := t.older[b := it],
       olderChains := t.olderChains[b := [it] + t.olderChains[b]], home := t.home[it := InOld(b)])
  }

  lemma PushOldOk(t: Tables, b: nat, it: int)
    requires Sized(t) && b < |t.older| && 0 <= it < |t.items| && PrimaryTable(t) && OldTable(t, -1)
    requires t.home[it].Out?
    ensures PrimaryTable(PushOld(t, b, it)) && OldTable(PushOld(t, b, it), -1)
  {
    var t' := PushOld(t, b, it);
    assert OldOk(t, b);
    PushChain(t.items, t.older[b], t.olderChains[b], it);
    forall x | 0 <= x < |t'.primary| ensures PrimaryOk(t', x) {
      assert PrimaryOk(t, x);
      PrimaryFrame(t, t', x);
    }
    forall x | 0 <= x < |t'.older| ensures OldOk(t', x) {
      if x != b {
        assert OldOk(t, x);
        OldFrame(t, t', x);
      }
    }
  }

  /** Member j of primary bucket b leaves its chain. */
  function CutPrimary(t: Tables, b: nat, j: nat): (t': Tables)
    requires Sized(t) && b < |t.primary| && PrimaryOk(t, b) && j < |t.primaryChains[b]|
    ensures Sized(t')
  {
    var o := t.primaryChains[b];
    CutChain(t.items, t.primary[b], o, j);
    assert NodeOk(t.items, o, j);
    t.(items := CutItems(t.items, o, j),
       primary := if j == 0 then t.primary[b := t.items[o[j]].next] else t.primary,
       primaryChains := t.primaryChains[b := Without(o, j)], home := t.home[o[j] := Out])
  }

  lemma CutMembers(o: seq<int>, j: nat)
    requires Distinct(o) && j < |o|
    ensures forall p :: p in Without(o, j) <==> p in o && p != o[j]
  {
    forall p | p in o && p != o[j] ensures p in Without(o, j) {
      var i :| 0 <= i < |o| && o[i] == p;
      assert Without(o, j)[if i < j then i else i - 1] == p;
    }
  }

  lemma CutPrimaryOk(t: Tables, b: nat, j: nat)
    requires Sized(t) && b < |t.primary| && PrimaryTable(t) && OldTable(t, -1)
    requires PrimaryOk(t, b) && j < |t.primaryChains[b]|
    ensures PrimaryTable(CutPrimary(t, b, j)) && OldTable(CutPrimary(t, b, j), -1)
  {
    var t', o := CutPrimary(t, b, j), t.primaryChains[b];
    CutChain(t.items, t.primary[b], o, j);
    CutMembers(o, j);
    assert o[j] in o && (j > 0 ==> o[j - 1] in o);
    forall x | 0 <= x < |t'.primary| ensures PrimaryOk(t', x) {
      if x != b {
        assert PrimaryOk(t, x);
        PrimaryFrame(t, t', x);
      }
    }
    forall x | 0 <= x < |t'.older| ensures OldOk(t', x) {
      assert OldOk(t, x);
      OldFrame(t, t', x);
    }
  }

  function CutOld(t: Tables, b: nat, j: nat): (t': Tables)
    requires Sized(t) && b < |t.older| && OldOk(t, b) && j < |t.olderChains[b]|
    ensures Sized(t')
  {
    var o := t.olderChains[b];
    CutChain(t.items, t.older[b], o, j);
    assert NodeOk(t.items, o, j);
    t.(items := CutItems(t.items, o, j),
       older := if j == 0 then t.older[b := t.items[o[j]].next] else t.older,
       olderChains := t.olderChains[b := Without(o, j)], home := t.home[o[j] := Out])
  }

  lemma CutOldOk(t: Tables, b: nat, j: nat)
    requires Sized(t) && b < |t.older| && PrimaryTable(t) && OldTable(t, -1)
    requires OldOk(t, b) && j < |t.olderChains[b]|
    ensures PrimaryTable(CutOld(t, b, j)) && OldTable(CutOld(t, b, j), -1)
  {
    var t', o := CutOld(t, b, j), t.olderChains[b];
    CutChain(t.items, t.older[b], o, j);
    CutMembers(o, j);
    assert o[j] in o && (j > 0 ==> o[j - 1] in o);
    forall x | 0 <= x < |t'.primary| ensures PrimaryOk(t', x) {
      assert PrimaryOk(t, x);
      PrimaryFrame(t, t', x);
    }
    forall x | 0 <= x < |t'.older| ensures OldOk(t', x) {
      if x != b {
        assert OldOk(t, x);
        OldFrame(t, t', x);
      }
    }
  }

  // ----- The table as a map -----

  function Pow2(n: nat): nat { if n == 0 then 1 else 2 * Pow2(n - 1) }

  lemma {:induction false} Pow2Positive(n: nat)
    ensures Pow2(n) > 0
  {
    if n > 0 { Pow2Positive(n - 1); }
  }

  /** A chained item is where its hash value says, and the map has it under its key. */
  ghost predicate ItemOk(t: Tables, hash: Key -> nat, expanding: bool, expandBucket: nat,
                         contents: map<Key, int>, p: int)
    requires Sized(t) && |t.primary| > 0 && (expanding ==> |t.older| > 0) && 0 <= p < |t.items|
  {
    !t.home[p].Out? ==>
      && t.home[p] == Where(t, hash(t.items[p].key), expanding, expandBucket)
      && t.items[p].key in contents && contents[t.items[p].key] == p
  }

  /** A key of the map has a chained item. */
  ghost predicate KeyOk(t: Tables, contents: map<Key, int>, k: Key)
    requires Sized(t) && k in contents
  {
    0 <= contents[k] < |t.items| && !t.home[contents[k]].Out? && t.items[contents[k]].key == k
  }

  /** The chained items are exactly the values of the map. */
  ghost predicate Mapped(t: Tables, hash: Key -> nat, expanding: bool, expandBucket: nat, contents: map<Key, int>)
    requires Sized(t) && |t.primary| > 0 && (expanding ==> |t.older| > 0)
  {
    && (forall p {:trigger ItemOk(t, hash, expanding, expandBucket, contents, p)} ::
          0 <= p < |t.items| ==> ItemOk(t, hash, expanding, expandBucket, contents, p))
    && (forall k {:trigger KeyOk(t, contents, k)} :: k in contents ==> KeyOk(t, contents, k))
  }

  /** Everything that ties the pointers to the map. */
  ghost predicate Good(t: Tables, hash: Key -> nat, expanding: bool, expandBucket: nat, contents: map<Key, int>) {
    && Sized(t) && |t.primary| > 0 && (expanding ==> |t.older| > 0)
    && PrimaryTable(t) && OldTable(t, -1)
    && Mapped(t, hash, expanding, expandBucket, contents)
  }

  /** Same table sizes and item keys. */
  ghost predicate SameKeys(t: Tables, t': Tables) {
    && |t'.items| == |t.items| && |t'.primary| == |t.primary| && |t'.older| == |t.older|
    && forall p :: 0 <= p < |t.items| ==> t'.items[p].key == t.items[p].key
  }

  lemma InsertedMap(t: Tables, t': Tables, hash: Key -> nat, exp: bool, eb: nat, contents: map<Key, int>, it: int)
    requires Sized(t) && Sized(t') && |t.primary| > 0 && (exp ==> |t.older| > 0) && SameKeys(t, t')
    requires Mapped(t, hash, exp, eb, contents)
    requires 0 <= it < |t.items| && t.home[it].Out? && t.items[it].key !in contents
    requires t'.home == t.home[it := Where(t, hash(t.items[it].key), exp, eb)]
    ensures Mapped(t', hash, exp, eb, contents[t.items[it].key := it])
  {
    var contents' := contents[t.items[it].key := it];
    forall p | 0 <= p < |t'.items| ensures ItemOk(t', hash, exp, eb, contents', p) {
      assert ItemOk(t, hash, exp, eb, contents, p);
    }
    forall k | k in contents' ensures KeyOk(t', contents', k) {
      if k in contents { assert KeyOk(t, contents, k); }
    }
  }

  /** Insertion at the head of the chosen bucket. */
  function Inserted(t: Tables, w: Home, it: int): Tables
    requires Sized(t) && 0 <= it < |t.items|
    requires match w case Out => false case InOld(b) => b < |t.older| case InPrimary(b) => b < |t.primary|
  {
    if w.InOld? then PushOld(t, w.bucket, it) else PushPrimary(t, w.bucket, it)
  }

  lemma InsertedGood(t: Tables, hash: Key -> nat, exp: bool, eb: nat, contents: map<Key, int>, it: int)
    requires Good(t, hash, exp, eb, contents)
    requires 0 <= it < |t.items| && t.home[it].Out? && t.items[it].key !in contents
    ensures var w := Where(t, hash(t.items[it].key), exp, eb);
            Good(Inserted(t, w, it), hash, exp, eb, contents[t.items[it].key := it]) && SameKeys(t, Inserted(t, w, it))
  {
    var w := Where(t, hash(t.items[it].key), exp, eb);
    if w.InOld? {
      PushOldOk(t, w.bucket, it);
    } else {
      PushPrimaryOk(t, w.bucket, it, -1);
    }
    InsertedMap(t, Inserted(t, w, it), hash, exp, eb, contents, it);
  }

  lemma RemovedMap(t: Tables, t': Tables, hash: Key -> nat, exp: bool, eb: nat, contents: map<Key, int>, k: Key)
    requires Sized(t) && Sized(t') && |t.primary| > 0 && (exp ==> |t.older| > 0) && SameKeys(t, t')
    requires Mapped(t, hash, exp, eb, contents) && k in contents
    requires 0 <= contents[k] < |t.home| && t'.home == t.home[contents[k] := Out]
    ensures Mapped(t', hash, exp, eb, contents - {k})
  {
    var contents' := contents - {k};
    assert KeyOk(t, contents, k);
    forall p | 0 <= p < |t'.items| ensures ItemOk(t', hash, exp, eb, contents', p) {
      assert ItemOk(t, hash, exp, eb, contents, p);
    }
    forall x | x in contents' ensures KeyOk(t', contents', x) {
      assert KeyOk(t, contents, x);
    }
  }

  /** The bucket a home names: its chain is as recorded. */
  ghost predicate BucketOk(t: Tables, w: Home)
    requires Sized(t)
  {
    match w
    case Out => false
    case InOld(b) => b < |t.older| && OldOk(t, b)
    case InPrimary(b) => b < |t.primary| && PrimaryOk(t, b)
  }

  function ChainAt(t: Tables, w: Home): seq<int>
    requires Sized(t) && BucketOk(t, w)
  {
    if w.InOld? then t.olderChains[w.bucket] else t.primaryChains[w.bucket]
  }

  /** Removal of member j of the chosen bucket. */
  function Removed(t: Tables, w: Home, j: nat): (t': Tables)
    requires Sized(t) && BucketOk(t, w) && j < |ChainAt(t, w)|
    ensures Sized(t')
  {
    if w.InOld? then CutOld(t, w.bucket, j) else CutPrimary(t, w.bucket, j)
  }

  lemma RemovedGood(t: Tables, hash: Key -> nat, exp: bool, eb: nat, contents: map<Key, int>, k: Key, w: Home, j: nat)
    requires Good(t, hash, exp, eb, contents) && k in contents
    requires BucketOk(t, w) && j < |ChainAt(t, w)| && ChainAt(t, w)[j] == contents[k]
    ensures Good(Removed(t, w, j), hash, exp, eb, contents - {k}) && SameKeys(t, Removed(t, w, j))
  {
    var o := ChainAt(t, w);
    assert NodeOk(t.items, o, j) && (j > 0 ==> NodeOk(t.items, o, j - 1));
    assert KeyOk(t, contents, k);
    if w.InOld? {
      CutOldOk(t, w.bucket, j);
    } else {
      CutPrimaryOk(t, w.bucket, j);
    }
    RemovedMap(t, Removed(t, w, j), hash, exp, eb, contents, k);
  }

  lemma WhereIsBucket(t: Tables, hash: Key -> nat, exp: bool, eb: nat, contents: map<Key, int>, hv: nat)
    requires Good(t, hash, exp, eb, contents)
    ensures BucketOk(t, Where(t, hv, exp, eb))
  {
    var w := Where(t, hv, exp, eb);
    if w.InOld? {
      assert OldOk(t, w.bucket);
    } else {
      assert PrimaryOk(t, w.bucket);
    }
  }

  // ----- Expansion -----

  function Lift(h: Home): Home { if h.InPrimary? then InOld(h.bucket) else h }

  /** `assoc_expand`: the primary table becomes the old one, beside an empty one twice as large. */
  function Expanded(t: Tables): Tables {
    var n := 2 * |t.primary|;
    Tables(t.items, seq(n, _ => -1), t.primary, seq(n, _ => []), t.primaryChains,
           seq(|t.home|, i requires 0 <= i < |t.home| => Lift(t.home[i])))
  }

  lemma ExpandedGood(t: Tables, hash: Key -> nat, eb: nat, contents: map<Key, int>)
    requires Good(t, hash, false, eb, contents)
    ensures Good(Expanded(t), hash, true, 0, contents)
  {
    var t' := Expanded(t);
    forall p | 0 <= p < |t.items| ensures !t.home[p].InOld? && ItemOk(t', hash, true, 0, contents, p) {
      assert ItemOk(t, hash, false, eb, contents, p);
    }
    forall b | 0 <= b < |t'.primary| ensures PrimaryOk(t', b) {}
    forall b | 0 <= b < |t'.older| ensures OldOk(t', b) {
      assert PrimaryOk(t, b);
    }
    forall k | k in contents ensures KeyOk(t', contents, k) {
      assert KeyOk(t, contents, k);
    }
  }

  /** During the migration of bucket eb an item is in its old bucket or already where it will be. */
  ghost predicate ItemMid(t: Tables, hash: Key -> nat, eb: nat, contents: map<Key, int>, p: int)
    requires Sized(t) && |t.primary| > 0 && |t.older| > 0 && 0 <= p < |t.items|
  {
    !t.home[p].Out? ==>
      && (if t.home[p] == InOld(eb) then hash(t.items[p].key) % |t.older| == eb
          else t.home[p] == Where(t, hash(t.items[p].key), true, eb + 1))
      && t.items[p].key in contents && contents[t.items[p].key] == p
  }

  /** The state of the migration loop: `rest`, starting at `it`, is what is left of old bucket eb. */
  ghost predicate Mid(t: Tables, hash: Key -> nat, eb: nat, contents: map<Key, int>, it: int, rest: seq<int>) {
    && Sized(t) && |t.primary| == 2 * |t.older| && eb < |t.older|
    && PrimaryTable(t) && OldTable(t, eb)
    && Chain(t.items, it, rest)
    && (forall p :: p in rest <==> 0 <= p < |t.items| && t.home[p] == InOld(eb))
    && (forall p {:trigger ItemMid(t, hash, eb, contents, p)} ::
          0 <= p < |t.items| ==> ItemMid(t, hash, eb, contents, p))
    && (forall k {:trigger KeyOk(t, contents, k)} :: k in contents ==> KeyOk(t, contents, k))
  }

  lemma MidStarts(t: Tables, hash: Key -> nat, eb: nat, contents: map<Key, int>)
    requires Good(t, hash, true, eb, contents) && eb < |t.older| && |t.primary| == 2 * |t.older|
    ensures Mid(t, hash, eb, contents, t.older[eb], t.olderChains[eb])
  {
    assert OldOk(t, eb);
    forall p | 0 <= p < |t.items| ensures ItemMid(t, hash, eb, contents, p) {
      assert ItemOk(t, hash, true, eb, contents, p);
    }
  }

  lemma ChainEnds(items: seq<Node>, rest: seq<int>)
    requires Chain(items, -1, rest)
    ensures rest == []
  {
    assert rest != [] ==> NodeOk(items, rest, 0);
  }

  lemma RestChain(items: seq<Node>, it: int, rest: seq<int>, to: int)
    requires Chain(items, it, rest) && rest != []
    ensures it == rest[0] && 0 <= it < |items|
    ensures Chain(items[it := Node(items[it].key, to)], items[it].next, rest[1..])
  {
    assert NodeOk(items, rest, 0);
    var items' := items[it := Node(items[it].key, to)];
    forall i | 0 <= i < |rest| - 1 ensures NodeOk(items', rest[1..], i) {
      assert NodeOk(items, rest, i + 1);
    }
  }

  /** Moving one item; it can only go to bucket eb or to bucket eb plus the old size. */
  lemma MidStep(t: Tables, hash: Key -> nat, eb: nat, contents: map<Key, int>, it: int, rest: seq<int>)
    requires Mid(t, hash, eb, contents, it, rest) && it != -1
    ensures rest != [] && it == rest[0] && 0 <= it < |t.items|
    ensures var b := hash(t.items[it].key) % |t.primary|;
            && (b == eb || b == eb + |t.older|)
            && Mid(PushPrimary(t, b, it), hash, eb, contents, t.items[it].next, rest[1..])
            && SameKeys(t, PushPrimary(t, b, it))
  {
    assert it in rest && ItemMid(t, hash, eb, contents, it);
    var hv := hash(t.items[it].key);
    var b := hv % |t.primary|;
    Doubling(hv, |t.older|);
    RestChain(t.items, it, rest, t.primary[b]);
    PushPrimaryOk(t, b, it, eb);
    var t' := PushPrimary(t, b, it);
    assert forall p :: p in rest[1..] <==> p in rest && p != it;
    forall p | 0 <= p < |t'.items| ensures ItemMid(t', hash, eb, contents, p) {
      assert ItemMid(t, hash, eb, contents, p);
    }
    forall k | k in contents ensures KeyOk(t', contents, k) {
      assert KeyOk(t, contents, k);
    }
  }

  /** The migrated bucket is cleared. */
  function Cleared(t: Tables, eb: nat): Tables
    requires Sized(t) && eb < |t.older|
  {
    t.(older := t.older[eb := -1], olderChains := t.olderChains[eb := []])
  }

  lemma MidEnds(t: Tables, hash: Key -> nat, eb: nat, contents: map<Key, int>)
    requires Mid(t, hash, eb, contents, -1, [])
    ensures Good(Cleared(t, eb), hash, true, eb + 1, contents)
    ensures eb + 1 == |t.older| ==> Good(t.(older := [], olderChains := []), hash, false, eb + 1, contents)
  {
    var t1, t2, nb := Cleared(t, eb), t.(older := [], olderChains := []), eb + 1;
    forall b | 0 <= b < |t.primary| ensures PrimaryOk(t1, b) && PrimaryOk(t2, b) {
      assert PrimaryOk(t, b);
    }
    forall b | 0 <= b < |t.older| ensures OldOk(t1, b) {
      if b != eb { assert OldOk(t, b); }
    }
    forall p | 0 <= p < |t.items| ensures ItemOk(t1, hash, true, nb, contents, p) {
      assert ItemMid(t, hash, eb, contents, p);
    }
    if eb + 1 == |t.older| {
      forall p | 0 <= p < |t.items| ensures ItemOk(t2, hash, false, nb, contents, p) {
        assert ItemMid(t, hash, eb, contents, p);
      }
    }
    forall k | k in contents ensures KeyOk(t1, contents, k) && KeyOk(t2, contents, k) {
      assert KeyOk(t, contents, k);
    }
  }

  /** `calloc` of a table of 2^power buckets. */
  method EmptyTable(power: nat) returns (table: array<int>)
    ensures fresh(table) && table.Length == Pow2(power) && table.Length > 0
    ensures table[..] == seq(Pow2(power), _ => -1)
  {
    Pow2Positive(power);
    table := new int[Pow2(power)](_ => -1);
  }

  class HashTable {
    const hash: Key -> nat
    const items: array<Node>
    var hashpower: nat
    var primary: array<int>
    var older: array<int>
    var hashItems: int
    var expanding: bool
    var startedExpanding: bool
    var expandBucket: nat
    ghost var primaryChains: seq<seq<int>>
    ghost var olderChains: seq<seq<int>>
    ghost var home: seq<Home>
    ghost var contents: map<Key, int>

    ghost function View(): Tables
      reads this, items, primary, older
    {
      Tables(items[..], primary[..], if expanding then older[..] else [],
             primaryChains, if expanding then olderChains else [], home)
    }

    ghost predicate Sizes()
      reads this, items, primary, older
    {
      && primary.Length == Pow2(hashpower) && primary.Length > 0
      && (expanding ==> hashpower >= 1 && older.Length == Pow2(hashpower - 1) && older != primary && older.Length > 0)
      && Sized(View())
    }

    ghost predicate Valid()
      reads this, items, primary, older
    {
      && Sizes()
      && (expanding ==> expandBucket < older.Length)
      && Good(View(), hash, expanding, expandBucket, contents)
      && hashItems == |contents|
    }

    /** `assoc_init`, over a pool of items that are not in the table. */
    constructor (hash: Key -> nat, items: array<Node>, power: nat)
      ensures Valid() && contents == map[] && !expanding && hashpower == power
      ensures this.hash == hash && this.items == items && fresh(primary)
      ensures home == seq(items.Length, _ => Out)
    {
      this.hash, this.items := hash, items;
      hashpower := power;
      var table := EmptyTable(power);
      primary := table;
      older := new int[0];
      hashItems, expanding, startedExpanding, expandBucket := 0, false, false, 0;
      primaryChains := seq(Pow2(power), _ => []);
      olderChains := [];
      home := seq(items.Length, _ => Out);
      contents := map[];
      new;
      forall b | 0 <= b < |View().primary| ensures PrimaryOk(View(), b) {}
    }

    /** Where a key is chained, or would be: what `assoc_find`, `_hashitem_before` and
    `assoc_insert` choose first. */
    ghost function HomeOf(k: Key): (w: Home)
      requires Valid()
      reads this, items, primary, older
      ensures BucketOk(View(), w)
    {
      WhereIsBucket(View(), hash, expanding, expandBucket, contents, hash(k));
      Where(View(), hash(k), expanding, expandBucket)
    }

    /** An item is found in the chosen chain or nowhere. */
    lemma ChainDecides(k: Key)
      requires Valid()
      ensures var o := ChainAt(View(), HomeOf(k));
              && (k in contents ==> contents[k] in o)
              && (forall p :: p in o ==>
                    0 <= p < items.Length && (items[p].key == k <==> k in contents && contents[k] == p))
    {
      var t, o := View(), ChainAt(View(), HomeOf(k));
      if k in contents {
        assert KeyOk(t, contents, k) && ItemOk(t, hash, expanding, expandBucket, contents, contents[k]);
      }
      forall p | p in o ensures 0 <= p < items.Length && (items[p].key == k <==> k in contents && contents[k] == p) {
        assert ItemOk(t, hash, expanding, expandBucket, contents, p);
      }
    }

    /** The start of the chosen bucket. */
    method BucketHead(k: Key) returns (head: int)
      requires Valid()
      ensures Chain(items[..], head, ChainAt(View(), HomeOf(k)))
    {
      ghost var w := HomeOf(k);
      var hv := hash(k);
      if expanding && hv % older.Length >= expandBucket {
        head := older[hv % older.Length];
      } else {
        head := primary[hv % primary.Length];
      }
    }

    /** The walk of `assoc_find` and `_hashitem_before` along a chain: the first item with the
    key, and the item before it. */
    method Walk(head: int, k: Key, ghost o: seq<int>) returns (prev: int, it: int, ghost j: nat)
      requires Chain(items[..], head, o)
      ensures j <= |o| && it == At(o, j) && prev == At(o, j - 1) && (it == -1 <==> j == |o|)
      ensures forall i :: 0 <= i < j ==> 0 <= o[i] < items.Length && items[o[i]].key != k
      ensures it != -1 ==> 0 <= it < items.Length && items[it].key == k
    {
      prev, it, j := -1, head, 0;
      if o != [] { assert NodeOk(items[..], o, 0); }
      while it != -1 && items[it].key != k
        invariant 0 <= j <= |o| && it == At(o, j) && prev == At(o, j - 1) && (it == -1 <==> j == |o|)
        invariant it != -1 ==> 0 <= it < items.Length
        invariant forall i :: 0 <= i < j ==> 0 <= o[i] < items.Length && items[o[i]].key != k
        decreases |o| - j
      {
        assert NodeOk(items[..], o, j);
        if j + 1 < |o| { assert NodeOk(items[..], o, j + 1); }
        prev, it, j := it, items[it].next, j + 1;
      }
    }

    /** `_hashitem_before`: the item of the key and the one before it, by bucket choice and walk. */
    method Before(k: Key) returns (prev: int, it: int, ghost j: nat)
      requires Valid()
      ensures it == if k in contents then contents[k] else -1
      ensures var o := ChainAt(View(), HomeOf(k));
              k in contents ==> j < |o| && o[j] == it && prev == At(o, j - 1)
    {
      ghost var o := ChainAt(View(), HomeOf(k));
      var head := BucketHead(k);
      prev, it, j := Walk(head, k, o);
      ChainDecides(k);
      if it == -1 {
        assert forall p :: p in o ==> items[p].key != k;
      } else {
        assert it in o;
      }
    }

    /** `assoc_find`: the item of the key, or -1. */
    method Find(k: Key) returns (r: int)
      requires Valid()
      ensures r == if k in contents then contents[k] else -1
    {
      var _, it, j := Before(k);
      r := it;
    }

    /** What no operation on the table changes. */
    twostate predicate KeepsItems()
      reads this, items, primary, older
    {
      SameKeys(old(View()), View())
    }

    method ChainFront(it: int, ghost w: Home)
      requires Valid() && 0 <= it < items.Length && w == HomeOf(items[it].key)
      modifies `primaryChains, `olderChains, `home, items, primary, older
      ensures View() == Inserted(old(View()), w, it)
    {
      var k, hv := items[it].key, hash(items[it].key);
      if expanding && hv % older.Length >= expandBucket {
        var b := hv % older.Length;
        items[it] := Node(k, older[b]);
        older[b] := it;
        olderChains := olderChains[b := [it] + olderChains[b]];
      } else {
        var b := hv % primary.Length;
        items[it] := Node(k, primary[b]);
        primary[b] := it;
        primaryChains := primaryChains[b := [it] + primaryChains[b]];
      }
      home := home[it := w];
    }

    method CountIn(k: Key, it: int)
      requires k !in contents && hashItems == |contents|
      modifies `contents, `hashItems
      ensures contents == old(contents)[k := it] && hashItems == |contents| == old(hashItems) + 1
    {
      contents := contents[k := it];
      hashItems := hashItems + 1;
      assert contents.Keys == old(contents).Keys + {k};
    }

    method CountOut(k: Key)
      requires k in contents && hashItems == |contents|
      modifies `contents, `hashItems
      ensures contents == old(contents) - {k} && hashItems == |contents| == old(hashItems) - 1
    {
      contents := contents - {k};
      hashItems := hashItems - 1;
      assert contents.Keys == old(contents).Keys - {k};
    }

    /** `assoc_insert`, for a key that is not in the table. */
    method Insert(it: int)
      requires Valid() && 0 <= it < items.Length && home[it].Out? && items[it].key !in contents
      modifies this, items, primary, older
      ensures Valid() && contents == old(contents)[items[it].key := it] && KeepsItems()
      ensures expanding == old(expanding) && expandBucket == old(expandBucket) && hashpower == old(hashpower)
      ensures primary == old(primary) && older == old(older)
      ensures startedExpanding == (old(startedExpanding) || (!expanding && hashItems > (primary.Length * 3) / 2))
    {
      var k := items[it].key;
      InsertedGood(View(), hash, expanding, expandBucket, contents, it);
      ChainFront(it, HomeOf(k));
      ghost var t' := View();
      CountIn(k, it);
      if !expanding && hashItems > (primary.Length * 3) / 2 {
        startedExpanding := true;
      }
      assert View() == t';
    }

    method Unchain(k: Key, prev: int, it: int, ghost w: Home, ghost j: nat)
      requires Valid() && w == HomeOf(k)
      requires var o := ChainAt(View(), w); j < |o| && it == o[j] && prev == At(o, j - 1)
      modifies `primaryChains, `olderChains, `home, items, primary, older
      ensures View() == Removed(old(View()), w, j)
    {
      ghost var t, o := View(), ChainAt(View(), w);
      assert NodeOk(t.items, o, j);
      if j > 0 { assert NodeOk(t.items, o, j - 1); }
      var nxt, hv := items[it].next, hash(k);
      items[it] := Node(items[it].key, -1);
      if prev != -1 {
        items[prev] := Node(items[prev].key, nxt);
      } else if expanding && hv % older.Length >= expandBucket {
        older[hv % older.Length] := nxt;
      } else {
        primary[hv % primary.Length] := nxt;
      }
      if w.InOld? {
        olderChains := olderChains[w.bucket := Without(o, j)];
      } else {
        primaryChains := primaryChains[w.bucket := Without(o, j)];
      }
      home := home[it := Out];
      assert View().items == CutItems(t.items, o, j);
    }

    /** `assoc_delete`, for a key that is in the table, as its callers ensure. */
    method Delete(k: Key)
      requires Valid() && k in contents
      modifies this, items, primary, older
      ensures Valid() && contents == old(contents) - {k} && KeepsItems()
      ensures expanding == old(expanding) && expandBucket == old(expandBucket) && hashpower == old(hashpower)
      ensures primary == old(primary) && older == old(older)
    {
      ghost var t, w := View(), HomeOf(k);
      var prev, it, j := Before(k);
      RemovedGood(t, hash, expanding, expandBucket, contents, k, w, j);
      assert NodeOk(t.items, ChainAt(t, w), j);
      Unchain(k, prev, it, w, j);
      ghost var t' := View();
      CountOut(k);
      assert View() == t';
    }

    /** `assoc_expand`; `ok` says whether the new table could be allocated. */
    method Expand(ok: bool)
      requires Valid() && !expanding
      modifies this
      ensures Valid() && contents == old(contents) && expanding == ok
      ensures if ok then hashpower == old(hashpower) + 1 && expandBucket == 0 && older == old(primary)
              else hashpower == old(hashpower) && primary == old(primary)
    {
      if ok {
        Grow();
      } else {
        ghost var t := View();
        older := primary;
        assert View() == t;
      }
    }

    method Grow()
      requires Valid() && !expanding
      modifies this
      ensures Sizes() && expanding && expandBucket == 0 && hashpower == old(hashpower) + 1
      ensures View() == Expanded(old(View())) && contents == old(contents) && hashItems == old(hashItems)
      ensures older == old(primary) && Good(View(), hash, expanding, expandBucket, contents)
    {
      ghost var t := View();
      ExpandedGood(t, hash, expandBucket, contents);
      older := primary;
      primary := EmptyTable(hashpower + 1);
      hashpower, expanding, expandBucket := hashpower + 1, true, 0;
      olderChains := primaryChains;
      primaryChains, home := Expanded(t).primaryChains, Expanded(t).home;
      assert View() == Expanded(t);
    }

    /** The body of the migration loop: item `it` becomes the head of its new bucket. */
    method MoveFront(it: int) returns (next: int)
      requires Sizes() && 0 <= it < items.Length
      modifies `primaryChains, `home, items, primary
      ensures View() == PushPrimary(old(View()), hash(old(items[it].key)) % primary.Length, it)
      ensures next == old(items[it].next)
    {
      next := items[it].next;
      var bucket := hash(items[it].key) % primary.Length;
      items[it] := Node(items[it].key, primary[bucket]);
      primary[bucket] := it;
      primaryChains := primaryChains[bucket := [it] + primaryChains[bucket]];
      home := home[it := InPrimary(bucket)];
    }

    /** The end of a round: the old bucket is cleared, and after the last one the old table goes. */
    method EndMigration()
      requires Sizes() && expanding && hashItems == |contents| && expandBucket < older.Length
      requires Mid(View(), hash, expandBucket, contents, -1, [])
      modifies `expanding, `expandBucket, `olderChains, older
      ensures Valid()
      ensures expanding == (old(expandBucket) + 1 < older.Length)
      ensures expanding ==> expandBucket == old(expandBucket) + 1
    {
      ghost var t := View();
      MidEnds(t, hash, expandBucket, contents);
      older[expandBucket] := -1;
      olderChains := olderChains[expandBucket := []];
      assert View() == Cleared(t, expandBucket);
      expandBucket := expandBucket + 1;
      if expandBucket == older.Length {
        expanding := false;
        assert View() == t.(older := [], olderChains := []);
      }
    }

    /** One round of the maintenance loop: old bucket `expandBucket` moves to the primary table,
    where only buckets `expandBucket` and `expandBucket` plus the old size change. */
    method MigrateBucket()
      requires Valid() && expanding
      modifies this, items, primary, older
      ensures Valid() && contents == old(contents)
      ensures hashpower == old(hashpower) && primary == old(primary) && older == old(older)
      ensures expanding == (old(expandBucket) + 1 < older.Length)
      ensures expanding ==> expandBucket == old(expandBucket) + 1
      ensures |primaryChains| == |old(primaryChains)|
      ensures forall b :: 0 <= b < |primaryChains| && b != old(expandBucket) && b != old(expandBucket) + older.Length
                ==> primaryChains[b] == old(primaryChains)[b]
    {
      MidStarts(View(), hash, expandBucket, contents);
      ghost var rest := olderChains[expandBucket];
      var it := older[expandBucket];
      while it != -1
        invariant Sizes() && expanding && expandBucket == old(expandBucket) && hashpower == old(hashpower)
        invariant primary == old(primary) && older == old(older)
        invariant contents == old(contents) && hashItems == old(hashItems)
        invariant Mid(View(), hash, expandBucket, contents, it, rest)
        invariant |primaryChains| == |old(primaryChains)|
        invariant forall b :: 0 <= b < |primaryChains| && b != expandBucket && b != expandBucket + older.Length
                    ==> primaryChains[b] == old(primaryChains)[b]
        decreases |rest|
      {
        MidStep(View(), hash, expandBucket, contents, it, rest);
        it := MoveFront(it);
        rest := rest[1..];
      }
      ChainEnds(items[..], rest);
      EndMigration();
    }

    /** The locked part of the maintenance thread: up to `bulk` rounds. The map is unchanged, and
    enough rounds end the expansion, with every item in the primary table. */
    method Maintain(bulk: nat)
      requires Valid()
      modifies this, items, primary, older
      ensures Valid() && contents == old(contents) && hashpower == old(hashpower)
      ensures old(expanding) && bulk >= old(older.Length - expandBucket) ==> !expanding
      ensures old(expanding) && bulk < old(older.Length - expandBucket) ==>
                expanding && expandBucket == old(expandBucket) + bulk
      ensures !expanding ==> forall p :: 0 <= p < |home| ==> !home[p].InOld?
    {
      var ii := 0;
      while ii < bulk && expanding
        invariant 0 <= ii <= bulk && Valid() && contents == old(contents) && hashpower == old(hashpower)
        invariant primary == old(primary) && older == old(older)
        invariant expanding ==> old(expanding) && expandBucket == old(expandBucket) + ii
        invariant old(expanding) && !expanding ==> ii == old(older.Length - expandBucket)
      {
        MigrateBucket();
        ii := ii + 1;
      }
      forall p | 0 <= p < |home| && !expanding ensures !home[p].InOld? {
        assert ItemOk(View(), hash, expanding, expandBucket, contents, p);
      }
    }
  }
}
