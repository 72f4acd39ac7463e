/**
 * Bob Jenkins' hash as memcached has it: one function with three ways of reading the key, chosen
 * by the alignment of its address. The mixing of words is a parameter here; see JenkinsMix.
 */
module JenkinsHash {
  import opened Words

  datatype Abc = Abc(a: Word, b: Word, c: Word)

  /** The two mixing macros. */
  datatype Mixers = Mixers(mix: Abc -> Abc, final: Abc -> Abc)

  function Add(x: Word, y: nat): Word {
    (x + y) % U32
  }

  lemma AddTwice(x: Word, y: nat, z: nat)
    ensures Add(Add(x, y), z) == Add(x, y + z)
  {
    var q := (x + y) / U32;
    assert x + y == q * U32 + Add(x, y);
  }

  lemma AddNothing(x: Word)
    ensures Add(x, 0) == x
  {
  }

  // ----- The reference: blocks of three little-endian words, the last one filled with zeros -----

  function At(key: seq<Byte>, i: nat): Byte {
    if i < |key| then key[i] else 0
  }

  function Join(b0: Byte, b1: Byte, b2: Byte, b3: Byte): Word {
    b0 + 0x100 * b1 + 0x1_0000 * b2 + 0x100_0000 * b3
  }

  /** Word j of the key, with zeros behind its end. */
  function WordOf(key: seq<Byte>, j: nat): Word {
    Join(At(key, 4 * j), At(key, 4 * j + 1), At(key, 4 * j + 2), At(key, 4 * j + 3))
  }

  function Absorb(s: Abc, key: seq<Byte>): Abc {
    Abc(Add(s.a, WordOf(key, 0)), Add(s.b, WordOf(key, 1)), Add(s.c, WordOf(key, 2)))
  }

  function HashFrom(m: Mixers, s: Abc, key: seq<Byte>): Word
    decreases |key|
  {
    if |key| > 12 then HashFrom(m, m.mix(Absorb(s, key)), key[12..])
    else if key == [] then s.c
    else m.final(Absorb(s, key)).c
  }

  function Start(length: nat, initval: Word): Abc {
    var x := (0xdeadbeef + length + initval) % U32;
    Abc(x, x, x)
  }

  function Reference(m: Mixers, key: seq<Byte>, initval: Word): Word {
    HashFrom(m, Start(|key|, initval), key)
  }

  /** The empty key hashes to the constant and the initial value. */
  lemma EmptyKeyHash(m: Mixers, initval: Word)
    ensures Reference(m, [], initval) == (0xdeadbeef + initval) % U32
  {
  }

  /** A key of 1 to 12 bytes: its three words are added to the starting value, which counts its length, and
  mixed once. */
  lemma {:induction false} ShortKeyHash(m: Mixers, key: seq<Byte>, initval: Word, x: Word, t: Abc)
    requires 1 <= |key| <= 12 && x == (0xdeadbeef + |key| + initval) % U32
    requires t == Abc(Add(x, WordOf(key, 0)), Add(x, WordOf(key, 1)), Add(x, WordOf(key, 2)))
    ensures Reference(m, key, initval) == m.final(t).c
  {
  }

  /** A longer key: the first twelve bytes are mixed in, and the rest follows. */
  lemma {:induction false} LongKeyHash(m: Mixers, s: Abc, t: Abc, key: seq<Byte>)
    requires |key| > 12
    requires t == Abc(Add(s.a, WordOf(key, 0)), Add(s.b, WordOf(key, 1)), Add(s.c, WordOf(key, 2)))
    ensures HashFrom(m, s, key) == HashFrom(m, m.mix(t), key[12..])
  {
    HashStep(m, s, t, key);
  }

  /** Keys of different lengths start differently, so zeros at the end of a key count. */
  lemma LengthCounts(n: nat, n': nat, initval: Word)
    requires n < n' < U32
    ensures Start(n, initval) != Start(n', initval)
  {
    var x, d := (0xdeadbeef + n + initval) % U32, n' - n;
    assert (x + d) % U32 == (0xdeadbeef + n' + initval) % U32;
  }

  lemma {:induction false} HashStep(m: Mixers, s: Abc, t: Abc, key: seq<Byte>)
    requires |key| > 12 && t == Absorb(s, key)
    ensures HashFrom(m, s, key) == HashFrom(m, m.mix(t), key[12..])
  {
  }

  // ----- Words of the last block, by the number r of key bytes in them -----

  /** A 32-bit load, masked. */
  function Keep(w: Word, r: int): Word {
    if r <= 0 then 0
    else if r == 1 then w % 0x100
    else if r == 2 then w % 0x1_0000
    else if r == 3 then w % 0x100_0000
    else w
  }

  lemma ModByte(q: nat, r: nat)
    requires r < 0x100
    ensures (q * 0x100 + r) % 0x100 == r
  {
  }

  lemma ModHalf(q: nat, r: nat)
    requires r < 0x1_0000
    ensures (q * 0x1_0000 + r) % 0x1_0000 == r
  {
  }

  lemma ModThree(q: nat, r: nat)
    requires r < 0x100_0000
    ensures (q * 0x100_0000 + r) % 0x100_0000 == r
  {
  }

  lemma JoinMasks(b0: Byte, b1: Byte, b2: Byte, b3: Byte)
    ensures Join(b0, b1, b2, b3) % 0x100 == Join(b0, 0, 0, 0)
    ensures Join(b0, b1, b2, b3) % 0x1_0000 == Join(b0, b1, 0, 0)
    ensures Join(b0, b1, b2, b3) % 0x100_0000 == Join(b0, b1, b2, 0)
  {
    ModByte(b1 + 0x100 * b2 + 0x1_0000 * b3, Join(b0, 0, 0, 0));
    ModHalf(b2 + 0x100 * b3, Join(b0, b1, 0, 0));
    ModThree(b3, Join(b0, b1, b2, 0));
  }

  /** A 32-bit load from memory k. */
  function Load(k: seq<Byte>, j: nat): Word
    requires 4 * j + 4 <= |k|
  {
    Join(k[4 * j], k[4 * j + 1], k[4 * j + 2], k[4 * j + 3])
  }

  /** Masking keeps exactly the bytes of the key. */
  lemma KeepIsWord(k: seq<Byte>, n: nat, j: nat)
    requires n <= |k| && 4 * j + 4 <= |k|
    ensures Keep(Load(k, j), n - 4 * j) == WordOf(k[..n], j)
  {
    JoinMasks(k[4 * j], k[4 * j + 1], k[4 * j + 2], k[4 * j + 3]);
  }

  lemma NoWord(key: seq<Byte>, j: nat)
    requires |key| <= 4 * j
    ensures WordOf(key, j) == 0
  {
  }

  function AddWords(s: Abc, w0: Word, w1: Word, w2: Word): Abc {
    Abc(Add(s.a, w0), Add(s.b, w1), Add(s.c, w2))
  }

  // ----- The 32-bit path -----

  /** The switch over the words k that hold the last n bytes. */
  method LastByWords(s: Abc, k: seq<Word>, n: nat) returns (t: Abc)
    requires 1 <= n <= 12 && |k| == (n + 3) / 4
    ensures t == AddWords(s, Keep(k[0], n), if n > 4 then Keep(k[1], n - 4) else 0,
                          if n > 8 then Keep(k[2], n - 8) else 0)
  {
    var a, b, c := s.a, s.b, s.c;
    if n == 12 { c := Add(c, k[2]); b := Add(b, k[1]); a := Add(a, k[0]); }
    else if n == 11 { c := Add(c, k[2] % 0x100_0000); b := Add(b, k[1]); a := Add(a, k[0]); }
    else if n == 10 { c := Add(c, k[2] % 0x1_0000); b := Add(b, k[1]); a := Add(a, k[0]); }
    else if n == 9 { c := Add(c, k[2] % 0x100); b := Add(b, k[1]); a := Add(a, k[0]); }
    else if n == 8 { b := Add(b, k[1]); a := Add(a, k[0]); }
    else if n == 7 { b := Add(b, k[1] % 0x100_0000); a := Add(a, k[0]); }
    else if n == 6 { b := Add(b, k[1] % 0x1_0000); a := Add(a, k[0]); }
    else if n == 5 { b := Add(b, k[1] % 0x100); a := Add(a, k[0]); }
    else if n == 4 { a := Add(a, k[0]); }
    else if n == 3 { a := Add(a, k[0] % 0x100_0000); }
    else if n == 2 { a := Add(a, k[0] % 0x1_0000); }
    else { a := Add(a, k[0] % 0x100); }
    t := Abc(a, b, c);
  }

  lemma LoadIsWord(k: seq<Byte>, n: nat, w: seq<Word>, j: nat)
    requires n <= |k| && 4 * |w| <= |k| && (n > 4 * j ==> j < |w|)
    requires forall i :: 0 <= i < |w| ==> w[i] == Load(k, i)
    ensures (if n > 4 * j then Keep(w[j], n - 4 * j) else 0) == WordOf(k[..n], j)
  {
    if n > 4 * j { KeepIsWord(k, n, j); } else { NoWord(k[..n], j); }
  }

  lemma LoadsAreWords(s: Abc, k: seq<Byte>, n: nat, w: seq<Word>)
    requires 1 <= n <= 12 && n <= |k| && |w| == (n + 3) / 4 && 4 * |w| <= |k|
    requires forall j :: 0 <= j < |w| ==> w[j] == Load(k, j)
    ensures AddWords(s, Keep(w[0], n), if n > 4 then Keep(w[1], n - 4) else 0, if n > 8 then Keep(w[2], n - 8) else 0)
              == Absorb(s, k[..n])
  {
    LoadIsWord(k, n, w, 0);
    LoadIsWord(k, n, w, 1);
    LoadIsWord(k, n, w, 2);
  }

  lemma FullLoads(s: Abc, k: seq<Byte>, n: nat)
    requires 12 <= n <= |k|
    ensures AddWords(s, Load(k, 0), Load(k, 1), Load(k, 2)) == Absorb(s, k[..n])
  {
    KeepIsWord(k, n, 0);
    KeepIsWord(k, n, 1);
    KeepIsWord(k, n, 2);
  }

  lemma Slack(n: nat)
    requires n >= 12
    ensures (n - 12 + 3) / 4 * 4 == (n + 3) / 4 * 4 - 12
  {
    assert n - 12 + 3 == n + 3 - 4 * 3;
  }

  /** The last block in memory k, which reaches to the end of the key's last word. */
  method EndByWords(s: Abc, k: seq<Byte>, n: nat) returns (t: Abc)
    requires 1 <= n <= 12 && n <= |k| && (n + 3) / 4 * 4 <= |k|
    ensures t == Absorb(s, k[..n])
  {
    var w := seq((n + 3) / 4, j requires 0 <= j < (n + 3) / 4 => Load(k, j));
    LoadsAreWords(s, k, n, w);
    t := LastByWords(s, w, n);
  }

  /** The aligned path: it may read, and must ignore, the rest of the key's last word. */
  method HashByWords(m: Mixers, mem: seq<Byte>, length: nat, initval: Word) returns (h: Word)
    requires (length + 3) / 4 * 4 <= |mem|
    ensures h == Reference(m, mem[..length], initval)
  {
    var s, p, left := Start(length, initval), 0, length;
    assert mem[0..length] == mem[..length];
    ghost var slack := (length + 3) / 4 * 4 - length;
    while left > 12
      invariant 0 <= p && 0 <= left && p + left == length && (left + 3) / 4 * 4 == left + slack
      invariant HashFrom(m, s, mem[p..length]) == Reference(m, mem[..length], initval)
    {
      var k := mem[p..];
      assert k[..left] == mem[p..length] && mem[p..length][12..] == mem[p + 12..length];
      FullLoads(s, k, left);
      var t := AddWords(s, Load(k, 0), Load(k, 1), Load(k, 2));
      HashStep(m, s, t, mem[p..length]);
      s := m.mix(t);
      Slack(left);
      p, left := p + 12, left - 12;
    }
    if left == 0 {
      return s.c;
    }
    var k := mem[p..];
    assert k[..left] == mem[p..length];
    s := EndByWords(s, k, left);
    h := m.final(s).c;
  }

  // ----- The 16-bit path -----

  function HalfAt(k: seq<Byte>, i: nat): (h: nat)
    requires 2 * i + 2 <= |k|
    ensures h < 0x1_0000
  {
    var lo: nat, hi: nat := k[2 * i], k[2 * i + 1];
    lo + 0x100 * hi
  }

  /** A byte in place i of a word. */
  function Shifted(b: Byte, i: nat): nat
    requires i < 4
  {
    var x: nat := b;
    if i == 0 then x else if i == 1 then x * 0x100 else if i == 2 then x * 0x1_0000 else x * 0x100_0000
  }

  lemma TwoHalves(k: seq<Byte>, n: nat, j: nat)
    requires 4 * j + 4 <= n <= |k|
    ensures WordOf(k[..n], j) == HalfAt(k, 2 * j) + HalfAt(k, 2 * j + 1) * 0x1_0000
  {
  }

  lemma HalfAndByte(k: seq<Byte>, n: nat, j: nat)
    requires n == 4 * j + 3 && n <= |k|
    ensures WordOf(k[..n], j) == Shifted(k[4 * j + 2], 2) + HalfAt(k, 2 * j)
  {
  }

  lemma OneHalf(k: seq<Byte>, n: nat, j: nat)
    requires n == 4 * j + 2 && n <= |k|
    ensures WordOf(k[..n], j) == HalfAt(k, 2 * j)
  {
  }

  lemma OneByte(k: seq<Byte>, n: nat, j: nat)
    requires n == 4 * j + 1 && n <= |k|
    ensures WordOf(k[..n], j) == k[4 * j]
  {
  }

  /** One word of a block: the highest part first, one addition after the other. */
  method AddHalves(x: Word, k: seq<Byte>, n: nat, j: nat) returns (y: Word)
    requires n <= |k|
    ensures y == Add(x, WordOf(k[..n], j))
  {
    ghost var word := WordOf(k[..n], j);
    if n <= 4 * j {
      NoWord(k[..n], j);
      AddNothing(x);
      y := x;
    } else if n == 4 * j + 1 {
      OneByte(k, n, j);
      y := Add(x, k[4 * j]);
    } else if n == 4 * j + 2 {
      OneHalf(k, n, j);
      y := Add(x, HalfAt(k, 2 * j));
    } else if n == 4 * j + 3 {
      HalfAndByte(k, n, j);
      var high, low := Shifted(k[4 * j + 2], 2), HalfAt(k, 2 * j);
      AddTwice(x, high, low);
      y := Add(Add(x, high), low);
    } else {
      TwoHalves(k, n, j);
      y := Add(x, HalfAt(k, 2 * j) + HalfAt(k, 2 * j + 1) * 0x1_0000);
    }
  }

  method HashByHalves(m: Mixers, mem: seq<Byte>, length: nat, initval: Word) returns (h: Word)
    requires length <= |mem|
    ensures h == Reference(m, mem[..length], initval)
  {
    var s, p, left := Start(length, initval), 0, length;
    assert mem[0..length] == mem[..length];
    while left > 12
      invariant 0 <= p && 0 <= left && p + left == length
      invariant HashFrom(m, s, mem[p..length]) == Reference(m, mem[..length], initval)
    {
      var k := mem[p..];
      assert k[..left] == mem[p..length] && mem[p..length][12..] == mem[p + 12..length];
      var a := AddHalves(s.a, k, left, 0);
      var b := AddHalves(s.b, k, left, 1);
      var c := AddHalves(s.c, k, left, 2);
      HashStep(m, s, Abc(a, b, c), mem[p..length]);
      s := m.mix(Abc(a, b, c));
      p, left := p + 12, left - 12;
    }
    if left == 0 {
      return s.c;
    }
    var k := mem[p..];
    assert k[..left] == mem[p..length];
    var c := AddHalves(s.c, k, left, 2);
    var b := AddHalves(s.b, k, left, 1);
    var a := AddHalves(s.a, k, left, 0);
    h := m.final(Abc(a, b, c)).c;
  }

  // ----- The bytewise path -----

  /** The bytes of word j from place i up, as they are added. */
  function Sum(k: seq<Byte>, n: nat, j: nat, i: nat): nat
    requires n <= |k| && i <= 4
    decreases 4 - i
  {
    if i == 4 then 0 else Sum(k, n, j, i + 1) + (if 4 * j + i < n then Shifted(k[4 * j + i], i) else 0)
  }

  lemma SumIsWord(k: seq<Byte>, n: nat, j: nat)
    requires n <= |k|
    ensures Sum(k, n, j, 0) == WordOf(k[..n], j)
  {
    assert Sum(k, n, j, 2) == Shifted(At(k[..n], 4 * j + 3), 3) + Shifted(At(k[..n], 4 * j + 2), 2);
    assert Sum(k, n, j, 0) == Sum(k, n, j, 2) + Shifted(At(k[..n], 4 * j + 1), 1) + Shifted(At(k[..n], 4 * j), 0);
  }

  /** The fall-through of the last block: the highest byte first. */
  method AddBytesDown(x: Word, k: seq<Byte>, n: nat, j: nat) returns (y: Word)
    requires n <= |k|
    ensures y == Add(x, WordOf(k[..n], j))
  {
    y := x;
    for i := 4 downto 0
      invariant y == Add(x, Sum(k, n, j, i))
    {
      if n > 4 * j + i {
        AddTwice(x, Sum(k, n, j, i + 1), Shifted(k[4 * j + i], i));
        y := Add(y, Shifted(k[4 * j + i], i));
      }
    }
    SumIsWord(k, n, j);
  }

  lemma FourBytes(k: seq<Byte>, n: nat, j: nat)
    requires 4 * j + 4 <= n <= |k|
    ensures Shifted(k[4 * j], 0) + Shifted(k[4 * j + 1], 1) + Shifted(k[4 * j + 2], 2) + Shifted(k[4 * j + 3], 3)
              == WordOf(k[..n], j)
  {
  }

  /** The body of the block loop: the lowest byte first. */
  method AddBytesUp(x: Word, k: seq<Byte>, n: nat, j: nat) returns (y: Word)
    requires 4 * j + 4 <= n <= |k|
    ensures y == Add(x, WordOf(k[..n], j))
  {
    FourBytes(k, n, j);
    y := Add4(x, Shifted(k[4 * j], 0), Shifted(k[4 * j + 1], 1), Shifted(k[4 * j + 2], 2), Shifted(k[4 * j + 3], 3));
  }

  method Add4(x: Word, b0: nat, b1: nat, b2: nat, b3: nat) returns (y: Word)
    ensures y == Add(x, b0 + b1 + b2 + b3)
  {
    AddTwice(x, b0, b1);
    AddTwice(x, b0 + b1, b2);
    AddTwice(x, b0 + b1 + b2, b3);
    y := Add(x, b0);
    y := Add(y, b1);
    y := Add(y, b2);
    y := Add(y, b3);
  }

  method HashByBytes(m: Mixers, mem: seq<Byte>, length: nat, initval: Word) returns (h: Word)
    requires length <= |mem|
    ensures h == Reference(m, mem[..length], initval)
  {
    var s, p, left := Start(length, initval), 0, length;
    assert mem[0..length] == mem[..length];
    while left > 12
      invariant 0 <= p && 0 <= left && p + left == length
      invariant HashFrom(m, s, mem[p..length]) == Reference(m, mem[..length], initval)
    {
      var k := mem[p..];
      assert k[..left] == mem[p..length] && mem[p..length][12..] == mem[p + 12..length];
      var a := AddBytesUp(s.a, k, left, 0);
      var b := AddBytesUp(s.b, k, left, 1);
      var c := AddBytesUp(s.c, k, left, 2);
      HashStep(m, s, Abc(a, b, c), mem[p..length]);
      s := m.mix(Abc(a, b, c));
      p, left := p + 12, left - 12;
    }
    if left == 0 {
      return s.c;
    }
    var k := mem[p..];
    assert k[..left] == mem[p..length];
    var c := AddBytesDown(s.c, k, left, 2);
    var b := AddBytesDown(s.b, k, left, 1);
    var a := AddBytesDown(s.a, k, left, 0);
    h := m.final(Abc(a, b, c)).c;
  }

  /** The hash depends on the key alone: not on its address, nor on the bytes that follow it. */
  method Hash(m: Mixers, address: nat, mem: seq<Byte>, length: nat, initval: Word) returns (h: Word)
    requires length <= |mem| && (address % 4 == 0 ==> (length + 3) / 4 * 4 <= |mem|)
    ensures h == Reference(m, mem[..length], initval)
  {
    if address % 4 == 0 {
      h := HashByWords(m, mem, length, initval);
    } else if address % 2 == 0 {
      h := HashByHalves(m, mem, length, initval);
    } else {
      h := HashByBytes(m, mem, length, initval);
    }
  }
}
