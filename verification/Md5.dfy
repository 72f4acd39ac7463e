/**
 * The streaming part of ketama's MD5: buffering, the 64-bit length kept in two words, padding and
 * output, around a compression function that is left as a parameter.
 */
module Md5 {
  import opened Words

  datatype Chain = Chain(a: Word, b: Word, c: Word, d: Word)

  type Compress = (Chain, seq<Byte>) -> Chain

  // ----- RFC 1321 -----

  /** The registers of section 3.3 of RFC 1321. */
  const INIT := Chain(0x67452301, 0xefcdab89, 0x98badcfe, 0x10325476)

  /** The compression function over the whole blocks of a message; a tail is left alone. */
  function Fold(f: Compress, h: Chain, m: seq<Byte>): Chain
    decreases |m|
  {
    if |m| < 64 then h else Fold(f, f(h, m[..64]), m[64..])
  }

  function Whole(m: seq<Byte>): seq<Byte> {
    m[..|m| - |m| % 64]
  }

  function Tail(m: seq<Byte>): seq<Byte> {
    m[|m| - |m| % 64..]
  }

  /** n bytes of a number, low-order first. */
  function LittleEndian(v: nat, n: nat): (r: seq<Byte>)
    ensures |r| == n
  {
    if n == 0 then [] else [v % 256] + LittleEndian(v / 256, n - 1)
  }

  function Value(s: seq<Byte>): nat {
    if s == [] then 0 else s[0] + 256 * Value(s[1..])
  }

  function Zeros(n: nat): seq<Byte> {
    seq(n, _ => 0)
  }

  /** Sections 3.1 and 3.2: a 1 bit, zeros up to 56 bytes modulo 64, and the length in bits. */
  function Pad(m: seq<Byte>): seq<Byte> {
    m + [0x80] + Zeros((55 - |m|) % 64) + LittleEndian(8 * |m| % U64, 8)
  }

  /** Section 3.5: the registers, low-order byte first. */
  function Output(h: Chain): seq<Byte> {
    LittleEndian(h.a, 4) + LittleEndian(h.b, 4) + LittleEndian(h.c, 4) + LittleEndian(h.d, 4)
  }

  function Digest(f: Compress, m: seq<Byte>): seq<Byte> {
    Output(Fold(f, INIT, Pad(m)))
  }

  lemma {:induction false} FoldConcat(f: Compress, h: Chain, m: seq<Byte>, n: seq<Byte>)
    requires |m| % 64 == 0
    ensures Fold(f, h, m + n) == Fold(f, Fold(f, h, m), n)
    decreases |m|
  {
    if m == [] {
      assert m + n == n;
    } else {
      assert (m + n)[..64] == m[..64] && (m + n)[64..] == m[64..] + n;
      FoldConcat(f, f(h, m[..64]), m[64..], n);
    }
  }

  /** One block is one compression; less than a block is none. */
  lemma FoldBlockIs(f: Compress, h: Chain, m: seq<Byte>)
    requires |m| <= 64
    ensures Fold(f, h, m) == if |m| == 64 then f(h, m) else h
  {
    if |m| == 64 { assert m[..64] == m && m[64..] == []; }
  }

  /** The digest is the registers, four bytes each, low-order byte first. */
  lemma OutputIs(h: Chain)
    ensures |Output(h)| == 16
    ensures Value(Output(h)[0..4]) == h.a && Value(Output(h)[4..8]) == h.b
    ensures Value(Output(h)[8..12]) == h.c && Value(Output(h)[12..16]) == h.d
  {
    Quarters(LittleEndian(h.a, 4), LittleEndian(h.b, 4), LittleEndian(h.c, 4), LittleEndian(h.d, 4));
    WordValue(h.a);
    WordValue(h.b);
    WordValue(h.c);
    WordValue(h.d);
  }

  lemma WordValue(w: Word)
    ensures Value(LittleEndian(w, 4)) == w
  {
    PowerOfEight();
    LittleEndianValue(w, 4);
  }

  lemma Quarters(a: seq<Byte>, b: seq<Byte>, c: seq<Byte>, d: seq<Byte>)
    requires |a| == |b| == |c| == |d| == 4
    ensures var r := a + b + c + d;
            |r| == 16 && r[0..4] == a && r[4..8] == b && r[8..12] == c && r[12..16] == d
  {
  }

  /** A message of at most 55 bytes is one block, compressed once from the registers of the standard. */
  lemma DigestOfShort(f: Compress, m: seq<Byte>)
    requires |m| <= 55
    ensures Digest(f, m) == Output(f(Chain(0x67452301, 0xefcdab89, 0x98badcfe, 0x10325476), Pad(m)))
  {
    PadIsOneBlock(m);
    FoldBlockIs(f, INIT, Pad(m));
  }

  lemma PadIsOneBlock(m: seq<Byte>)
    requires |m| <= 55
    ensures |Pad(m)| == 64
  {
    PadSize(m);
  }

  lemma SplitIsUnique(w: seq<Byte>, t: seq<Byte>)
    requires |w| % 64 == 0 && |t| < 64
    ensures Whole(w + t) == w && Tail(w + t) == t
  {
    assert |w + t| % 64 == |t|;
  }

  lemma {:induction false} LittleEndianValue(v: nat, n: nat)
    requires v < Power(n)
    ensures Value(LittleEndian(v, n)) == v
  {
    if n > 0 {
      LittleEndianValue(v / 256, n - 1);
      assert LittleEndian(v, n)[1..] == LittleEndian(v / 256, n - 1);
    }
  }

  function Power(n: nat): (r: nat)
    ensures r > 0
  {
    if n == 0 then 1 else 256 * Power(n - 1)
  }

  lemma PowerOfEight()
    ensures Power(4) == U32 && Power(8) == U64
  {
    assert Power(2) == 0x1_0000 && Power(4) == U32 && Power(6) == 0x1_0000_0000_0000;
  }

  lemma PadSize(m: seq<Byte>)
    ensures |Pad(m)| % 64 == 0 && |m| + 9 <= |Pad(m)| < |m| + 9 + 64
  {
    var k := (55 - |m|) % 64;
    assert |Pad(m)| == |m| + 9 + k;
  }

  /** The number in the last eight bytes. */
  function EndValue(p: seq<Byte>): nat
    requires |p| >= 8
  {
    Value(p[|p| - 8..])
  }

  /** Padding fills up whole blocks with as few bytes as possible, and ends in the bit length. */
  lemma PadShape(m: seq<Byte>)
    ensures |Pad(m)| % 64 == 0 && |m| + 9 <= |Pad(m)| < |m| + 9 + 64
    ensures Pad(m)[..|m|] == m && Pad(m)[|m|] == 0x80
    ensures forall i :: |m| < i < |Pad(m)| - 8 ==> Pad(m)[i] == 0
    ensures EndValue(Pad(m)) == 8 * |m| % U64
  {
    PadSize(m);
    PowerOfEight();
    assert Pad(m)[|Pad(m)| - 8..] == LittleEndian(8 * |m| % U64, 8);
    LittleEndianValue(8 * |m| % U64, 8);
  }

  function LengthIn(p: seq<Byte>): nat
    requires |p| >= 8
  {
    EndValue(p) / 8
  }

  /** The message can be read back from its padding while its length fits 64 bits. */
  function Unpad(p: seq<Byte>): seq<Byte>
    requires |p| >= 8
  {
    if LengthIn(p) <= |p| then p[..LengthIn(p)] else p
  }

  lemma LengthInPad(m: seq<Byte>)
    requires 8 * |m| < U64
    ensures |Pad(m)| >= 8 && LengthIn(Pad(m)) == |m|
  {
    PadShape(m);
    Eighth(|m|);
  }

  lemma Eighth(n: nat)
    requires 8 * n < U64
    ensures 8 * n % U64 == 8 * n && 8 * n / 8 == n
  {
  }

  lemma UnpadPad(m: seq<Byte>)
    requires 8 * |m| < U64
    ensures |Pad(m)| >= 8 && Unpad(Pad(m)) == m
  {
    LengthInPad(m);
    PadShape(m);
  }

  // ----- The counter -----

  /** Two words hold the length in bits modulo 2^64. */
  predicate Counts(c0: Word, c1: Word, length: nat) {
    c0 + c1 * U32 == 8 * length % U64
  }

  lemma ModLess(x: int, y: int)
    ensures (x - 64 * y) % 64 == x % 64
  {
  }

  lemma CountOffset(c0: Word, c1: Word, length: nat)
    requires Counts(c0, c1, length)
    ensures c0 / 8 % 64 == length % 64
  {
    var q := 8 * length / U64;
    var y := q * 0x80_0000_0000_0000 + c1 * 0x80_0000;
    assert c0 == 8 * (length - 64 * y);
    ModLess(length, y);
  }

  /** The three statements that update the counter add 8 * n with a carry. */
  function Carry(c0: Word, c1: Word, n: nat): (Word, Word)
    requires n < 0x1000_0000
  {
    var nbits := n * 8 % U32;
    var high := (c1 + n / 0x2000_0000) % U32;
    var low := (c0 + nbits) % U32;
    (low, if low < nbits then (high + 1) % U32 else high)
  }

  lemma CarryAdds(c0: Word, c1: Word, n: nat)
    requires n < 0x1000_0000
    ensures var (low, high) := Carry(c0, c1, n);
            var sum := c0 + c1 * U32 + 8 * n;
            low + high * U32 == sum || low + high * U32 == sum - U64
  {
    assert n / 0x2000_0000 == 0 && n * 8 % U32 == n * 8;
    if c0 + 8 * n < U32 {
      assert (c0 + 8 * n) % U32 == c0 + 8 * n;
    } else {
      assert (c0 + 8 * n) % U32 == c0 + 8 * n - U32;
    }
  }

  lemma ModAdd(x: nat, y: nat, z: nat)
    requires z < U64 && (z == x % U64 + y || z == x % U64 + y - U64)
    ensures z == (x + y) % U64
  {
    var q := x / U64;
    assert x + y == q * U64 + z || x + y == (q + 1) * U64 + z;
  }

  lemma CarryCounts(c0: Word, c1: Word, n: nat, length: nat)
    requires n < 0x1000_0000 && Counts(c0, c1, length)
    ensures Counts(Carry(c0, c1, n).0, Carry(c0, c1, n).1, length + n)
  {
    var (low, high) := Carry(c0, c1, n);
    CarryAdds(c0, c1, n);
    ModAdd(8 * length, 8 * n, low + high * U32);
  }

  // ----- The hash object -----

  lemma FoldBlock(f: Compress, w: seq<Byte>, b: seq<Byte>)
    requires |w| % 64 == 0 && |b| == 64
    ensures Fold(f, INIT, w + b) == f(Fold(f, INIT, w), b)
  {
    FoldConcat(f, INIT, w, b);
    assert b[..64] == b;
  }

  /** The number shifted right by i bytes. */
  function Shifted(w: nat, i: nat): nat {
    if i == 0 then w else Shifted(w, i - 1) / 256
  }

  lemma BytesOfWord(w: Word, r: seq<Byte>)
    requires |r| == 4 && forall i :: 0 <= i < 4 ==> r[i] == Shifted(w, i) % 256
    ensures r == LittleEndian(w, 4)
  {
    assert Shifted(w, 1) == w / 256 && Shifted(w, 2) == w / 256 / 256;
    var t := LittleEndian(w / 256 / 256, 2);
    assert t == [w / 256 / 256 % 256] + LittleEndian(w / 256 / 256 / 256, 1);
    assert LittleEndian(w, 4) == [w % 256] + ([w / 256 % 256] + t);
  }

  lemma AddMultiple(a: nat, b: nat, p: nat)
    ensures (a + b * (256 * p)) % 256 == a % 256 && (a + b * (256 * p)) / 256 == a / 256 + b * p
  {
    assert b * (256 * p) == 256 * (b * p);
  }

  lemma {:induction false} LittleEndianSplit(a: nat, b: nat, n: nat, k: nat)
    requires a < Power(n)
    ensures LittleEndian(a + b * Power(n), n + k) == LittleEndian(a, n) + LittleEndian(b, k)
  {
    if n > 0 {
      AddMultiple(a, b, Power(n - 1));
      LittleEndianSplit(a / 256, b, n - 1, k);
    }
  }

  lemma CountBytes(c0: Word, c1: Word)
    ensures LittleEndian(c0 + c1 * U32, 8) == LittleEndian(c0, 4) + LittleEndian(c1, 4)
  {
    PowerOfEight();
    LittleEndianSplit(c0, c1, 4, 4);
  }

  lemma PadCount(c: nat, length: nat)
    requires c % 64 == length % 64
    ensures (55 - c) % 64 == (55 - length) % 64
  {
    var q := SameRemainder(c, length);
    ModLess(55 - length, q);
  }

  lemma SameRemainder(x: nat, y: nat) returns (q: int)
    requires x % 64 == y % 64
    ensures x == y + 64 * q
  {
    q := x / 64 - y / 64;
  }

  lemma Parts(m: seq<Byte>)
    ensures m == Whole(m) + Tail(m) && |Whole(m)| % 64 == 0 && |Tail(m)| == |m| % 64
  {
  }

  lemma Regroup3(w: seq<Byte>, data: seq<Byte>, start: nat, p: nat)
    requires start <= p <= |data| && |w| % 64 == 0 && (p - start) % 64 == 0
    ensures w + data[start..] == w + data[start..p] + data[p..]
    ensures |w + data[start..p]| % 64 == 0
  {
    assert data[start..] == data[start..p] + data[p..];
  }

  class State {
    const compress: Compress
    var count0: Word
    var count1: Word
    var abcd: Chain
    const buf: array<Byte>
    ghost var message: seq<Byte>

    /** The fields are those of one blockwise pass over the message so far. */
    ghost predicate Valid()
      reads this, buf
    {
      && buf.Length == 64
      && Counts(count0, count1, |message|)
      && abcd == Fold(compress, INIT, Whole(message))
      && buf[..|message| % 64] == Tail(message)
    }

    /** md5_init. */
    constructor (compress: Compress)
      ensures Valid() && message == [] && this.compress == compress && fresh(buf)
    {
      this.compress := compress;
      count0, count1, message := 0, 0, [];
      abcd := Chain(0x67452301, U32 - 1 - 0x10325476, U32 - 1 - 0x67452301, 0x10325476);
      buf := new Byte[64](_ => 0);
    }

    method CopyIn(offset: nat, data: seq<Byte>)
      requires buf.Length == 64 && offset + |data| <= 64
      modifies buf
      ensures buf[..offset] == old(buf[..offset]) && buf[offset..offset + |data|] == data
    {
      for i := 0 to |data|
        invariant buf[..offset] == old(buf[..offset])
        invariant buf[offset..offset + i] == data[..i]
      {
        buf[offset + i] := data[i];
        assert buf[offset..offset + i + 1] == buf[offset..offset + i] + [data[i]];
        assert data[..i + 1] == data[..i] + [data[i]];
      }
      assert data[..|data|] == data;
    }

    /** How many bytes are buffered. */
    method Offset() returns (offset: nat)
      requires Valid()
      ensures offset == |message| % 64
    {
      CountOffset(count0, count1, |message|);
      offset := count0 / 8 % 64;
    }

    /** How many bytes of padding bring the length to 56 modulo 64. */
    method PadLength() returns (k: nat)
      requires Valid()
      ensures k == (55 - |message|) % 64 + 1
    {
      CountOffset(count0, count1, |message|);
      PadCount(count0 / 8, |message|);
      k := (55 - count0 / 8) % 64 + 1;
    }

    method LengthBytes() returns (r: seq<Byte>)
      requires Valid()
      ensures r == LittleEndian(8 * |message| % U64, 8)
    {
      r := WordBytes([count0, count1]);
      CountBytes(count0, count1);
      TwoWords(count0, count1, r);
    }

    /** The two words of the bit count, with the carry between them. */
    method AddLength(n: nat)
      requires Valid() && n < 0x1000_0000
      modifies this`count0, this`count1
      ensures Counts(count0, count1, |message| + n)
    {
      CarryCounts(count0, count1, n, |message|);
      var nbits: Word := n * 8 % U32;
      count1 := (count1 + n / 0x2000_0000) % U32;
      count0 := (count0 + nbits) % U32;
      if count0 < nbits {
        count1 := (count1 + 1) % U32;
      }
    }

    /** The loop over full blocks; w has been absorbed. */
    method Blocks(data: seq<Byte>, start: nat, ghost w: seq<Byte>) returns (p: nat)
      requires start <= |data| && |w| % 64 == 0 && abcd == Fold(compress, INIT, w)
      modifies this`abcd
      ensures start <= p <= |data| < p + 64 && (p - start) % 64 == 0
      ensures abcd == Fold(compress, INIT, w + data[start..p])
    {
      p := start;
      var left := |data| - start;
      assert w + data[start..p] == w;
      while left >= 64
        invariant start <= p <= |data| && left == |data| - p && (p - start) % 64 == 0
        invariant abcd == Fold(compress, INIT, w + data[start..p])
      {
        FoldBlock(compress, w + data[start..p], data[p..p + 64]);
        assert w + data[start..p + 64] == w + data[start..p] + data[p..p + 64];
        abcd := compress(abcd, data[p..p + 64]);
        p, left := p + 64, left - 64;
      }
    }

    /** Full blocks and the final partial block; w, a whole number of blocks, has been absorbed. */
    method Finale(data: seq<Byte>, start: nat, ghost w: seq<Byte>)
      requires buf.Length == 64 && start <= |data| && |w| % 64 == 0 && abcd == Fold(compress, INIT, w)
      requires w + data[start..] == message && Counts(count0, count1, |message|)
      modifies this`abcd, buf
      ensures Valid()
    {
      var p := Blocks(data, start, w);
      if p < |data| {
        CopyIn(0, data[p..]);
      }
      Regroup3(w, data, start, p);
      SplitIsUnique(w + data[start..p], data[p..]);
    }

    /** The bytes d go behind the buffered tail t. */
    method Extend(d: seq<Byte>, ghost t: seq<Byte>, offset: nat)
      requires buf.Length == 64 && |t| == offset && offset + |d| <= 64 && buf[..offset] == t
      modifies buf
      ensures buf[..offset + |d|] == t + d
    {
      CopyIn(offset, d);
      assert buf[..offset + |d|] == buf[..offset] + buf[offset..offset + |d|];
    }

    /** The buffer holds the tail t behind the whole blocks w, and the data does not fill it. */
    method KeepShort(data: seq<Byte>, offset: nat, ghost w: seq<Byte>, ghost t: seq<Byte>)
      requires buf.Length == 64 && |w| % 64 == 0 && |t| == offset && offset + |data| < 64 && buf[..offset] == t
      requires abcd == Fold(compress, INIT, w) && message == w + t + data && Counts(count0, count1, |message|)
      modifies buf
      ensures Valid()
    {
      Extend(data, t, offset);
      assert message == w + (t + data);
      SplitIsUnique(w, t + data);
    }

    /** The buffer holds the tail t behind the whole blocks w, and the data fills it. */
    method TopUp(data: seq<Byte>, offset: nat, ghost w: seq<Byte>, ghost t: seq<Byte>)
      requires buf.Length == 64 && |w| % 64 == 0 && |t| == offset <= 64 <= offset + |data| && buf[..offset] == t
      requires abcd == Fold(compress, INIT, w) && message == w + t + data && Counts(count0, count1, |message|)
      modifies this`abcd, buf
      ensures Valid()
    {
      var copy := 64 - offset;
      ghost var block := t + data[..copy];
      Extend(data[..copy], t, offset);
      assert buf[..] == block;
      FoldBlock(compress, w, block);
      abcd := compress(abcd, buf[..]);
      assert w + block + data[copy..] == w + t + data;
      Finale(data, copy, w + block);
    }

    /** md5_append: the message grows by the data, wherever the block boundaries fall. */
    method Append(data: seq<Byte>)
      requires Valid() && |data| < 0x1000_0000
      modifies this, buf
      ensures Valid() && message == old(message) + data
    {
      var n := |data|;
      var offset := Offset();
      if n == 0 {
        assert message + data == message;
        return;
      }
      ghost var w, t := Whole(message), Tail(message);
      Parts(message);
      AddLength(n);
      message := message + data;
      if offset != 0 {
        if offset + n < 64 {
          KeepShort(data, offset, w, t);
        } else {
          TopUp(data, offset, w, t);
        }
      } else {
        assert w + data[0..] == w + t + data;
        Finale(data, 0, w);
      }
    }

    /** md5_finish: the digest of sections 3.1 to 3.5 of RFC 1321 for everything appended. */
    method Finish() returns (digest: seq<Byte>)
      requires Valid()
      modifies this, buf
      ensures digest == Digest(compress, old(message))
    {
      ghost var m := message;
      var length := LengthBytes();
      var padding: seq<Byte> := [0x80] + seq(63, _ => 0);
      var k := PadLength();
      PadPrefix(m, k, padding, length);
      Append(padding[..k]);
      Append(length);
      assert message == Pad(m);
      PadIsWhole(m);
      digest := WordBytes([abcd.a, abcd.b, abcd.c, abcd.d]);
      FourWords(abcd, digest);
    }
  }

  lemma PadIsWhole(m: seq<Byte>)
    ensures Whole(Pad(m)) == Pad(m)
  {
    PadShape(m);
  }

  function Concat(pieces: seq<seq<Byte>>): seq<Byte> {
    if pieces == [] then [] else Concat(pieces[..|pieces| - 1]) + pieces[|pieces| - 1]
  }

  /** However a message is cut into pieces, the digest is that of the whole. */
  method HashPieces(compress: Compress, pieces: seq<seq<Byte>>) returns (digest: seq<Byte>)
    requires forall i :: 0 <= i < |pieces| ==> |pieces[i]| < 0x1000_0000
    ensures digest == Digest(compress, Concat(pieces))
  {
    var state := new State(compress);
    for i := 0 to |pieces|
      invariant state.Valid() && state.compress == compress && state.message == Concat(pieces[..i])
      invariant fresh(state) && fresh(state.buf)
    {
      state.Append(pieces[i]);
      assert pieces[..i + 1][..i] == pieces[..i];
    }
    assert pieces[..|pieces|] == pieces;
    digest := state.Finish();
  }

  /** What md5_finish appends is the padding. */
  lemma PadPrefix(m: seq<Byte>, k: nat, padding: seq<Byte>, length: seq<Byte>)
    requires padding == [0x80] + Zeros(63) && k == (55 - |m|) % 64 + 1
    requires length == LittleEndian(8 * |m| % U64, 8)
    ensures m + padding[..k] + length == Pad(m)
  {
    assert padding[..k] == [0x80] + Zeros(k - 1);
    Regroup(m, [0x80], Zeros(k - 1), length);
  }

  lemma Regroup(a: seq<Byte>, b: seq<Byte>, c: seq<Byte>, d: seq<Byte>)
    ensures a + (b + c) + d == a + b + c + d
  {
    assert a + (b + c) == a + b + c;
  }

  /** The words taken apart, low-order byte first. */
  predicate AreBytesOf(ws: seq<Word>, r: seq<Byte>) {
    |r| == 4 * |ws| && forall i :: 0 <= i < |r| ==> r[i] == Shifted(ws[i / 4], i % 4) % 256
  }

  method WordBytes(ws: seq<Word>) returns (r: seq<Byte>)
    ensures AreBytesOf(ws, r)
  {
    r := [];
    for i := 0 to 4 * |ws|
      invariant |r| == i && forall j :: 0 <= j < i ==> r[j] == Shifted(ws[j / 4], j % 4) % 256
    {
      r := r + [Shifted(ws[i / 4], i % 4) % 256];
    }
  }

  lemma WordAt(ws: seq<Word>, r: seq<Byte>, k: nat)
    requires AreBytesOf(ws, r) && k < |ws|
    ensures r[4 * k..4 * k + 4] == LittleEndian(ws[k], 4)
  {
    var t := r[4 * k..4 * k + 4];
    forall i | 0 <= i < 4 ensures t[i] == Shifted(ws[k], i) % 256 {
      assert (4 * k + i) / 4 == k && (4 * k + i) % 4 == i;
    }
    BytesOfWord(ws[k], t);
  }

  lemma TwoWords(a: Word, b: Word, r: seq<Byte>)
    requires AreBytesOf([a, b], r)
    ensures r == LittleEndian(a, 4) + LittleEndian(b, 4)
  {
    WordAt([a, b], r, 0);
    WordAt([a, b], r, 1);
    assert r == r[0..4] + r[4..8];
  }

  lemma FourWords(h: Chain, r: seq<Byte>)
    requires AreBytesOf([h.a, h.b, h.c, h.d], r)
    ensures r == Output(h)
  {
    var ws := [h.a, h.b, h.c, h.d];
    WordAt(ws, r, 0);
    WordAt(ws, r, 1);
    WordAt(ws, r, 2);
    WordAt(ws, r, 3);
    assert r == r[0..4] + r[4..8] + r[8..12] + r[12..16];
  }
}
