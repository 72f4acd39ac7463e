/** The mixing macros of Bob Jenkins' hash, bit by bit on 32-bit words: both can be undone. */
module JenkinsMix {
  import opened Words
  import opened JenkinsHash

  // ----- Word operations -----

  function Power2(n: nat): (r: nat)
    ensures r > 0
  {
    if n == 0 then 1 else 2 * Power2(n - 1)
  }

  /** Exclusive or of the low n bits. */
  function XorBits(x: nat, y: nat, n: nat): (r: nat)
    ensures r < Power2(n)
  {
    if n == 0 then 0 else (x + y) % 2 + 2 * XorBits(x / 2, y / 2, n - 1)
  }

  lemma LowBit(x: nat, y: nat, r: nat)
    ensures ((x + y) % 2 + 2 * r) / 2 == r
    ensures ((x + y) % 2 + 2 * r + y) % 2 == x % 2
  {
    var p, q := (x + y) % 2, (x + y) / 2;
    assert x + y == 2 * q + p;
    assert p + 2 * r + y == x + 2 * (r + y - q);
  }

  lemma {:induction false} XorTwice(x: nat, y: nat, n: nat)
    requires x < Power2(n)
    ensures XorBits(XorBits(x, y, n), y, n) == x
  {
    if n > 0 {
      XorTwice(x / 2, y / 2, n - 1);
      var r := XorBits(x / 2, y / 2, n - 1);
      LowBit(x, y, r);
      assert XorBits(x, y, n) == (x + y) % 2 + 2 * r;
    }
  }

  lemma Power2Of32()
    ensures Power2(32) == U32
  {
    assert Power2(4) == 16 && Power2(8) == 0x100 && Power2(12) == 0x1000 && Power2(16) == 0x1_0000;
    assert Power2(20) == 0x10_0000 && Power2(24) == 0x100_0000 && Power2(28) == 0x1000_0000;
  }

  function Xor(x: Word, y: Word): Word {
    Power2Of32();
    XorBits(x, y, 32)
  }

  function Sub(x: Word, y: Word): Word {
    (x - y) % U32
  }

  function Left(x: Word, k: nat): Word {
    if k == 0 then x else 2 * Left(x, k - 1) % U32
  }

  function Right(x: Word, k: nat): Word {
    if k == 0 then x else Right(x, k - 1) / 2
  }

  function Rot(x: Word, k: nat): Word
    requires k <= 32
  {
    Xor(Left(x, k), Right(x, 32 - k))
  }

  lemma XorBack(x: Word, r: Word)
    ensures Xor(Xor(x, r), r) == x
  {
    Power2Of32();
    XorTwice(x, r, 32);
  }

  lemma AddSub(x: Word, y: Word)
    ensures Sub(Add(x, y), y) == x && Add(Sub(x, y), y) == x
  {
  }

  // ----- Rot is a rotation -----

  lemma {:induction false} Power2Sum(k: nat, n: nat)
    ensures Power2(k + n) == Power2(k) * Power2(n)
  {
    if k > 0 { Power2Sum(k - 1, n); }
  }

  lemma DivTwice(x: nat, p: nat)
    requires p > 0
    ensures x / p / 2 == x / (2 * p)
  {
    var q, r := x / p, x % p;
    assert x == p * q + r;
    assert x == (2 * p) * (q / 2) + (p * (q % 2) + r);
    DivIs(x, 2 * p, q / 2, p * (q % 2) + r);
  }

  lemma DivIs(x: nat, p: nat, q: nat, r: nat)
    requires p > 0 && x == p * q + r && r < p
    ensures x / p == q && x % p == r
  {
    var d := x / p - q;
    assert x == p * (x / p) + x % p;
    assert p * d == p * (x / p) - p * q;
    if d != 0 { Multiple(p, d); }
  }

  lemma Multiple(p: nat, d: int)
    requires p > 0 && d != 0
    ensures p * d >= p || p * d <= 0 - p
  {
    if d > 0 { MulGrows(d, 1, p); } else { MulGrows(0 - d, 1, p); }
  }

  lemma MulGrows(a: nat, b: nat, q: nat)
    requires a >= b
    ensures a * q >= b * q
  {
  }

  lemma {:induction false} RightIs(x: Word, k: nat)
    ensures Right(x, k) == x / Power2(k)
  {
    if k > 0 {
      RightIs(x, k - 1);
      DivTwice(x, Power2(k - 1));
    }
  }

  lemma DoubleMod(y: nat)
    ensures 2 * (y % U32) % U32 == 2 * y % U32
  {
    var q, r := y / U32, y % U32;
    if 2 * r < U32 {
      DivIs(2 * y, U32, 2 * q, 2 * r);
    } else {
      DivIs(2 * y, U32, 2 * q + 1, 2 * r - U32);
      DivIs(2 * r, U32, 1, 2 * r - U32);
    }
  }

  lemma TwiceProduct(x: nat, p: nat)
    ensures 2 * (x * p) == x * (2 * p)
  {
  }

  lemma {:induction false} LeftIs(x: Word, k: nat)
    ensures Left(x, k) == x * Power2(k) % U32
  {
    if k > 0 {
      LeftIs(x, k - 1);
      DoubleMod(x * Power2(k - 1));
      TwiceProduct(x, Power2(k - 1));
    }
  }

  /** The low k bits of w are zero. */
  predicate Clear(w: nat, k: nat) {
    k == 0 || (w % 2 == 0 && Clear(w / 2, k - 1))
  }

  lemma {:induction false} ClearProduct(u: nat, k: nat)
    ensures Clear(u * Power2(k), k)
  {
    if k > 0 {
      TwiceProduct(u, Power2(k - 1));
      ClearProduct(u, k - 1);
    }
  }

  /** Where the one has zeros, exclusive or is addition. */
  lemma {:induction false} XorDisjoint(w: nat, v: nat, k: nat, n: nat)
    requires v < Power2(k) && k <= n && Clear(w, k) && w + v < Power2(n)
    ensures XorBits(w, v, n) == w + v
    decreases n
  {
    if k == 0 {
      XorNothing(w, n);
    } else {
      XorDisjoint(w / 2, v / 2, k - 1, n - 1);
    }
  }

  lemma {:induction false} XorNothing(u: nat, n: nat)
    requires u < Power2(n)
    ensures XorBits(u, 0, n) == u
  {
    if n > 0 { XorNothing(u / 2, n - 1); }
  }

  lemma Below(a: nat, p: nat, b: nat, q: nat)
    requires a < p && b < q
    ensures a * q + b < p * q
  {
    assert (a + 1) * q <= p * q;
  }

  /** The arithmetic of a rotation, for p == 2^k and q == 2^(32 - k). */
  lemma RotParts(hi: nat, lo: nat, p: nat, q: nat)
    requires p * q == U32 && hi < p && lo < q
    ensures hi * q + lo < U32 && lo * p + hi < U32
    ensures (hi * q + lo) / q == hi && (hi * q + lo) * p % U32 == lo * p
  {
    Below(hi, p, lo, q);
    Below(lo, q, hi, p);
    var x := hi * q + lo;
    DivIs(x, q, hi, lo);
    assert x * p == hi * (p * q) + lo * p;
    assert q * p == U32;
    DivIs(x * p, U32, hi, lo * p);
  }

  lemma PowersMakeWord(k: nat)
    requires k <= 32
    ensures Power2(k) * Power2(32 - k) == U32
  {
    Power2Of32();
    Power2Sum(k, 32 - k);
  }

  /** Rot moves the top k bits to the bottom: x is hi above and lo below, and comes out lo above and hi
  below. */
  lemma RotIsRotation(x: Word, k: nat, hi: nat, lo: nat)
    requires k <= 32 && hi < Power2(k) && lo < Power2(32 - k) && x == hi * Power2(32 - k) + lo
    ensures lo * Power2(k) + hi < U32 && Rot(x, k) == lo * Power2(k) + hi
  {
    PowersMakeWord(k);
    RotParts(hi, lo, Power2(k), Power2(32 - k));
    RightIs(x, 32 - k);
    LeftIs(x, k);
    Power2Of32();
    ClearProduct(lo, k);
    XorDisjoint(lo * Power2(k), hi, k, 32);
  }

  lemma SplitWord(x: Word, k: nat) returns (hi: nat, lo: nat)
    requires k <= 32
    ensures hi < Power2(k) && lo < Power2(32 - k) && x == hi * Power2(32 - k) + lo
  {
    PowersMakeWord(k);
    hi, lo := x / Power2(32 - k), x % Power2(32 - k);
    DivBelow(x, Power2(k), Power2(32 - k));
  }

  lemma DivBelow(x: nat, p: nat, q: nat)
    requires x < p * q && q > 0
    ensures x == (x / q) * q + x % q && x / q < p
  {
    if x / q >= p { MulGrows(x / q, p, q); }
  }

  /** Rotating on by the remaining bits brings every word back. */
  lemma RotBack(x: Word, k: nat)
    requires k <= 32
    ensures Rot(Rot(x, k), 32 - k) == x
  {
    var hi, lo := SplitWord(x, k);
    RotIsRotation(x, k, hi, lo);
    RotIsRotation(Rot(x, k), 32 - k, lo, hi);
  }

  // ----- The two macros -----

  /** The six lines of mix. */
  function Mix(s: Abc): Abc {
    var a1, c1 := Xor(Sub(s.a, s.c), Rot(s.c, 4)), Add(s.c, s.b);
    var b1, a2 := Xor(Sub(s.b, a1), Rot(a1, 6)), Add(a1, c1);
    var c2, b2 := Xor(Sub(c1, b1), Rot(b1, 8)), Add(b1, a2);
    var a3, c3 := Xor(Sub(a2, c2), Rot(c2, 16)), Add(c2, b2);
    var b3, a4 := Xor(Sub(b2, a3), Rot(a3, 19)), Add(a3, c3);
    var c4, b4 := Xor(Sub(c3, b3), Rot(b3, 4)), Add(b3, a4);
    Abc(a4, b4, c4)
  }

  /** The seven lines of final. */
  function Final(s: Abc): Abc {
    var c1 := Sub(Xor(s.c, s.b), Rot(s.b, 14));
    var a1 := Sub(Xor(s.a, c1), Rot(c1, 11));
    var b1 := Sub(Xor(s.b, a1), Rot(a1, 25));
    var c2 := Sub(Xor(c1, b1), Rot(b1, 16));
    var a2 := Sub(Xor(a1, c2), Rot(c2, 4));
    var b2 := Sub(Xor(b1, a2), Rot(a2, 14));
    var c3 := Sub(Xor(c2, b2), Rot(b2, 24));
    Abc(a2, b2, c3)
  }

  /** The macro mix as it is written, changing its three variables in place. */
  method MixInPlace(s: Abc) returns (t: Abc)
    ensures t == Mix(s)
  {
    var a, b, c := s.a, s.b, s.c;
    a := Sub(a, c); a := Xor(a, Rot(c, 4)); c := Add(c, b);
    b := Sub(b, a); b := Xor(b, Rot(a, 6)); a := Add(a, c);
    c := Sub(c, b); c := Xor(c, Rot(b, 8)); b := Add(b, a);
    a := Sub(a, c); a := Xor(a, Rot(c, 16)); c := Add(c, b);
    b := Sub(b, a); b := Xor(b, Rot(a, 19)); a := Add(a, c);
    c := Sub(c, b); c := Xor(c, Rot(b, 4)); b := Add(b, a);
    t := Abc(a, b, c);
  }

  /** The macro final. */
  method FinalInPlace(s: Abc) returns (t: Abc)
    ensures t == Final(s)
  {
    var a, b, c := s.a, s.b, s.c;
    c := Xor(c, b); c := Sub(c, Rot(b, 14));
    a := Xor(a, c); a := Sub(a, Rot(c, 11));
    b := Xor(b, a); b := Sub(b, Rot(a, 25));
    c := Xor(c, b); c := Sub(c, Rot(b, 16));
    a := Xor(a, c); a := Sub(a, Rot(c, 4));
    b := Xor(b, a); b := Sub(b, Rot(a, 14));
    c := Xor(c, b); c := Sub(c, Rot(b, 24));
    t := Abc(a, b, c);
  }

  // ----- One line, and how to undo it -----

  datatype Line = Turn(k: nat) | Twist(k: nat)

  predicate Fine(ls: seq<Line>) {
    forall i :: 0 <= i < |ls| ==> ls[i].k <= 32
  }

  /** A line of mix (Turn) or final (Twist); the names move on by one for the next line. */
  function Step(s: Abc, l: Line): Abc
    requires l.k <= 32
  {
    match l
    case Turn(k) => Abc(s.b, Add(s.c, s.b), Xor(Sub(s.a, s.c), Rot(s.c, k)))
    case Twist(k) => Abc(s.b, Sub(Xor(s.c, s.b), Rot(s.b, k)), s.a)
  }

  function Unstep(s: Abc, l: Line): Abc
    requires l.k <= 32
  {
    match l
    case Turn(k) =>
      var c := Sub(s.b, s.a);
      Abc(Add(Xor(s.c, Rot(c, k)), c), s.a, c)
    case Twist(k) => Abc(s.c, s.a, Xor(Add(s.b, Rot(s.a, k)), s.a))
  }

  lemma UnstepStep(s: Abc, l: Line)
    requires l.k <= 32
    ensures Unstep(Step(s, l), l) == s
  {
    match l
    case Turn(k) =>
      AddSub(s.c, s.b);
      AddSub(s.a, s.c);
      XorBack(Sub(s.a, s.c), Rot(s.c, k));
    case Twist(k) =>
      AddSub(Xor(s.c, s.b), Rot(s.b, k));
      XorBack(s.c, s.b);
  }

  lemma StepUnstep(s: Abc, l: Line)
    requires l.k <= 32
    ensures Step(Unstep(s, l), l) == s
  {
    match l
    case Turn(k) =>
      var c := Sub(s.b, s.a);
      AddSub(s.b, s.a);
      AddSub(Xor(s.c, Rot(c, k)), c);
      XorBack(s.c, Rot(c, k));
    case Twist(k) =>
      XorBack(Add(s.b, Rot(s.a, k)), s.a);
      AddSub(s.b, Rot(s.a, k));
  }

  function Steps(s: Abc, ls: seq<Line>): Abc
    requires Fine(ls)
    decreases |ls|
  {
    if ls == [] then s else Steps(Step(s, ls[0]), ls[1..])
  }

  function Unsteps(s: Abc, ls: seq<Line>): Abc
    requires Fine(ls)
    decreases |ls|
  {
    if ls == [] then s else Unstep(Unsteps(s, ls[1..]), ls[0])
  }

  lemma {:induction false} StepsBack(s: Abc, ls: seq<Line>)
    requires Fine(ls)
    ensures Unsteps(Steps(s, ls), ls) == s && Steps(Unsteps(s, ls), ls) == s
    decreases |ls|
  {
    if ls != [] {
      StepsBack(Step(s, ls[0]), ls[1..]);
      UnstepStep(s, ls[0]);
      StepsBack(s, ls[1..]);
      StepUnstep(Unsteps(s, ls[1..]), ls[0]);
    }
  }

  lemma StepsTwice(s: Abc, k: Line, l: Line, ls: seq<Line>)
    requires k.k <= 32 && l.k <= 32 && Fine(ls)
    ensures Fine([k, l] + ls) && Steps(s, [k, l] + ls) == Steps(Step(Step(s, k), l), ls)
  {
    assert ([k, l] + ls)[1..] == [l] + ls && ([l] + ls)[1..] == ls;
  }

  // ----- Both macros are bijections -----

  const MIX: seq<Line> := [Turn(4), Turn(6), Turn(8), Turn(16), Turn(19), Turn(4)]
  const FINAL: seq<Line> := [Twist(14), Twist(11), Twist(25), Twist(16), Twist(4), Twist(14), Twist(24)]

  lemma MixIsSteps(s: Abc)
    ensures MIX == [Turn(4), Turn(6), Turn(8), Turn(16), Turn(19), Turn(4)] && Mix(s) == Steps(s, MIX)
  {
    var t := Step(Step(s, Turn(4)), Turn(6));
    var u := Step(Step(t, Turn(8)), Turn(16));
    assert MIX == [Turn(4), Turn(6)] + ([Turn(8), Turn(16)] + ([Turn(19), Turn(4)] + []));
    StepsTwice(s, Turn(4), Turn(6), [Turn(8), Turn(16)] + ([Turn(19), Turn(4)] + []));
    StepsTwice(t, Turn(8), Turn(16), [Turn(19), Turn(4)] + []);
    StepsTwice(u, Turn(19), Turn(4), []);
  }

  /** Seven lines leave the names moved on by one. */
  lemma FinalIsSteps(s: Abc)
    ensures FINAL == [Twist(14), Twist(11), Twist(25), Twist(16), Twist(4), Twist(14), Twist(24)]
    ensures var t := Steps(s, FINAL);
            Final(s) == Abc(t.c, t.a, t.b)
  {
    var t := Step(Step(s, Twist(14)), Twist(11));
    var u := Step(Step(t, Twist(25)), Twist(16));
    var v := Step(Step(u, Twist(4)), Twist(14));
    var last := [Twist(24)];
    assert FINAL == [Twist(14), Twist(11)] + ([Twist(25), Twist(16)] + ([Twist(4), Twist(14)] + last));
    StepsTwice(s, Twist(14), Twist(11), [Twist(25), Twist(16)] + ([Twist(4), Twist(14)] + last));
    StepsTwice(t, Twist(25), Twist(16), [Twist(4), Twist(14)] + last);
    StepsTwice(u, Twist(4), Twist(14), last);
    assert last[1..] == [];
  }

  function Unmix(s: Abc): Abc {
    Unsteps(s, MIX)
  }

  function Unfinal(s: Abc): Abc {
    Unsteps(Abc(s.b, s.c, s.a), FINAL)
  }

  /** mix is a bijection on triples of words, with Unmix as its inverse. */
  lemma MixIsBijection(s: Abc)
    ensures Unmix(Mix(s)) == s && Mix(Unmix(s)) == s
  {
    MixIsSteps(s);
    MixIsSteps(Unmix(s));
    StepsBack(s, MIX);
  }

  /** So is final, with Unfinal. */
  lemma FinalIsBijection(s: Abc)
    ensures Unfinal(Final(s)) == s && Final(Unfinal(s)) == s
  {
    FinalBack(s);
    FinalForth(s);
  }

  lemma FinalBack(s: Abc)
    ensures Unfinal(Final(s)) == s
  {
    FinalIsSteps(s);
    StepsBack(s, FINAL);
  }

  lemma FinalForth(s: Abc)
    ensures Final(Unfinal(s)) == s
  {
    FinalIsSteps(Unfinal(s));
    StepsBack(Abc(s.b, s.c, s.a), FINAL);
  }
}
