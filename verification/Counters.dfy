/**
 * The numbers that incr and decr work on (do_add_delta in memcached.c, safe_strtoull in util.c).
 *
 * A value is text. It is read as a C string: the value, its line end and whatever memory lies
 * behind the item, up to the first zero byte. It is written back in decimal.
 */
module Counters {
  import opened Sequences
  import opened Words

  const SIGN_BIT := 0x8000_0000_0000_0000
  const INCR_MAX_STORAGE_LEN := 24
  const LINE_END := "\r\n"

  predicate IsSpace(c: char) {
    c == ' ' || '\t' <= c <= '\r'
  }

  predicate IsDigit(c: char) {
    '0' <= c <= '9'
  }

  ghost predicate AllDigits(s: string) {
    forall i :: 0 <= i < |s| ==> IsDigit(s[i])
  }

  // ----- Writing -----

  /** The conversion %llu. */
  function Decimal(n: nat): (s: string)
    ensures s != [] && AllDigits(s)
  {
    if n < 10 then ['0' + n as char] else Decimal(n / 10) + ['0' + (n % 10) as char]
  }

  function Pow10(d: nat): nat {
    if d == 0 then 1 else 10 * Pow10(d - 1)
  }

  lemma {:induction false} DecimalIsShort(n: nat, d: nat)
    requires d > 0 && n < Pow10(d)
    ensures |Decimal(n)| <= d
  {
    if n >= 10 {
      DecimalIsShort(n / 10, d - 1);
    }
  }

  /** The buffer of incr and decr has room for every 64-bit number and its zero byte. */
  lemma DecimalFits(n: nat)
    requires n < U64
    ensures |Decimal(n)| < INCR_MAX_STORAGE_LEN
  {
    assert Pow10(10) == 100_0000_0000;
    assert Pow10(20) == 1_0000_0000_0000_0000_0000;
    DecimalIsShort(n, 20);
  }

  // ----- Reading -----

  /** A C string ends before its first zero byte. */
  function CString(s: string): (r: string)
    ensures r <= s && '\0' !in r
  {
    if s == [] || s[0] == '\0' then [] else [s[0]] + CString(s[1..])
  }

  function SkipSpaces(s: string, i: nat): (j: nat)
    requires i <= |s|
    ensures i <= j <= |s|
    decreases |s| - i
  {
    if i < |s| && IsSpace(s[i]) then SkipSpaces(s, i + 1) else i
  }

  function SkipDigits(s: string, i: nat): (j: nat)
    requires i <= |s|
    ensures i <= j <= |s| && AllDigits(s[i..j]) && (j < |s| ==> !IsDigit(s[j]))
    decreases |s| - i
  {
    if i < |s| && IsDigit(s[i]) then
      var j := SkipDigits(s, i + 1);
      assert s[i..j] == [s[i]] + s[i + 1..j];
      j
    else i
  }

  function Number(s: string): nat
    requires AllDigits(s)
  {
    if s == [] then 0 else 10 * Number(s[..|s| - 1]) + (s[|s| - 1] - '0') as nat
  }

  /** strtoull in base 10: the number and where it ends, unless there are no digits or too many.
  A minus sign negates in 64 bits. */
  function Strtoull(s: string): (r: Option<(nat, nat)>)
    ensures r.Some? ==> r.value.0 < U64 && r.value.1 <= |s|
  {
    var i := SkipSpaces(s, 0);
    var start := if i < |s| && (s[i] == '+' || s[i] == '-') then i + 1 else i;
    var end := SkipDigits(s, start);
    if start == end || Number(s[start..end]) >= U64 then None
    else if s[i] == '-' then Some(((U64 - Number(s[start..end])) % U64, end))
    else Some((Number(s[start..end]), end))
  }

  /** safe_strtoull. */
  function SafeStrtoull(text: string): (r: Option<nat>)
    ensures r.Some? ==> r.value < U64
  {
    var s := CString(text);
    var r := Strtoull(s);
    if r.None? then None
    else if r.value.1 < |s| && !IsSpace(s[r.value.1]) then None
    else if r.value.0 >= SIGN_BIT && '-' in s then None
    else Some(r.value.0)
  }

  // ----- What is written can be read, with one exception -----

  lemma {:induction false} NumberOfDecimal(n: nat)
    ensures Number(Decimal(n)) == n
  {
    if n >= 10 {
      NumberOfDecimal(n / 10);
      assert Decimal(n)[..|Decimal(n)| - 1] == Decimal(n / 10);
    } else {
      assert Decimal(n)[..0] == [];
    }
  }

  lemma {:induction false} CStringOfText(a: string, b: string)
    requires '\0' !in a
    ensures CString(a + b) == a + CString(b)
  {
    if a == [] {
      assert a + b == b;
    } else {
      assert (a + b)[1..] == a[1..] + b;
      CStringOfText(a[1..], b);
    }
  }

  lemma {:induction false} SkipsAllDigits(s: string, i: nat, d: nat)
    requires i <= d < |s| && AllDigits(s[i..d]) && !IsDigit(s[d])
    ensures SkipDigits(s, i) == d
    decreases d - i
  {
    if i < d {
      assert IsDigit(s[i..d][0]);
      assert s[i + 1..d] == s[i..d][1..];
      SkipsAllDigits(s, i + 1, d);
    }
  }

  /** A number followed by a space is read as that number. */
  lemma ReadsNumber(n: nat, rest: string)
    requires n < U64 && rest != [] && IsSpace(rest[0])
    ensures Strtoull(Decimal(n) + rest) == Some((n, |Decimal(n)|))
  {
    var d, s := Decimal(n), Decimal(n) + rest;
    assert s[0..|d|] == d && IsDigit(d[0]);
    SkipsAllDigits(s, 0, |d|);
    NumberOfDecimal(n);
  }

  lemma MinusIsBehind(n: nat, rest: string)
    ensures '-' in Decimal(n) + (LINE_END + rest) <==> '-' in rest
  {
    assert '-' !in Decimal(n);
  }

  /** A counter is read back if and only if it is below 2^63 or no minus sign lies behind it. */
  lemma CounterReadsIff(n: nat, behind: string)
    requires n < U64
    ensures SafeStrtoull(Decimal(n) + (LINE_END + behind)) ==
            if n < SIGN_BIT || '-' !in CString(behind) then Some(n) else None
  {
    var d := Decimal(n);
    var rest := LINE_END + CString(behind);
    CStringOfText(LINE_END, behind);
    CStringOfText(d, LINE_END + behind);
    ReadsNumber(n, rest);
    MinusIsBehind(n, CString(behind));
    assert (d + rest)[|d|] == rest[0];
  }

  // ----- What else is read as a number -----

  ghost predicate AllSpaces(s: string) {
    forall i :: 0 <= i < |s| ==> IsSpace(s[i])
  }

  lemma {:induction false} SkipsAllSpaces(s: string, i: nat, d: nat)
    requires i <= d <= |s| && AllSpaces(s[i..d]) && (d < |s| ==> !IsSpace(s[d]))
    ensures SkipSpaces(s, i) == d
    decreases d - i
  {
    if i < d {
      assert IsSpace(s[i..d][0]);
      assert s[i + 1..d] == s[i..d][1..];
      SkipsAllSpaces(s, i + 1, d);
    }
  }

  lemma {:induction false} SkipsDigitsTo(s: string, i: nat, d: nat)
    requires i <= d <= |s| && AllDigits(s[i..d]) && (d < |s| ==> !IsDigit(s[d]))
    ensures SkipDigits(s, i) == d
    decreases d - i
  {
    if i < d {
      assert IsDigit(s[i..d][0]);
      assert s[i + 1..d] == s[i..d][1..];
      SkipsDigitsTo(s, i + 1, d);
    }
  }

  /** Blanks up to i, a sign up to j and digits up to k are read as the number, below 2^64 and after a minus
  negated modulo 2^64; without digits there is no number. */
  lemma ReadsAt(s: string, i: nat, j: nat, k: nat)
    requires i <= j <= k <= |s| && AllSpaces(s[0..i]) && AllDigits(s[j..k])
    requires i < |s| ==> !IsSpace(s[i]) && (j == if s[i] == '+' || s[i] == '-' then i + 1 else i)
    requires k < |s| ==> !IsDigit(s[k])
    ensures var n := Number(s[j..k]);
            var value: nat := if i < |s| && s[i] == '-' && n < U64 then (U64 - n) % U64 else n;
            Strtoull(s) == if j == k || n >= U64 then None else Some((value, k))
  {
    SkipsAllSpaces(s, 0, i);
    SkipsDigitsTo(s, j, k);
  }

  /** A number counts only if its text ends there or a blank follows, and a large one only if there is no minus
  anywhere in the text. */
  lemma SafeReadsAt(s: string, n: nat, k: nat)
    requires '\0' !in s && Strtoull(s) == Some((n, k))
    ensures SafeStrtoull(s) ==
            if (k == |s| || IsSpace(s[k])) && (n < 0x8000_0000_0000_0000 || '-' !in s) then Some(n) else None
  {
    CStringOfText(s, "");
    assert s + "" == s;
  }

  /** The blanks of the C locale. */
  lemma Blanks(c: char)
    ensures IsSpace(c) <==> c == ' ' || c as int in {9, 10, 11, 12, 13}
  {
  }

  /** The digits are written from the highest to the lowest. */
  lemma DecimalDigits(n: nat, d: nat)
    requires d < 10 && n > 0
    ensures Decimal(10 * n + d) == Decimal(n) + [("0123456789")[d]]
  {
  }

  // ----- The arithmetic -----

  /** incr wraps around at 2^64, decr stops at 0. */
  function Adjusted(incr: bool, value: nat, delta: nat): nat {
    if incr then (value + delta) % U64 else if delta > value then 0 else value - delta
  }

  /** What incr or decr is to do; `behind` is the memory behind the item. */
  datatype Change = Change(incr: bool, delta: nat, behind: string)

  /** The new value, or None for one that does not read as a number. */
  function Changed(c: Change, data: string): Option<string> {
    var v := SafeStrtoull(data + (LINE_END + c.behind));
    if v.None? then None else Some(Decimal(Adjusted(c.incr, v.value, c.delta)))
  }

  function Sum(cs: seq<Change>): nat {
    if cs == [] then 0 else Sum(cs[..|cs| - 1]) + cs[|cs| - 1].delta
  }

  /** The number after a sequence of changes. */
  function AdjustedAll(value: nat, cs: seq<Change>): nat {
    if cs == [] then value
    else Adjusted(cs[|cs| - 1].incr, AdjustedAll(value, cs[..|cs| - 1]), cs[|cs| - 1].delta)
  }

  lemma {:induction false} AdjustedInRange(value: nat, cs: seq<Change>)
    requires value < U64
    ensures AdjustedAll(value, cs) < U64
  {
    if cs != [] { AdjustedInRange(value, cs[..|cs| - 1]); }
  }

  ghost predicate AllIncr(cs: seq<Change>, incr: bool) {
    forall i :: 0 <= i < |cs| ==> cs[i].incr == incr
  }

  /** Increments only add up, in whatever order. */
  lemma {:induction false} IncrementsAddUp(value: nat, cs: seq<Change>)
    requires value < U64 && AllIncr(cs, true)
    ensures AdjustedAll(value, cs) == (value + Sum(cs)) % U64
  {
    if cs != [] {
      var front, d := cs[..|cs| - 1], cs[|cs| - 1].delta;
      IncrementsAddUp(value, front);
      AddMod(value + Sum(front), d);
    }
  }

  lemma AddMod(a: nat, b: nat)
    ensures (a % U64 + b) % U64 == (a + b) % U64
  {
    assert a + b == a % U64 + b + U64 * (a / U64);
    ModPeriod(a % U64 + b, a / U64);
  }

  lemma {:induction false} ModPeriod(a: nat, q: nat)
    ensures (a + U64 * q) % U64 == a % U64
  {
    if q > 0 {
      ModPeriod(a, q - 1);
      assert a + U64 * q == a + U64 * (q - 1) + U64;
    }
  }

  /** Decrements take away their sum, down to 0. */
  lemma {:induction false} DecrementsStopAtZero(value: nat, cs: seq<Change>)
    requires AllIncr(cs, false)
    ensures AdjustedAll(value, cs) == if Sum(cs) > value then 0 else value - Sum(cs)
  {
    if cs != [] { DecrementsStopAtZero(value, cs[..|cs| - 1]); }
  }

  /** Changes of one kind are one change by their sum. */
  lemma SumsUp(value: nat, cs: seq<Change>, incr: bool)
    requires value < U64 && AllIncr(cs, incr)
    ensures AdjustedAll(value, cs) == Adjusted(incr, value, Sum(cs))
  {
    if incr { IncrementsAddUp(value, cs); } else { DecrementsStopAtZero(value, cs); }
  }
}
