/** Sequences as lists of distinct elements, and optional values. */
module Sequences {
  datatype Option<T> = None | Some(value: T)

  ghost predicate Distinct<T>(s: seq<T>) {
    forall i, j :: 0 <= i < j < |s| ==> s[i] != s[j]
  }

  /** Element i of a list of indices, or -1 outside it: what a link at that place holds. */
  function At(o: seq<int>, i: int): int {
    if 0 <= i < |o| then o[i] else -1
  }

  /** The list without its element i. */
  function Without<T>(s: seq<T>, i: nat): seq<T>
    requires i < |s|
  {
    s[..i] + s[i + 1..]
  }

  /** The list without the first x, if it has one. */
  function Drop<T(==)>(s: seq<T>, x: T): seq<T> {
    if s == [] then [] else if s[0] == x then s[1..] else [s[0]] + Drop(s[1..], x)
  }

  lemma {:induction false} DropIs<T>(s: seq<T>, x: T)
    requires Distinct(s)
    ensures Distinct(Drop(s, x))
    ensures forall y :: y in Drop(s, x) <==> y in s && y != x
    ensures |Drop(s, x)| == |s| - (if x in s then 1 else 0)
  {
    if s != [] {
      var rest := s[1..];
      DropIs(rest, x);
      assert forall y :: y in s <==> y == s[0] || y in rest;
      if s[0] != x {
        var d := Drop(rest, x);
        assert Drop(s, x) == [s[0]] + d;
        forall j | 0 <= j < |d| ensures d[j] != s[0] {
          var y := d[j];
          assert y in Drop(rest, x);
        }
      }
    }
  }

  function PositionOf<T(==)>(s: seq<T>, x: T): (i: nat)
    requires x in s
    ensures i < |s| && s[i] == x
  {
    if s[0] == x then 0 else PositionOf(s[1..], x) + 1
  }

  lemma {:induction false} DropIsWithout<T>(s: seq<T>, x: T)
    requires x in s
    ensures Drop(s, x) == Without(s, PositionOf(s, x))
  {
    if s[0] != x {
      DropIsWithout(s[1..], x);
    }
  }

  lemma {:induction false} DropAbsent<T>(s: seq<T>, x: T)
    requires x !in s
    ensures Drop(s, x) == s
  {
    if s != [] {
      DropAbsent(s[1..], x);
    }
  }

  function Blank<T>(n: nat): seq<seq<T>> { seq(n, _ => []) }
}
