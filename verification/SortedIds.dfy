/** The ascending enumeration of a finite set of keys: what iterating a `BTreeMap` or a
    `BTreeSet`, or sorting ids, yields. */
module SortedIds {

  ghost predicate Ascending(s: seq<nat>) {
    forall i, j | 0 <= i < j < |s| :: s[i] < s[j]
  }

  function SetOf(s: seq<nat>): set<nat> {
    set n | n in s
  }

  ghost predicate Distinct(s: seq<nat>) {
    forall i, j | 0 <= i < j < |s| :: s[i] != s[j]
  }

  lemma HeadTail(s: seq<nat>)
    requires s != [] && Distinct(s)
    ensures Distinct(s[1..]) && SetOf(s) == {s[0]} + SetOf(s[1..]) && s[0] !in SetOf(s[1..])
    ensures s[0] in SetOf(s)
    ensures Ascending(s) ==> Ascending(s[1..])
  {
  }

  lemma {:induction false} DistinctCount(s: seq<nat>)
    requires Distinct(s)
    ensures |SetOf(s)| == |s|
  {
    if s != [] {
      HeadTail(s);
      DistinctCount(s[1..]);
    }
  }

  lemma {:induction false} LeastExists(s: set<nat>)
    requires s != {}
    ensures exists m :: m in s && forall n | n in s :: m <= n
    decreases s
  {
    var x :| x in s;
    var below := set n | n in s && n < x;
    if below == {} {
      assert forall n | n in s && n < x :: n in below;
    } else {
      assert x !in below;
      LeastExists(below);
      var m :| m in below && forall n | n in below :: m <= n;
      assert forall n | n in s && n < x :: n in below;
      assert forall n | n in s :: m <= n;
    }
  }

  function Least(s: set<nat>): (m: nat)
    requires s != {}
    ensures m in s && forall n | n in s :: m <= n
  {
    LeastExists(s);
    var m :| m in s && forall n | n in s :: m <= n;
    m
  }

  /** The elements of `s` in ascending order. */
  function Sorted(s: set<nat>): (r: seq<nat>)
    ensures Ascending(r)
    ensures forall n :: n in r <==> n in s
    ensures |r| == |s|
  {
    if s == {} then []
    else
      var m := Least(s);
      var rest := Sorted(s - {m});
      assert forall i | 0 <= i < |rest| :: rest[i] in rest && rest[i] in s - {m};
      [m] + rest
  }

  lemma SomeElement(s: seq<nat>)
    ensures s == [] || exists n :: n in s
  {
    if s != [] { assert s[0] in s; }
  }

  /** Ascending sequences with the same elements are the same sequence. */
  lemma {:induction false} AscendingUnique(a: seq<nat>, b: seq<nat>)
    requires Ascending(a) && Ascending(b)
    requires forall n :: n in a <==> n in b
    ensures a == b
  {
    SomeElement(a);
    SomeElement(b);
    if a != [] && b != [] {
      assert a[0] in b;
      assert b[0] in a;
      assert a[0] == b[0];
      forall n ensures n in a[1..] <==> n in b[1..] {
        assert a == [a[0]] + a[1..] && b == [b[0]] + b[1..];
        if n in a[1..] { assert n != a[0]; assert n in b; }
        if n in b[1..] { assert n != b[0]; assert n in a; }
      }
      AscendingUnique(a[1..], b[1..]);
      assert a == [a[0]] + a[1..] && b == [b[0]] + b[1..];
    }
  }
}
