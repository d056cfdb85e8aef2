/** Character classes, trimming, lines and the order of strings. */
module Chars {

  /** Unicode `White_Space`. */
  predicate IsSpace(c: char) {
    var n := c as int;
    || 0x09 <= n <= 0x0D || n == 0x20 || n == 0x85 || n == 0xA0 || n == 0x1680
    || 0x2000 <= n <= 0x200A || n == 0x2028 || n == 0x2029 || n == 0x202F || n == 0x205F || n == 0x3000
  }

  predicate AllSpace(s: string) {
    s == "" || (IsSpace(s[0]) && AllSpace(s[1..]))
  }

  function TrimStart(s: string): (r: string)
    ensures r == "" || !IsSpace(r[0])
    ensures |r| <= |s|
  {
    if s != "" && IsSpace(s[0]) then TrimStart(s[1..]) else s
  }

  function TrimEnd(s: string): (r: string)
    ensures r == "" || !IsSpace(r[|r| - 1])
    ensures |r| <= |s|
  {
    if s != "" && IsSpace(s[|s| - 1]) then TrimEnd(s[..|s| - 1]) else s
  }

  /** What is trimmed off the start is white space in front of the rest. */
  lemma {:induction false} TrimStartParts(s: string)
    ensures var k := |s| - |TrimStart(s)|;
      s[k..] == TrimStart(s) && AllSpace(s[..k])
    decreases |s|
  {
    var k := |s| - |TrimStart(s)|;
    if s != "" && IsSpace(s[0]) {
      TrimStartParts(s[1..]);
      assert s[1..][k - 1..] == s[k..] && s[..k][1..] == s[1..][..k - 1];
    } else {
      assert s[0..] == s;
    }
  }

  lemma {:induction false} TrimEndIsPrefix(s: string)
    ensures TrimEnd(s) == s[..|TrimEnd(s)|]
    decreases |s|
  {
    if s != "" && IsSpace(s[|s| - 1]) { TrimEndIsPrefix(s[..|s| - 1]); }
  }

  lemma {:induction false} TrimStartOf(lead: string, s: string)
    requires AllSpace(lead) && (s == "" || !IsSpace(s[0]))
    ensures TrimStart(lead + s) == s
    decreases |lead|
  {
    if lead == "" {
      assert lead + s == s;
    } else {
      TrimStartOf(lead[1..], s);
      assert (lead + s)[1..] == lead[1..] + s;
    }
  }

  /** Where the first `c` is; the length when there is none. */
  function Find(s: string, c: char): (i: nat)
    ensures i <= |s| && c !in s[..i] && (i < |s| ==> s[i] == c)
  {
    if s == "" || s[0] == c then 0
    else
      var i := 1 + Find(s[1..], c);
      assert s[..i] == [s[0]] + s[1..][..i - 1];
      i
  }

  /** The pieces between `c`s; always at least one. */
  function Split(s: string, c: char): (r: seq<string>)
    ensures |r| > 0
    ensures forall p | p in r :: c !in p
    decreases |s|
  {
    var i := Find(s, c);
    if i == |s| then
      assert s[..i] == s;
      [s]
    else [s[..i]] + Split(s[i + 1..], c)
  }

  /** Each line followed by a line feed. */
  function Text(lines: seq<string>): string {
    if lines == [] then "" else lines[0] + "\n" + Text(lines[1..])
  }

  /** The lines of a text that ends in a line feed, or is empty. */
  function LinesOf(s: string): seq<string>
    decreases |s|
  {
    if s == "" then []
    else
      var i := Find(s, '\n');
      if i == |s| then [s] else [s[..i]] + LinesOf(s[i + 1..])
  }

  lemma {:induction false} FindFirst(a: string, c: char, b: string)
    requires c !in a
    ensures Find(a + [c] + b, c) == |a|
    decreases |a|
  {
    if a != "" {
      assert a[0] != c;
      FindFirst(a[1..], c, b);
      assert (a + [c] + b)[1..] == a[1..] + [c] + b;
    }
  }

  /** Writing lines out and reading them back gives the lines. */
  lemma {:induction false} LinesRoundTrip(lines: seq<string>)
    requires forall l | l in lines :: '\n' !in l
    ensures LinesOf(Text(lines)) == lines
    decreases |lines|
  {
    if lines != [] {
      var l, rest := lines[0], Text(lines[1..]);
      assert Text(lines) == l + ['\n'] + rest;
      FindFirst(l, '\n', rest);
      assert Text(lines)[|l| + 1..] == rest && Text(lines)[..|l|] == l;
      LinesRoundTrip(lines[1..]);
      assert lines == [l] + lines[1..];
    }
  }

  lemma {:induction false} TextConcat(a: seq<string>, b: seq<string>)
    ensures Text(a + b) == Text(a) + Text(b)
    decreases |a|
  {
    if a == [] {
      assert a + b == b;
    } else {
      TextConcat(a[1..], b);
      assert (a + b)[1..] == a[1..] + b;
    }
  }

  // ---- the order of strings: by scalar values, which is by bytes ----

  predicate Precedes(a: string, b: string) {
    b != "" && (a == "" || a[0] < b[0] || (a[0] == b[0] && Precedes(a[1..], b[1..])))
  }

  /** They agree up to `n`, where `a` ends or has the lesser character. */
  predicate DiffersAt(a: string, b: string, n: nat) {
    n <= |a| && n < |b| && a[..n] == b[..n] && (n == |a| || a[n] < b[n])
  }

  lemma {:induction false} WhereItDiffers(a: string, b: string) returns (n: nat)
    requires Precedes(a, b)
    ensures DiffersAt(a, b, n)
    decreases |a|
  {
    n := 0;
    if a != "" && a[0] == b[0] {
      n := WhereItDiffers(a[1..], b[1..]);
      assert a[..n + 1] == [a[0]] + a[1..][..n] && b[..n + 1] == [b[0]] + b[1..][..n];
      n := n + 1;
    }
  }

  lemma {:induction false} DifferingPrecedes(a: string, b: string, n: nat)
    requires DiffersAt(a, b, n)
    ensures Precedes(a, b)
    decreases n
  {
    if n > 0 {
      assert a[..n][0] == b[..n][0];
      assert a[1..][..n - 1] == a[..n][1..] && b[1..][..n - 1] == b[..n][1..];
      DifferingPrecedes(a[1..], b[1..], n - 1);
    }
  }

  /** The first character in which they differ decides; of a text and its beginning, the beginning is first. */
  lemma PrecedesIff(a: string, b: string)
    ensures Precedes(a, b) <==> exists n :: DiffersAt(a, b, n)
  {
    if Precedes(a, b) { var n := WhereItDiffers(a, b); }
    if n :| DiffersAt(a, b, n) { DifferingPrecedes(a, b, n); }
  }

  lemma {:induction false} PrecedesTotal(a: string, b: string)
    ensures a == b || Precedes(a, b) || Precedes(b, a)
    ensures !(Precedes(a, b) && Precedes(b, a)) && !Precedes(a, a)
    decreases |a| + |b|
  {
    if a != "" {
      PrecedesIrreflexive(a);
      if b != "" {
        PrecedesTotal(a[1..], b[1..]);
        assert a == [a[0]] + a[1..] && b == [b[0]] + b[1..];
      }
    }
  }

  lemma {:induction false} PrecedesIrreflexive(a: string)
    ensures !Precedes(a, a)
    decreases |a|
  {
    if a != "" { PrecedesIrreflexive(a[1..]); }
  }

  lemma {:induction false} PrecedesTransitive(a: string, b: string, c: string)
    requires Precedes(a, b) && Precedes(b, c)
    ensures Precedes(a, c)
    decreases |a|
  {
    if a != "" && a[0] == b[0] && b[0] == c[0] { PrecedesTransitive(a[1..], b[1..], c[1..]); }
  }
}
