/** Strings as the bytes they are stored in (section 3 of RFC 3629), and the byte-level
    prefix test of the canonical-save normaliser. */
module Utf8 {

  type Byte = n: nat | n < 256

  datatype Stripped<+T> = NoMatch | Rest(rest: T)

  function CharWidth(c: char): (w: nat)
    ensures 1 <= w <= 4
  {
    var n := c as int;
    if n < 0x80 then 1 else if n < 0x800 then 2 else if n < 0x1_0000 then 3 else 4
  }

  function EncodeChar(c: char): (bs: seq<Byte>)
    ensures |bs| == CharWidth(c)
    ensures !Continuation(bs[0])
    ensures forall i | 1 <= i < |bs| :: Continuation(bs[i])
    ensures bs[0] < 0x80 <==> c as int < 0x80
  {
    var n := c as int;
    if n < 0x80 then [n]
    else if n < 0x800 then [0xC0 + n / 64, 0x80 + n % 64]
    else if n < 0x1_0000 then [0xE0 + n / 4096, 0x80 + n / 64 % 64, 0x80 + n % 64]
    else [0xF0 + n / 262144, 0x80 + n / 4096 % 64, 0x80 + n / 64 % 64, 0x80 + n % 64]
  }

  /** The code point that some bytes spell: the lead byte carries the highest bits, each other six more. */
  function CodePoint(bs: seq<Byte>): int
    requires 1 <= |bs| <= 4
  {
    var lead: int := bs[0];
    if |bs| == 1 then lead
    else if |bs| == 2 then More(lead % 32, bs[1])
    else if |bs| == 3 then More(More(lead % 16, bs[1]), bs[2])
    else More(More(More(lead % 8, bs[1]), bs[2]), bs[3])
  }

  function More(high: int, b: int): int {
    high * 64 + b % 64
  }

  lemma MoreOf(n: int)
    requires n >= 0
    ensures More(n / 64, 0x80 + n % 64) == n
  {
  }

  lemma LeadOf(q: int)
    ensures 0 <= q < 32 ==> (0xC0 + q) % 32 == q
    ensures 0 <= q < 16 ==> (0xE0 + q) % 16 == q
    ensures 0 <= q < 8 ==> (0xF0 + q) % 8 == q
  {
  }

  lemma TwoSpell(n: int)
    requires 0 <= n < 0x800
    ensures More((0xC0 + n / 64) % 32, 0x80 + n % 64) == n
  {
    LeadOf(n / 64);
    MoreOf(n);
  }

  lemma Quarters(n: int)
    ensures n / 4096 == n / 64 / 64 && n / 262144 == n / 4096 / 64
  {
  }

  lemma ThreeSpell(n: int)
    requires 0 <= n < 0x1_0000
    ensures More(More((0xE0 + n / 4096) % 16, 0x80 + n / 64 % 64), 0x80 + n % 64) == n
  {
    Quarters(n);
    LeadOf(n / 4096);
    MoreOf(n / 64);
    MoreOf(n);
  }

  lemma FourSpell(n: int)
    requires 0 <= n < 0x20_0000
    ensures More(More(More((0xF0 + n / 262144) % 8, 0x80 + n / 4096 % 64), 0x80 + n / 64 % 64), 0x80 + n % 64) == n
  {
    Quarters(n);
    LeadOf(n / 262144);
    MoreOf(n / 4096);
    MoreOf(n / 64);
    MoreOf(n);
  }

  /** The bytes of a character spell its code point, in the fewest bytes there are for it. */
  lemma SpellsCodePoint(c: char)
    ensures CodePoint(EncodeChar(c)) == c as int
    ensures var n, w := c as int, |EncodeChar(c)|;
      (w == 1 <==> n < 0x80) && (w == 2 <==> 0x80 <= n < 0x800) && (w == 3 <==> 0x800 <= n < 0x1_0000)
  {
    var n := c as int;
    if n >= 0x1_0000 { FourSpell(n); } else if n >= 0x800 { ThreeSpell(n); } else if n >= 0x80 { TwoSpell(n); }
  }

  /** And the lead byte says how many they are. */
  lemma LeadSaysWidth(c: char)
    ensures var w, lead := |EncodeChar(c)|, EncodeChar(c)[0];
      (w == 1 <==> lead < 0x80) && (w == 2 <==> 0xC0 <= lead < 0xE0) && (w == 3 <==> 0xE0 <= lead < 0xF0) && (w == 4 <==> 0xF0 <= lead)
  {
  }

  function Encode(s: string): (bs: seq<Byte>)
  {
    if s == "" then [] else EncodeChar(s[0]) + Encode(s[1..])
  }

  /** `str::len`. */
  function ByteLen(s: string): nat {
    if s == "" then 0 else CharWidth(s[0]) + ByteLen(s[1..])
  }

  predicate Continuation(b: Byte) {
    0x80 <= b < 0xC0
  }

  /** `str::is_char_boundary`: decided by one byte, without decoding. */
  predicate IsCharBoundary(bs: seq<Byte>, i: nat) {
    i == 0 || i == |bs| || (i < |bs| && !Continuation(bs[i]))
  }

  function LowerByte(b: Byte): Byte {
    if 65 <= b <= 90 then b + 32 else b
  }

  function LowerAscii(c: char): char {
    if 'A' <= c <= 'Z' then (c as int + 32) as char else c
  }

  /** Ignoring case, two characters are the same when they are equal or are one letter from A to Z in its two
      forms; and so for bytes. */
  lemma LowerIff(a: char, b: char, x: Byte, y: Byte)
    ensures LowerAscii(a) == LowerAscii(b)
      <==> a == b || ('a' <= a <= 'z' && a as int - b as int == 32) || ('a' <= b <= 'z' && b as int - a as int == 32)
    ensures LowerByte(x) == LowerByte(y) <==> x == y || (97 <= x <= 122 && x - y == 32) || (97 <= y <= 122 && y - x == 32)
  {
  }

  predicate EqIgnoreAsciiCase(a: seq<Byte>, b: seq<Byte>) {
    |a| == |b| && forall i | 0 <= i < |a| :: LowerByte(a[i]) == LowerByte(b[i])
  }

  predicate Ascii(s: string) {
    forall i | 0 <= i < |s| :: s[i] as int < 0x80
  }

  /** The test as the program makes it, on bytes. */
  function StripPrefixBytes(bs: seq<Byte>, prefix: seq<Byte>): Stripped<seq<Byte>> {
    if |bs| < |prefix| || !IsCharBoundary(bs, |prefix|) then NoMatch
    else if EqIgnoreAsciiCase(bs[..|prefix|], prefix) then Rest(bs[|prefix|..])
    else NoMatch
  }

  /** The leading characters of `s` are those of `prefix`, ignoring ASCII case. */
  predicate StartsWithCi(s: string, prefix: string) {
    |s| >= |prefix| && forall i | 0 <= i < |prefix| :: LowerAscii(s[i]) == LowerAscii(prefix[i])
  }

  /** The test on characters. */
  function StripPrefixCi(s: string, prefix: string): Stripped<string> {
    if StartsWithCi(s, prefix) then Rest(s[|prefix|..]) else NoMatch
  }

  lemma {:induction false} EncodeConcat(a: string, b: string)
    ensures Encode(a + b) == Encode(a) + Encode(b)
  {
    if a == "" {
      assert a + b == b;
    } else {
      assert (a + b)[0] == a[0] && (a + b)[1..] == a[1..] + b;
      EncodeConcat(a[1..], b);
    }
  }

  lemma {:induction false} EncodedLength(s: string)
    ensures |Encode(s)| == ByteLen(s)
  {
    if s != "" { EncodedLength(s[1..]); }
  }

  lemma {:induction false} AsciiEncodesItself(s: string)
    requires Ascii(s)
    ensures |Encode(s)| == |s|
    ensures forall i | 0 <= i < |s| :: Encode(s)[i] == s[i] as int
  {
    if s != "" {
      AsciiEncodesItself(s[1..]);
      forall i | 0 <= i < |s| ensures Encode(s)[i] == s[i] as int {
        if i > 0 { assert Encode(s)[i] == Encode(s[1..])[i - 1]; }
      }
    }
  }

  /** A byte position is a boundary exactly when it is the end of some whole number of leading
      characters: the one-byte test never accepts a split inside a character. */
  lemma {:induction false} BoundaryIffWholeChars(s: string, i: nat)
    ensures IsCharBoundary(Encode(s), i) <==> exists k :: 0 <= k <= |s| && |Encode(s[..k])| == i
  {
    if IsCharBoundary(Encode(s), i) {
      var k := CharsBefore(s, i);
      assert |Encode(s[..k])| == i;
    }
    if k :| 0 <= k <= |s| && |Encode(s[..k])| == i {
      assert s == s[..k] + s[k..];
      EncodeConcat(s[..k], s[k..]);
      if k < |s| {
        assert Encode(s)[i] == Encode(s[k..])[0];
      }
    }
  }

  lemma {:induction false} CharsBefore(s: string, i: nat) returns (k: nat)
    requires IsCharBoundary(Encode(s), i)
    ensures k <= |s| && |Encode(s[..k])| == i
  {
    if i == 0 {
      k := 0;
    } else {
      var w := CharWidth(s[0]);
      assert forall j | 1 <= j < w :: Continuation(Encode(s)[j]);
      assert Encode(s)[w..] == Encode(s[1..]);
      var j := CharsBefore(s[1..], i - w);
      k := j + 1;
      assert s[..k][0] == s[0] && s[..k][1..] == s[1..][..j];
    }
  }

  /** On any encoded string and any ASCII prefix, the byte-level test answers exactly what the
      test on characters answers, and what is left is the encoding of the remaining characters. */
  lemma StripPrefixIsRight(s: string, prefix: string)
    requires Ascii(prefix)
    ensures StripPrefixBytes(Encode(s), Encode(prefix)) ==
            match StripPrefixCi(s, prefix) case NoMatch => NoMatch case Rest(rest) => Rest(Encode(rest))
  {
    AsciiEncodesItself(prefix);
    if StartsWithCi(s, prefix) {
      CharsMatchBytes(s, prefix);
    } else if |Encode(s)| >= |prefix| && EqIgnoreAsciiCase(Encode(s)[..|prefix|], Encode(prefix)) {
      BytesMatchChars(s, prefix);
    }
  }

  lemma CharsMatchBytes(s: string, prefix: string)
    requires Ascii(prefix) && StartsWithCi(s, prefix)
    ensures |Encode(s)| >= |Encode(prefix)| == |prefix| && IsCharBoundary(Encode(s), |prefix|)
    ensures EqIgnoreAsciiCase(Encode(s)[..|prefix|], Encode(prefix))
    ensures Encode(s)[|prefix|..] == Encode(s[|prefix|..])
  {
    var head, rest := s[..|prefix|], s[|prefix|..];
    AsciiEncodesItself(prefix);
    forall i | 0 <= i < |head| ensures head[i] as int < 0x80 && LowerAscii(head[i]) == LowerAscii(prefix[i]) {
      assert LowerAscii(s[i]) == LowerAscii(prefix[i]);
    }
    assert s == head + rest;
    AsciiHead(head, rest);
    AsciiFolds(head, prefix);
  }

  /** ASCII characters in front are as many bytes in front. */
  lemma AsciiHead(a: string, rest: string)
    requires Ascii(a)
    ensures |Encode(a + rest)| >= |a| && Encode(a + rest)[..|a|] == Encode(a) && Encode(a + rest)[|a|..] == Encode(rest)
    ensures IsCharBoundary(Encode(a + rest), |a|)
  {
    AsciiEncodesItself(a);
    EncodeConcat(a, rest);
    assert (a + rest)[..|a|] == a;
    BoundaryIffWholeChars(a + rest, |a|);
  }

  lemma AsciiFolds(a: string, b: string)
    requires Ascii(a) && Ascii(b) && |a| == |b|
    requires forall i | 0 <= i < |a| :: LowerAscii(a[i]) == LowerAscii(b[i])
    ensures EqIgnoreAsciiCase(Encode(a), Encode(b))
  {
    AsciiEncodesItself(a);
    AsciiEncodesItself(b);
  }

  /** Bytes that spell the prefix are its characters, one byte each: so a prefix that would split
      a character could not have matched, and the boundary test loses nothing. */
  lemma {:induction false} BytesMatchChars(s: string, prefix: string)
    requires Ascii(prefix) && |Encode(s)| >= |prefix|
    requires EqIgnoreAsciiCase(Encode(s)[..|prefix|], Encode(prefix))
    ensures StartsWithCi(s, prefix) && IsCharBoundary(Encode(s), |prefix|)
  {
    AsciiEncodesItself(prefix);
    if prefix != "" {
      assert LowerByte(Encode(s)[..|prefix|][0]) == LowerByte(Encode(prefix)[0]);
      assert Encode(s)[0] < 0x80;
      assert Encode(s) == [s[0] as int] + Encode(s[1..]);
      var head, tail := Encode(s)[..|prefix|], Encode(s[1..])[..|prefix| - 1];
      assert head[1..] == tail && Encode(prefix)[1..] == Encode(prefix[1..]);
      forall i | 0 <= i < |tail| ensures LowerByte(tail[i]) == LowerByte(Encode(prefix[1..])[i]) {
        assert LowerByte(head[i + 1]) == LowerByte(Encode(prefix)[i + 1]);
      }
      BytesMatchChars(s[1..], prefix[1..]);
      forall i | 0 <= i < |prefix| ensures LowerAscii(s[i]) == LowerAscii(prefix[i]) {
        if i > 0 { assert s[i] == s[1..][i - 1] && prefix[i] == prefix[1..][i - 1]; }
      }
      if 1 < |prefix| < |Encode(s)| {
        assert Encode(s)[|prefix|] == Encode(s[1..])[|prefix| - 1];
      }
    }
  }
}
