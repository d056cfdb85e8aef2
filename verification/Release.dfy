/** Release numbers: the only versions ever read, and which of two is the newer. */
module Release {
  import opened VaultCore
  import opened Chars
  import opened Decimals

  datatype Version = Version(major: nat, minor: nat, patch: nat)

  predicate InRange(v: Version) {
    v.major <= 9999 && v.minor <= 9999 && v.patch <= 9999
  }

  /** The canonical printing. */
  function Print(v: Version): string {
    Decimal(v.major) + "." + Decimal(v.minor) + "." + Decimal(v.patch)
  }

  /** A piece between dots that is taken as a number. */
  predicate Plain(part: string) {
    part != "" && |part| <= 4 && AllDigits(part) && (part == "0" || part[0] != '0')
  }

  function Parsed(text: string): Option<Version> {
    var parts := Split(text, '.');
    if |parts| == 3 && Plain(parts[0]) && Plain(parts[1]) && Plain(parts[2]) then
      Some(Version(Value(parts[0]), Value(parts[1]), Value(parts[2])))
    else None
  }

  /** The split iterator. */
  class Pieces {
    var rest: seq<string>

    constructor (text: string)
      ensures rest == Split(text, '.')
    {
      rest := Split(text, '.');
    }

    method Next() returns (part: Option<string>)
      modifies this
      ensures old(rest) == [] ==> part.None? && rest == []
      ensures old(rest) != [] ==> part == Some(old(rest)[0]) && rest == old(rest)[1..]
    {
      if rest == [] { return None; }
      part := Some(rest[0]);
      rest := rest[1..];
    }

    method NextNumber() returns (n: Option<nat>)
      modifies this
      ensures old(rest) == [] ==> n.None?
      ensures old(rest) != [] ==> rest == old(rest)[1..]
      ensures old(rest) != [] ==> n == if Plain(old(rest)[0]) then Some(Value(old(rest)[0])) else None
    {
      var part := Next();
      if part.None? { return None; }
      var p := part.value;
      if p == "" || |p| > 4 || !AllDigits(p) || !(p == "0" || p[0] != '0') { return None; }
      n := Some(Value(p));
    }
  }

  method ParseRelease(text: string) returns (v: Option<Version>)
    ensures v == Parsed(text)
  {
    var parts := new Pieces(text);
    ghost var all := parts.rest;
    var a := parts.NextNumber();
    if a.None? { return None; }
    var b := parts.NextNumber();
    if b.None? { return None; }
    var c := parts.NextNumber();
    if c.None? { return None; }
    assert all[1..][0] == all[1] && all[1..][1..][0] == all[2] && all[1..][1..][1..] == all[3..];
    var more := parts.Next();
    if more.Some? { return None; }
    v := Some(Version(a.value, b.value, c.value));
  }

  function IsNewer(latest: string, current: string): bool {
    match (Parsed(latest), Parsed(current))
    case (Some(l), Some(c)) =>
      if l.major != c.major then l.major > c.major else if l.minor != c.minor then l.minor > c.minor else l.patch > c.patch
    case _ => false
  }

  // ---- parsing and printing ----

  lemma SplitFirst(a: string, b: string, c: char)
    requires c !in a
    ensures Split(a + [c] + b, c) == [a] + Split(b, c)
  {
    FindFirst(a, c, b);
    assert (a + [c] + b)[..|a|] == a && (a + [c] + b)[|a| + 1..] == b;
  }

  lemma SplitThree(text: string)
    ensures var p := Split(text, '.');
      |p| == 3 ==> text == p[0] + "." + p[1] + "." + p[2]
  {
    var p := Split(text, '.');
    if |p| == 3 {
      var i := Find(text, '.');
      var rest := text[i + 1..];
      assert Split(rest, '.') == p[1..];
      var j := Find(rest, '.');
      assert Split(rest[j + 1..], '.') == p[1..][1..];
      assert rest == p[1] + "." + p[2];
      assert text == p[0] + "." + rest;
    }
  }

  lemma PlainIff(p: string)
    ensures Plain(p) <==> exists n: nat | n <= 9999 :: p == Decimal(n)
    ensures Plain(p) ==> Value(p) <= 9999 && p == Decimal(Value(p))
  {
    if Plain(p) {
      DecimalOfValue(p);
      LengthBounds(Value(p));
    }
    if n: nat :| n <= 9999 && p == Decimal(n) {
      DecimalIsProper(n);
      LengthBounds(n);
    }
  }

  lemma SplitPrinted(v: Version)
    ensures Split(Print(v), '.') == [Decimal(v.major), Decimal(v.minor), Decimal(v.patch)]
  {
    var a, b, c := Decimal(v.major), Decimal(v.minor), Decimal(v.patch);
    var rest := b + ['.'] + c;
    SplitFirst(b, c, '.');
    SplitFirst(a, rest, '.');
    PrintedParts(a, b, c);
  }

  lemma PrintedParts(a: string, b: string, c: string)
    ensures a + "." + b + "." + c == a + ['.'] + (b + ['.'] + c)
  {
  }

  /** A text is read as a version exactly when it is that version's canonical printing, with every
      part from 0 to 9999. */
  lemma ParsesExactlyPrintings(text: string, v: Version)
    ensures Parsed(text) == Some(v) <==> InRange(v) && text == Print(v)
  {
    if Parsed(text) == Some(v) { ParsedIsPrinted(text, v); }
    if InRange(v) && text == Print(v) { PrintedIsParsed(v); }
  }

  lemma ParsedIsPrinted(text: string, v: Version)
    requires Parsed(text) == Some(v)
    ensures InRange(v) && text == Print(v)
  {
    var p := Split(text, '.');
    PlainIff(p[0]);
    PlainIff(p[1]);
    PlainIff(p[2]);
    SplitThree(text);
  }

  lemma PrintedIsParsed(v: Version)
    requires InRange(v)
    ensures Parsed(Print(v)) == Some(v)
  {
    SplitPrinted(v);
    PlainIff(Decimal(v.major));
    PlainIff(Decimal(v.minor));
    PlainIff(Decimal(v.patch));
    ValueOfDecimal(v.major);
    ValueOfDecimal(v.minor);
    ValueOfDecimal(v.patch);
  }

  /** Of two versions the newer is the one that is greater read as one number, four digits a part. */
  lemma NewerIff(v: Version, w: Version)
    requires InRange(v) && InRange(w)
    ensures IsNewer(Print(v), Print(w))
      <==> v.major * 1_0000_0000 + v.minor * 1_0000 + v.patch > w.major * 1_0000_0000 + w.minor * 1_0000 + w.patch
  {
    PrintedIsParsed(v);
    PrintedIsParsed(w);
  }

  /** "Newer" is a strict order on the accepted texts, any two different ones compare, and nothing is
      newer than, or older than, a text that is not accepted. */
  lemma NewerIsStrictOrder(a: string, b: string, c: string)
    ensures !IsNewer(a, a)
    ensures IsNewer(a, b) ==> !IsNewer(b, a) && Parsed(a).Some? && Parsed(b).Some?
    ensures IsNewer(a, b) && IsNewer(b, c) ==> IsNewer(a, c)
    ensures Parsed(a).Some? && Parsed(b).Some? ==> a == b || IsNewer(a, b) || IsNewer(b, a)
  {
    if Parsed(a).Some? && Parsed(a) == Parsed(b) { ReadAlikeIsAlike(a, b); }
  }

  lemma ReadAlikeIsAlike(a: string, b: string)
    requires Parsed(a).Some? && Parsed(a) == Parsed(b)
    ensures a == b
  {
    ParsesExactlyPrintings(a, Parsed(a).value);
    ParsesExactlyPrintings(b, Parsed(b).value);
  }
}
