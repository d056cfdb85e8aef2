/** The fingerprint that tells whether a fact was enriched for the wording it has: what it is, and which
    rewordings it is certain to notice. */
module Fingerprints {
  import opened Utf8
  import opened VaultCore
  import opened EmbedText

  // ---- one byte ----

  function Two(bits: nat): nat {
    if bits == 0 then 1 else 2 * Two(bits - 1)
  }

  lemma ParityTells(a: nat, b: nat, x: nat)
    ensures (a + x) % 2 == (b + x) % 2 <==> a % 2 == b % 2
  {
  }

  lemma HalvesTell(a: nat, b: nat)
    ensures a == b <==> a / 2 == b / 2 && a % 2 == b % 2
  {
  }

  lemma {:induction false} XorTells(a: nat, b: nat, x: nat, bits: nat)
    requires a < Two(bits) && b < Two(bits) && x < Two(bits)
    ensures Xor(a, x, bits) < Two(bits)
    ensures Xor(a, x, bits) == Xor(b, x, bits) <==> a == b
    decreases bits
  {
    if bits > 0 {
      XorTells(a / 2, b / 2, x / 2, bits - 1);
      ParityTells(a, b, x);
      HalvesTell(a, b);
      HalvesTell(Xor(a, x, bits), Xor(b, x, bits));
    }
  }

  lemma {:induction false} XorSwaps(a: nat, b: nat, bits: nat)
    ensures Xor(a, b, bits) == Xor(b, a, bits)
    decreases bits
  {
    if bits > 0 { XorSwaps(a / 2, b / 2, bits - 1); }
  }

  lemma EightBits()
    ensures Two(8) == 256
  {
    assert Two(2) == 4 && Two(4) == 16 && Two(6) == 64;
  }

  lemma ByteXorTells(a: Byte, b: Byte, x: Byte)
    ensures Xor(a, x, 8) < 256
    ensures Xor(a, x, 8) == Xor(b, x, 8) <==> a == b
    ensures Xor(x, a, 8) == Xor(x, b, 8) <==> a == b
  {
    EightBits();
    XorTells(a, b, x, 8);
    XorSwaps(a, x, 8);
    XorSwaps(b, x, 8);
  }

  // ---- one step ----

  /** The multiplier is odd, so multiplying by it can be undone. */
  const INVERSE: nat := 0xce96_5057_aff6_957b
  const EXCESS: nat := FNV_PRIME * INVERSE / WORD

  lemma InverseIs()
    ensures FNV_PRIME * INVERSE == EXCESS * WORD + 1
  {
  }

  lemma SmallMultiple(d: nat, k: int)
    requires d < WORD && d == k * WORD
    ensures d == 0
  {
  }

  lemma MultiplyInjective(a: nat, b: nat)
    requires a < WORD && b < WORD && a * FNV_PRIME % WORD == b * FNV_PRIME % WORD
    ensures a == b
  {
    if a < b { MultiplyTells(b, a); } else { MultiplyTells(a, b); }
  }

  lemma MultiplyTells(a: nat, b: nat)
    requires b <= a < WORD && a * FNV_PRIME % WORD == b * FNV_PRIME % WORD
    ensures a == b
  {
    var d := a - b;
    var k := a * FNV_PRIME / WORD - b * FNV_PRIME / WORD;
    assert d * FNV_PRIME == k * WORD;
    InverseIs();
    var p, i, e, w := FNV_PRIME, INVERSE, EXCESS, WORD;
    assert d * (p * i) == d * p * i == k * w * i;
    assert d * (p * i) == d * (e * w + 1) == (d * e) * w + d;
    assert (k * i) * w == k * w * i;
    assert d == (k * i - d * e) * w;
    SmallMultiple(d, k * i - d * e);
  }

  function Mixed(h: nat, x: Byte): nat {
    h / 256 * 256 + Xor(h % 256, x, 8)
  }

  lemma Placed(q: nat, x: nat)
    requires x < 256 && q < WORD / 256
    ensures q * 256 + x < WORD && (q * 256 + x) / 256 == q && (q * 256 + x) % 256 == x
  {
  }

  lemma MixedParts(h: nat, x: Byte)
    requires h < WORD
    ensures Mixed(h, x) < WORD && Mixed(h, x) / 256 == h / 256 && Mixed(h, x) % 256 == Xor(h % 256, x, 8)
  {
    ByteXorTells(h % 256, 0, x);
    Placed(h / 256, Xor(h % 256, x, 8));
  }

  lemma BytesTell(a: nat, b: nat)
    ensures a == b <==> a / 256 == b / 256 && a % 256 == b % 256
  {
  }

  lemma MixedTells(a: nat, b: nat, x: Byte, y: Byte)
    requires a < WORD && b < WORD
    ensures Mixed(a, x) == Mixed(b, x) <==> a == b
    ensures Mixed(a, x) == Mixed(a, y) <==> x == y
  {
    MixedParts(a, x);
    MixedParts(b, x);
    MixedParts(a, y);
    ByteXorTells(a % 256, b % 256, x);
    ByteXorTells(x, y, a % 256);
    BytesTell(a, b);
    BytesTell(Mixed(a, x), Mixed(b, x));
    BytesTell(Mixed(a, x), Mixed(a, y));
  }

  /** Two hashes stay apart when the same byte comes in, and one hash goes two ways for two bytes. */
  lemma StepTells(a: nat, b: nat, x: Byte, y: Byte)
    requires a < WORD && b < WORD
    ensures FnvStep(a, x) == FnvStep(b, x) <==> a == b
    ensures FnvStep(a, x) == FnvStep(a, y) <==> x == y
  {
    MixedTells(a, b, x, y);
    MixedParts(a, x);
    MixedParts(b, x);
    MixedParts(a, y);
    assert FnvStep(a, x) == Mixed(a, x) * FNV_PRIME % WORD;
    assert FnvStep(b, x) == Mixed(b, x) * FNV_PRIME % WORD;
    assert FnvStep(a, y) == Mixed(a, y) * FNV_PRIME % WORD;
    if FnvStep(a, x) == FnvStep(b, x) { MultiplyInjective(Mixed(a, x), Mixed(b, x)); }
    if FnvStep(a, x) == FnvStep(a, y) { MultiplyInjective(Mixed(a, x), Mixed(a, y)); }
  }

  lemma {:induction false} FnvTells(bs: seq<Byte>, a: nat, b: nat)
    requires a < WORD && b < WORD
    ensures Fnv(bs, a) == Fnv(bs, b) <==> a == b
    ensures Fnv(bs, a) < WORD
    decreases |bs|
  {
    if bs != [] {
      StepTells(a, b, bs[0], bs[0]);
      FnvTells(bs[1..], FnvStep(a, bs[0]), FnvStep(b, bs[0]));
    }
  }

  lemma {:induction false} FnvConcat(a: seq<Byte>, b: seq<Byte>, h: nat)
    ensures Fnv(a + b, h) == Fnv(b, Fnv(a, h))
    decreases |a|
  {
    if a == [] {
      assert a + b == b;
    } else {
      FnvConcat(a[1..], b, FnvStep(h, a[0]));
      assert (a + b)[1..] == a[1..] + b;
    }
  }

  /** Texts that differ in one byte, with the same bytes before it and after it, never have the same
      fingerprint. */
  lemma OneByteShows(s: string, t: string, front: seq<Byte>, x: Byte, y: Byte, back: seq<Byte>)
    requires Encode(s) == front + [x] + back && Encode(t) == front + [y] + back && x != y
    ensures ContentFingerprint(s) != ContentFingerprint(t)
  {
    var h := Fnv(front, FNV_OFFSET);
    FnvTells(front, FNV_OFFSET, FNV_OFFSET);
    FnvConcat(front + [x], back, FNV_OFFSET);
    FnvConcat(front, [x], FNV_OFFSET);
    FnvConcat(front + [y], back, FNV_OFFSET);
    FnvConcat(front, [y], FNV_OFFSET);
    assert Fnv([x], h) == FnvStep(h, x) && Fnv([y], h) == FnvStep(h, y) by { assert [x][1..] == [] && [y][1..] == []; }
    StepTells(h, h, x, y);
    FnvTells(back, FnvStep(h, x), FnvStep(h, y));
  }

  /** So an enriched fact reworded by one byte no longer counts as enriched, and the next pass takes it up. */
  lemma RewordedIsNotEnriched(m: Memory, t: string, front: seq<Byte>, x: Byte, y: Byte, back: seq<Byte>)
    requires EnrichedForCurrentContent(m)
    requires Encode(m.content) == front + [x] + back && Encode(t) == front + [y] + back && x != y
    ensures !EnrichedForCurrentContent(m.(content := t))
  {
    OneByteShows(m.content, t, front, x, y, back);
  }

  /** The published values of the 64-bit hash for no text and for "a". */
  lemma KnownValues()
    ensures ContentFingerprint("") == 0xcbf2_9ce4_8422_2325
    ensures ContentFingerprint("a") == 0xaf63_dc4c_8601_ec8c
  {
    assert Encode("") == [];
    assert "a"[1..] == "" && Encode("a") == [97];
    StepOfKnown();
    assert [97 as Byte][1..] == [];
  }

  lemma StepOfKnown()
    ensures FnvStep(FNV_OFFSET, 97) == 0xaf63_dc4c_8601_ec8c
  {
    XorOfKnown();
    assert FNV_OFFSET % 256 == 0x25;
  }

  lemma XorOfKnown()
    ensures Xor(0x25, 97, 8) == 0x44
  {
    assert Xor(0, 0, 0) == 0;
    assert Xor(0, 0, 1) == 0;
    assert Xor(0, 1, 2) == 1;
    assert Xor(1, 3, 3) == 2;
    assert Xor(2, 6, 4) == 4;
    assert Xor(4, 12, 5) == 8;
    assert Xor(9, 24, 6) == 17;
    assert Xor(18, 48, 7) == 34;
  }
}
