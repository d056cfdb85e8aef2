/** Instants as the text they are stored as (RFC 3339, section 5.6), and why comparing those texts
    compares the instants: what the `since` filter relies on. */
module Rfc3339 {
  import opened Chars
  import opened Decimals

  /** A UTC instant by its fields, the fraction in three groups of three decimals. Leap seconds and
      years past 9999 are left out. */
  datatype Stamp = Stamp(
    year: nat, month: nat, day: nat, hour: nat, minute: nat, second: nat, milli: nat, micro: nat, nano: nat)
  {
    predicate Valid() {
      && year <= 9999 && month <= 99 && day <= 99 && hour <= 99 && minute <= 99 && second <= 99
      && milli <= 999 && micro <= 999 && nano <= 999
    }

    /** Earlier than another. */
    predicate Before(other: Stamp) {
      if year != other.year then year < other.year
      else if month != other.month then month < other.month
      else if day != other.day then day < other.day
      else if hour != other.hour then hour < other.hour
      else if minute != other.minute then minute < other.minute
      else if second != other.second then second < other.second
      else FractionBefore(other)
    }

    predicate FractionBefore(other: Stamp) {
      if milli != other.milli then milli < other.milli
      else if micro != other.micro then micro < other.micro
      else nano < other.nano
    }
  }

  /** `n` in exactly `w` digits. */
  function Fixed(n: nat, w: nat): (r: string)
    ensures |r| == w && AllDigits(r)
  {
    if w == 0 then "" else Fixed(n / 10, w - 1) + [DigitOf(n % 10)]
  }

  const ZONE := "+00:00"

  /** The decimals are the shortest of none, three, six or nine that lose nothing. */
  function NanoText(s: Stamp): string {
    if s.nano == 0 then ZONE else Fixed(s.nano, 3) + ZONE
  }

  function MicroText(s: Stamp): string {
    if s.micro == 0 && s.nano == 0 then ZONE else Fixed(s.micro, 3) + NanoText(s)
  }

  function FractionText(s: Stamp): string {
    if s.milli == 0 && s.micro == 0 && s.nano == 0 then ZONE else "." + (Fixed(s.milli, 3) + MicroText(s))
  }

  function SecondText(s: Stamp): string { Fixed(s.second, 2) + FractionText(s) }
  function MinuteText(s: Stamp): string { Fixed(s.minute, 2) + (":" + SecondText(s)) }
  function HourText(s: Stamp): string { Fixed(s.hour, 2) + (":" + MinuteText(s)) }
  function DayText(s: Stamp): string { Fixed(s.day, 2) + ("T" + HourText(s)) }
  function MonthText(s: Stamp): string { Fixed(s.month, 2) + ("-" + DayText(s)) }

  /** The stored text: date, `T`, time, decimals, and the zero offset. */
  function Print(s: Stamp): string { Fixed(s.year, 4) + ("-" + MonthText(s)) }

  // ---- order ----

  /** What follows two different heads of one length does not matter. */
  lemma {:induction false} HeadDecides(a: string, b: string, x: string, y: string)
    requires |a| == |b| && a != b
    ensures Precedes(a + x, b + y) <==> Precedes(a, b)
    decreases |a|
  {
    assert a == [a[0]] + a[1..] && b == [b[0]] + b[1..];
    assert (a + x)[1..] == a[1..] + x && (b + y)[1..] == b[1..] + y;
    if a[0] == b[0] { HeadDecides(a[1..], b[1..], x, y); }
  }

  lemma {:induction false} SameHead(a: string, x: string, y: string)
    ensures Precedes(a + x, a + y) <==> Precedes(x, y)
    decreases |a|
  {
    if a == "" {
      assert a + x == x && a + y == y;
    } else {
      assert (a + x)[1..] == a[1..] + x && (a + y)[1..] == a[1..] + y;
      SameHead(a[1..], x, y);
    }
  }

  function Ten(w: nat): nat {
    if w == 0 then 1 else 10 * Ten(w - 1)
  }

  /** Numbers of one width are ordered as their numerals are. */
  lemma {:induction false} FixedOrder(m: nat, n: nat, w: nat)
    requires m < Ten(w) && n < Ten(w)
    ensures Fixed(m, w) == Fixed(n, w) <==> m == n
    ensures Precedes(Fixed(m, w), Fixed(n, w)) <==> m < n
  {
    if w > 0 {
      var a, b := Fixed(m / 10, w - 1), Fixed(n / 10, w - 1);
      var c, d := [DigitOf(m % 10)], [DigitOf(n % 10)];
      FixedOrder(m / 10, n / 10, w - 1);
      if m / 10 == n / 10 {
        SameHead(a, c, d);
        assert Fixed(m, w)[w - 1] == c[0] && Fixed(n, w)[w - 1] == d[0];
      } else {
        HeadDecides(a, b, c, d);
        assert Fixed(m, w)[..w - 1] == a && Fixed(n, w)[..w - 1] == b;
      }
    }
  }

  /** A field of one width, then the rest: the field decides unless it is the same. */
  lemma FieldOrder(m: nat, n: nat, w: nat, x: string, y: string)
    requires m < Ten(w) && n < Ten(w)
    ensures Precedes(Fixed(m, w) + x, Fixed(n, w) + y) <==> if m == n then Precedes(x, y) else m < n
  {
    FixedOrder(m, n, w);
    if m == n { SameHead(Fixed(m, w), x, y); } else { HeadDecides(Fixed(m, w), Fixed(n, w), x, y); }
  }

  lemma NanoOrder(s: Stamp, t: Stamp)
    requires s.Valid() && t.Valid()
    ensures Precedes(NanoText(s), NanoText(t)) <==> s.nano < t.nano
  {
    FieldOrder(s.nano, t.nano, 3, ZONE, ZONE);
  }

  lemma MicroOrder(s: Stamp, t: Stamp)
    requires s.Valid() && t.Valid()
    ensures Precedes(MicroText(s), MicroText(t)) <==> if s.micro != t.micro then s.micro < t.micro else s.nano < t.nano
  {
    FieldOrder(s.micro, t.micro, 3, NanoText(s), NanoText(t));
    NanoOrder(s, t);
  }

  lemma FractionOrder(s: Stamp, t: Stamp)
    requires s.Valid() && t.Valid()
    ensures Precedes(FractionText(s), FractionText(t)) <==> s.FractionBefore(t)
  {
    var x, y := Fixed(s.milli, 3) + MicroText(s), Fixed(t.milli, 3) + MicroText(t);
    SameHead(".", x, y);
    FieldOrder(s.milli, t.milli, 3, MicroText(s), MicroText(t));
    MicroOrder(s, t);
  }

  /** Comparing the stored texts compares the instants: for any two, the text of one sorts first
      exactly when it is the earlier. */
  lemma TextOrderIsTimeOrder(s: Stamp, t: Stamp)
    requires s.Valid() && t.Valid()
    ensures Precedes(Print(s), Print(t)) <==> s.Before(t)
  {
    FieldOrder(s.year, t.year, 4, "-" + MonthText(s), "-" + MonthText(t));
    SameHead("-", MonthText(s), MonthText(t));
    FieldOrder(s.month, t.month, 2, "-" + DayText(s), "-" + DayText(t));
    SameHead("-", DayText(s), DayText(t));
    FieldOrder(s.day, t.day, 2, "T" + HourText(s), "T" + HourText(t));
    SameHead("T", HourText(s), HourText(t));
    FieldOrder(s.hour, t.hour, 2, ":" + MinuteText(s), ":" + MinuteText(t));
    SameHead(":", MinuteText(s), MinuteText(t));
    FieldOrder(s.minute, t.minute, 2, ":" + SecondText(s), ":" + SecondText(t));
    SameHead(":", SecondText(s), SecondText(t));
    FieldOrder(s.second, t.second, 2, FractionText(s), FractionText(t));
    FractionOrder(s, t);
  }
}
