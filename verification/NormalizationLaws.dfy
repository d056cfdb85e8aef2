/** The normaliser as a rewriting system: what every result looks like, which texts it leaves alone,
    and why repeating it always comes to rest although once is not always enough. */
module NormalizationLaws {
  import opened VaultCore
  import opened Chars
  import opened Utf8
  import opened Normalization

  /** Not empty, and no white space at the end. */
  predicate Closed(s: string) {
    s != "" && !IsSpace(s[|s| - 1])
  }

  /** Some pass would strip or rewrite the start of `s`. */
  predicate Strippable(s: string) {
    StartsWithAny(s, WHEN_ASKED) || StartsWithAny(s, TOLD) || StartsWithAny(s, SELF) || StartsWithAny(s, FIRST)
  }

  /** `r` is what is left of `s`, or `s` itself: still closed, with the same last character. */
  predicate Tail(s: string, r: string) {
    s != "" && Closed(r) && r[|r| - 1] == s[|s| - 1]
  }

  lemma TrimFacts(x: string)
    ensures var t := Trim(x);
      && |t| <= |x|
      && (t != "" ==> Closed(t) && !IsSpace(t[0]))
      && (x != "" && IsSpace(x[0]) ==> |t| < |x|)
  {
    var u := TrimStart(x);
    TrimEndIsPrefix(u);
  }

  lemma TrimmedAlready(x: string)
    requires x != "" && !IsSpace(x[0]) && !IsSpace(x[|x| - 1])
    ensures Trim(x) == x
  {
  }

  lemma DropThatKeeps(s: string)
    requires Closed(s)
    ensures Tail(s, DropThat(s)) && |DropThat(s)| <= |s|
  {
  }

  lemma FramingLaw(s: string)
    requires Closed(s)
    ensures var r := StripConversationFraming(s);
      Tail(s, r) && (if StartsWithAny(s, WHEN_ASKED) || StartsWithAny(s, TOLD) then |r| <= |s| - 5 else r == s)
  {
    if StartsWithAny(s, WHEN_ASKED) {
      assert |WHEN_ASKED[Match(s, WHEN_ASKED)]| >= 5;
    } else if StartsWithAny(s, TOLD) {
      ToldLaw(s);
    }
  }

  lemma ToldLaw(s: string)
    requires Closed(s) && StartsWithAny(s, TOLD)
    ensures var rest := DropThat(s[|TOLD[Match(s, TOLD)]|..]);
      Tail(s, "The user " + rest) && |"The user " + rest| <= |s| - 5
  {
    DropThatKeeps(s[|TOLD[Match(s, TOLD)]|..]);
  }

  lemma SelfLaw(s: string)
    requires Closed(s)
    ensures var r := StripAgentSelfReference(s);
      Tail(s, r) && (if StartsWithAny(s, SELF) then |r| <= |s| - 8 else r == s)
  {
    var k := Match(s, SELF);
    if k < |SELF| {
      DropThatKeeps(s[|SELF[k]|..]);
    }
  }

  /** Starts as a first-person statement does once it is rewritten. */
  predicate Rewritten(s: string) {
    exists k | 0 <= k < |THIRD| :: THIRD[k] <= s
  }

  lemma FirstLaw(s: string)
    requires Closed(s)
    ensures var r := RewriteFirstPerson(s);
      Tail(s, r) && (if StartsWithAny(s, FIRST) then Rewritten(r) else r == s)
  {
  }

  /** The middle three passes together. */
  function Stripped(t: string): string {
    RewriteFirstPerson(StripAgentSelfReference(StripConversationFraming(t)))
  }

  /** They rewrite, shorten, or do nothing; nothing exactly when there is nothing to strip. */
  lemma StrippedLaw(t: string)
    requires Closed(t)
    ensures Tail(t, Stripped(t))
    ensures Rewritten(Stripped(t)) || |Stripped(t)| <= |t| - 5 || Stripped(t) == t
    ensures Strippable(t) ==> Rewritten(Stripped(t)) || |Stripped(t)| <= |t| - 5
    ensures !Strippable(t) ==> Stripped(t) == t
  {
    var a := StripConversationFraming(t);
    FramingLaw(t);
    var b := StripAgentSelfReference(a);
    SelfLaw(a);
    FirstLaw(b);
  }

  lemma FinishLaw(s: string)
    requires Closed(s)
    ensures var r := EnsureTerminal(CapitalizeFirst(s));
      && EndsTerminal(r) && !IsLower(r[0]) && |s| <= |r| <= |s| + 1
      && (IsSpace(r[0]) <==> IsSpace(s[0]))
      && (EndsTerminal(s) ==> |r| == |s|)
      && (EndsTerminal(s) && !IsLower(s[0]) ==> r == s)
  {
  }

  // ---- every result ----

  /** Whatever is accepted is saved as a text that is not empty and ends in `.`, `!` or `?`, so with
      no white space at the end; only white space is refused. */
  lemma ShapeAlwaysCanonical(x: string)
    ensures Normalize(x).Some? <==> Trim(x) != ""
    ensures Normalize(x).Some? ==> EndsTerminal(Normalize(x).value) && !IsLower(Normalize(x).value[0])
    ensures Normalize(x).Some? ==> Closed(Normalize(x).value)
  {
    TrimFacts(x);
    if Trim(x) != "" {
      StrippedLaw(Trim(x));
      FinishLaw(Stripped(Trim(x)));
    }
  }

  // ---- fixed points ----

  /** A text the normaliser would return unchanged. */
  predicate Canonical(s: string) {
    s != "" && !IsSpace(s[0]) && !IsLower(s[0]) && EndsTerminal(s) && !Strippable(s)
  }

  lemma RewrittenFinish(s: string)
    requires Rewritten(s)
    ensures Rewritten(EnsureTerminal(CapitalizeFirst(s)))
  {
  }

  lemma NotStrippable(s: string)
    requires Rewritten(s)
    ensures !Strippable(s) && s != "" && s[0] == 'T'
  {
    var k :| 0 <= k < |THIRD| && THIRD[k] <= s;
    assert s[0] == THIRD[k][0] && s[9] == THIRD[k][9];
    forall j | 0 <= j < |WHEN_ASKED| ensures !StartsWithCi(s, WHEN_ASKED[j]) {
      assert LowerAscii(s[0]) != LowerAscii(WHEN_ASKED[j][0]);
    }
    forall j | 0 <= j < |TOLD| ensures !StartsWithCi(s, TOLD[j]) {
      assert LowerAscii(s[9]) != LowerAscii(TOLD[j][9]);
    }
    forall j | 0 <= j < |SELF| ensures !StartsWithCi(s, SELF[j]) {
      assert LowerAscii(s[0]) != LowerAscii(SELF[j][0]);
    }
    forall j | 0 <= j < |FIRST| ensures !StartsWithCi(s, FIRST[j]) {
      assert LowerAscii(s[0]) != LowerAscii(FIRST[j][0]);
    }
  }

  lemma CanonicalIsFixed(s: string)
    requires Canonical(s)
    ensures Normalize(s) == Some(s)
  {
    TrimmedAlready(s);
    StrippedLaw(s);
    FinishLaw(s);
  }

  /** What a pass does to a text that is not canonical: it lands on a rewritten form, or changes
      something that a canonical text has right. */
  lemma PassesMove(t: string)
    requires Closed(t) && !IsSpace(t[0])
    ensures Rewritten(Passes(t)) || |Passes(t)| <= |t| - 4 || (!Strippable(t) && Passes(t) == EnsureTerminal(CapitalizeFirst(t)))
    ensures EndsTerminal(t) ==> Rewritten(Passes(t)) || |Passes(t)| <= |t| - 5 || (!Strippable(t) && Passes(t) == CapitalizeFirst(t))
  {
    StrippedLaw(t);
    FinishLaw(Stripped(t));
    if Rewritten(Stripped(t)) { RewrittenFinish(Stripped(t)); }
  }

  /** A fixed text is its own trimmed text: with white space in front, what comes out is too short,
      or starts with a letter. */
  lemma FixedIsTrimmed(s: string)
    requires Normalize(s) == Some(s)
    ensures EndsTerminal(s) && !IsLower(s[0]) && !IsSpace(s[0])
  {
    ShapeAlwaysCanonical(s);
    if IsSpace(s[0]) {
      var t := Trim(s);
      TrimFacts(s);
      PassesMove(t);
      if Rewritten(s) { NotStrippable(s); } else { FinishLaw(t); }
    }
  }

  lemma FixedIsNotStrippable(s: string)
    requires Normalize(s) == Some(s) && EndsTerminal(s) && !IsSpace(s[0])
    ensures !Strippable(s)
  {
    TrimmedAlready(s);
    PassesMove(s);
    if Rewritten(s) { NotStrippable(s); }
  }

  /** Exactly the canonical texts are left alone. */
  lemma FixedIffCanonical(s: string)
    ensures Normalize(s) == Some(s) <==> Canonical(s)
  {
    if Canonical(s) { CanonicalIsFixed(s); }
    if Normalize(s) == Some(s) {
      FixedIsTrimmed(s);
      FixedIsNotStrippable(s);
    }
  }

  /** A rewritten statement is final. */
  lemma RewrittenIsFixed(s: string)
    requires Rewritten(s) && EndsTerminal(s)
    ensures Normalize(s) == Some(s)
  {
    NotStrippable(s);
    CanonicalIsFixed(s);
  }

  // ---- doing it again ----

  /** Once is enough exactly when the result begins with neither white space nor something to strip. */
  lemma OnceIsEnoughIff(x: string)
    ensures match Normalize(x)
      case None => true
      case Some(s) => Normalize(s) == Some(s) <==> !IsSpace(s[0]) && !Strippable(s)
  {
    ShapeAlwaysCanonical(x);
    match Normalize(x)
    case None =>
    case Some(s) => FixedIffCanonical(s);
  }

  /** Normalising a saved text again leaves it, shortens it, or lands on a rewritten statement, which
      is final. */
  lemma AgainShortensOrSettles(x: string)
    ensures match Normalize(x)
      case None => true
      case Some(s) =>
        match Normalize(s)
        case None => false
        case Some(again) => again == s || |again| < |s| || (Rewritten(again) && Normalize(again) == Some(again))
  {
    ShapeAlwaysCanonical(x);
    match Normalize(x)
    case None =>
    case Some(s) => SavedAgain(s);
  }

  lemma SavedAgain(s: string)
    requires EndsTerminal(s) && !IsLower(s[0])
    ensures Normalize(s).Some?
    ensures var again := Normalize(s).value;
      && EndsTerminal(again) && !IsLower(again[0])
      && (again == s || |again| < |s| || (Rewritten(again) && Normalize(again) == Some(again)))
  {
    var u, t := TrimStart(s), Trim(s);
    TrimStartParts(s);
    assert u != "" by {
      if u == "" {
        assert s[..|s|] == s;
        LastIsSpace(s);
      }
    }
    assert u[|u| - 1] == s[|s| - 1];
    assert t == u;
    ShapeAlwaysCanonical(s);
    PassesMove(t);
    if Rewritten(Passes(t)) { RewrittenIsFixed(Passes(t)); }
    if !IsSpace(s[0]) { TrimmedAlready(s); } else { TrimFacts(s); }
  }

  lemma {:induction false} LastIsSpace(s: string)
    requires AllSpace(s) && s != ""
    ensures IsSpace(s[|s| - 1])
    decreases |s|
  {
    if |s| > 1 { LastIsSpace(s[1..]); }
  }

  /** Normalising over and over. */
  function Repeated(x: string, n: nat): Option<string> {
    if n == 0 then Some(x)
    else match Repeated(x, n - 1)
      case None => None
      case Some(s) => Normalize(s)
  }

  /** Every accepted text comes to rest: some number of repetitions, at most two more than the first
      result is long, reaches a text that normalising leaves alone. */
  lemma RepeatingComesToRest(x: string)
    ensures match Normalize(x)
      case None => true
      case Some(first) => exists n: nat | 1 <= n <= |first| + 2 :: Rests(x, n)
  {
    ShapeAlwaysCanonical(x);
    match Normalize(x)
    case None =>
    case Some(first) =>
      assert Repeated(x, 0) == Some(x) && Repeated(x, 1) == Some(first);
      var n := SettleFrom(x, 1, first);
      assert Rests(x, n);
  }

  /** After `n` times there is nothing left to do. */
  predicate Rests(x: string, n: nat) {
    match Repeated(x, n)
    case None => false
    case Some(s) => Normalize(s) == Some(s)
  }

  lemma {:induction false} SettleFrom(x: string, k: nat, s: string) returns (n: nat)
    requires Repeated(x, k) == Some(s) && EndsTerminal(s) && !IsLower(s[0])
    ensures k <= n <= k + |s| + 1 && Rests(x, n)
    decreases |s|
  {
    if Normalize(s) == Some(s) { return k; }
    SavedAgain(s);
    var again := Normalize(s).value;
    assert Repeated(x, k + 1) == Some(again);
    if Normalize(again) == Some(again) { return k + 1; }
    n := SettleFrom(x, k + 1, again);
  }

  // ---- once is not always enough ----

  lemma NotWhen(s: string)
    requires s != "" && LowerAscii(s[0]) != 'w'
    ensures Match(s, WHEN_ASKED) == |WHEN_ASKED|
  {
  }

  lemma NotTold(s: string)
    requires s != "" && LowerAscii(s[0]) != 't'
    ensures Match(s, TOLD) == |TOLD|
  {
  }

  lemma NotFirst(s: string, at: nat)
    requires at < |s| && ((at == 0 && LowerAscii(s[0]) != 'i') || (at == 2 && LowerAscii(s[2]) == 't'))
    ensures Match(s, FIRST) == |FIRST|
  {
  }

  lemma PassByPass(x: string, a: string, b: string)
    requires x != "" && !IsSpace(x[0]) && !IsSpace(x[|x| - 1])
    requires StripConversationFraming(x) == a && StripAgentSelfReference(a) == b && Match(b, FIRST) == |FIRST|
    requires b != "" && !IsLower(b[0]) && !Terminal(b[|b| - 1])
    ensures Normalize(x) == Some(b + ".")
  {
    TrimmedAlready(x);
  }

  lemma OneLayerOff(s: string)
    requires s == "I think I think x" || s == "I think x."
    ensures StripConversationFraming(s) == s
    ensures StripAgentSelfReference(s) == s[8..]
  {
    NotWhen(s);
    NotTold(s);
    assert LowerAscii(s[8]) != 't';
  }

  lemma OuterLayer(x: string, s: string)
    requires x == "I think I think x" && s == x[8..]
    ensures Normalize(x) == Some(s + ".")
  {
    OneLayerOff(x);
    assert s[0] == 'I' && s[2] == 't' && |s| == 9 && s[8] == 'x';
    NotFirst(s, 2);
    PassByPass(x, x, s);
  }

  lemma InnerLayer(once: string)
    requires once == "I think x."
    ensures Normalize(once) != Some(once)
  {
    OneLayerOff(once);
    assert |once| == 10 && once[9] == '.';
    Unfinished(once);
  }

  lemma LayerLeft(x: string, once: string)
    requires x == "I think I think x" && once == "I think x."
    ensures x[8..] + "." == once
  {
  }

  /** A doubled framing is peeled one layer at a time. */
  lemma DoubledFramingNeedsTwo(x: string, once: string)
    requires x == "I think I think x" && once == "I think x."
    ensures Normalize(x) == Some(once) && Normalize(once) != Some(once)
  {
    OuterLayer(x, x[8..]);
    LayerLeft(x, once);
    InnerLayer(once);
  }

  /** A text some pass would strip is not fixed. */
  lemma Unfinished(s: string)
    requires StripAgentSelfReference(s) != s && Closed(s)
    ensures Normalize(s) != Some(s)
  {
    SelfLaw(s);
    FixedIffCanonical(s);
  }

  lemma AskedOff(x: string, rest: string)
    requires x == "When asked,  x" && rest == " x"
    ensures StripConversationFraming(x) == rest
  {
    assert LowerAscii(x[5]) != LowerAscii(WHEN_ASKED[0][5]) && LowerAscii(x[5]) != LowerAscii(WHEN_ASKED[1][5]);
    assert x[|WHEN_ASKED[2]|..] == rest;
  }

  /** An extra space after a stripped prefix is left for next time. */
  lemma ExtraSpaceNeedsTwo(x: string, once: string)
    requires x == "When asked,  x" && once == " x."
    ensures Normalize(x) == Some(once) && Normalize(once) != Some(once)
  {
    var s := once[..2];
    assert s == " x" && s + "." == once;
    AskedOff(x, s);
    NotFirst(s, 0);
    PassByPass(x, s, s);
    FixedIffCanonical(once);
  }
}
