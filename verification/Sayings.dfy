/** What the normaliser saves, told from the words of the text itself: what is taken off the front, and
    which statement a first-person text becomes. */
module Sayings {
  import opened VaultCore
  import opened Chars
  import opened Utf8
  import opened Normalization
  import opened NormalizationLaws

  /** Two prefixes that no text can begin with both of. */
  predicate Apart(p: string, q: string, i: nat) {
    i < |p| && i < |q| && LowerAscii(p[i]) != LowerAscii(q[i])
  }

  lemma ApartExcludes(s: string, p: string, q: string, i: nat)
    requires StartsWithCi(s, p) && Apart(p, q, i)
    ensures !StartsWithCi(s, q)
  {
  }

  lemma MatchIs(s: string, prefixes: seq<string>, k: nat)
    requires k < |prefixes| && StartsWithCi(s, prefixes[k]) && forall i | 0 <= i < k :: !StartsWithCi(s, prefixes[i])
    ensures Match(s, prefixes) == k
  {
  }

  // ---- pass by pass ----

  predicate Asker(who: string) {
    who == "" || who == "the user was "
  }

  predicate Comma(comma: string) {
    comma == "" || comma == ","
  }

  function AskedIndex(who: string, comma: string): (k: nat)
    requires Asker(who) && Comma(comma)
    ensures k < |WHEN_ASKED| && WHEN_ASKED[k] == "When " + who + "asked" + comma + " "
  {
    if who == "" then (if comma == "" then 3 else 2) else if comma == "" then 1 else 0
  }

  lemma AskedApart(k: nat, i: nat) returns (at: nat)
    requires k < |WHEN_ASKED| && i < k
    ensures Apart(WHEN_ASKED[k], WHEN_ASKED[i], at)
  {
    at := if k == 1 then 23 else if k == 3 && i == 2 then 10 else 5;
  }

  /** "When [the user was] asked[,] ..." leaves what follows. */
  lemma AskedLeaves(s: string, who: string, comma: string)
    requires Asker(who) && Comma(comma) && StartsWithCi(s, "When " + who + "asked" + comma + " ")
    ensures StripConversationFraming(s) == s[|"When " + who + "asked" + comma + " "|..]
  {
    var k := AskedIndex(who, comma);
    forall i | 0 <= i < k ensures !StartsWithCi(s, WHEN_ASKED[i]) {
      var at := AskedApart(k, i);
      ApartExcludes(s, WHEN_ASKED[k], WHEN_ASKED[i], at);
    }
    MatchIs(s, WHEN_ASKED, k);
  }

  predicate ToldVerb(verb: string) {
    verb == "told me" || verb == "said" || verb == "mentioned" || verb == "stated"
  }

  predicate ThoughtVerb(verb: string) {
    verb == "think" || verb == "believe" || verb == "learned" || verb == "noticed" || verb == "observed"
  }

  predicate WishVerb(verb: string) {
    verb == "prefer" || verb == "like" || verb == "love" || verb == "hate" || verb == "use" || verb == "want" || verb == "need"
  }

  /** A text without a "that " it begins with. */
  function ThatOff(s: string): string {
    if |s| >= 5 && LowerAscii(s[0]) == 't' && LowerAscii(s[1]) == 'h' && LowerAscii(s[2]) == 'a' && LowerAscii(s[3]) == 't' && s[4] == ' '
    then s[5..] else s
  }

  lemma DropThatIs(s: string)
    ensures DropThat(s) == ThatOff(s)
  {
    assert LowerAscii(' ') == ' ';
    if |s| >= 5 { assert LowerAscii(s[4]) == ' ' <==> s[4] == ' '; }
    assert StartsWithCi(s, "that ") <==>
      && |s| >= 5
      && LowerAscii(s[0]) == 't' && LowerAscii(s[1]) == 'h' && LowerAscii(s[2]) == 'a' && LowerAscii(s[3]) == 't'
      && s[4] == ' ';
  }

  function ToldIndex(verb: string): (k: nat)
    requires ToldVerb(verb)
    ensures k < |TOLD| && TOLD[k] == "The user " + verb + " "
  {
    if verb == "told me" then 0 else if verb == "said" then 1 else if verb == "mentioned" then 2 else 3
  }

  lemma ToldApart(k: nat, i: nat)
    requires k < |TOLD| && i < k
    ensures Apart(TOLD[k], TOLD[i], 9) || Apart(TOLD[k], TOLD[i], 10)
  {
  }

  /** "The user told me [that] ..." leaves "The user ...". */
  lemma ToldLeaves(s: string, verb: string)
    requires ToldVerb(verb) && StartsWithCi(s, "The user " + verb + " ")
    ensures StripConversationFraming(s) == "The user " + ThatOff(s[|"The user " + verb + " "|..])
  {
    var k := ToldIndex(verb);
    forall i | 0 <= i < k ensures !StartsWithCi(s, TOLD[i]) {
      ToldApart(k, i);
      ApartExcludes(s, TOLD[k], TOLD[i], if Apart(TOLD[k], TOLD[i], 9) then 9 else 10);
    }
    MatchIs(s, TOLD, k);
    assert LowerAscii(s[0]) == LowerAscii(TOLD[k][0]) == 't';
    NotWhen(s);
    DropThatIs(s[|TOLD[k]|..]);
  }

  lemma NotAsked(s: string)
    requires forall who, comma | Asker(who) && Comma(comma) :: !StartsWithCi(s, "When " + who + "asked" + comma + " ")
    ensures Match(s, WHEN_ASKED) == |WHEN_ASKED|
  {
    forall k | 0 <= k < |WHEN_ASKED| ensures !StartsWithCi(s, WHEN_ASKED[k]) {
      var who, comma := if k < 2 then "the user was " else "", if k == 0 || k == 2 then "," else "";
      assert Asker(who) && Comma(comma) && AskedIndex(who, comma) == k;
    }
  }

  lemma NotToldBy(s: string)
    requires forall verb | ToldVerb(verb) :: !StartsWithCi(s, "The user " + verb + " ")
    ensures Match(s, TOLD) == |TOLD|
  {
    forall k | 0 <= k < |TOLD| ensures !StartsWithCi(s, TOLD[k]) {
      var verb := if k == 0 then "told me" else if k == 1 then "said" else if k == 2 then "mentioned" else "stated";
      assert ToldVerb(verb) && ToldIndex(verb) == k;
    }
  }

  /** Anything else is left to the next pass as it is. */
  lemma FramingLeavesOthers(s: string)
    requires forall who, comma | Asker(who) && Comma(comma) :: !StartsWithCi(s, "When " + who + "asked" + comma + " ")
    requires forall verb | ToldVerb(verb) :: !StartsWithCi(s, "The user " + verb + " ")
    ensures StripConversationFraming(s) == s
  {
    NotAsked(s);
    NotToldBy(s);
  }

  function ThoughtIndex(verb: string): (k: nat)
    requires ThoughtVerb(verb)
    ensures k < |SELF| && SELF[k] == "I " + verb + " "
  {
    if verb == "think" then 0 else if verb == "believe" then 1 else if verb == "learned" then 2 else if verb == "noticed" then 3 else 4
  }

  lemma ThoughtVerbAt(k: nat) returns (verb: string)
    requires k < |SELF|
    ensures ThoughtVerb(verb) && SELF[k] == "I " + verb + " "
  {
    verb := if k == 0 then "think" else if k == 1 then "believe" else if k == 2 then "learned"
            else if k == 3 then "noticed" else "observed";
    assert ThoughtIndex(verb) == k;
  }

  /** "I think [that] ..." leaves what follows. */
  lemma ThoughtLeaves(s: string, verb: string)
    requires ThoughtVerb(verb) && StartsWithCi(s, "I " + verb + " ")
    ensures StripAgentSelfReference(s) == ThatOff(s[|"I " + verb + " "|..])
  {
    var k := ThoughtIndex(verb);
    forall i | 0 <= i < k ensures !StartsWithCi(s, SELF[i]) { ApartExcludes(s, SELF[k], SELF[i], 2); }
    MatchIs(s, SELF, k);
    DropThatIs(s[|SELF[k]|..]);
  }

  lemma ThoughtLeavesOthers(s: string)
    requires forall verb | ThoughtVerb(verb) :: !StartsWithCi(s, "I " + verb + " ")
    ensures StripAgentSelfReference(s) == s
  {
    forall k | 0 <= k < |SELF| ensures !StartsWithCi(s, SELF[k]) {
      var verb := ThoughtVerbAt(k);
    }
  }

  function WishIndex(verb: string): (k: nat)
    requires WishVerb(verb)
    ensures k < |FIRST| && FIRST[k] == "I " + verb + " "
    ensures k < |THIRD| && THIRD[k] == "The user " + verb + "s "
  {
    if verb == "prefer" then 0 else if verb == "like" then 1 else if verb == "love" then 2 else if verb == "hate" then 3
    else if verb == "use" then 4 else if verb == "want" then 5 else 6
  }

  /** "I prefer ..." becomes "The user prefers ...", and so for each verb. */
  lemma WishBecomes(s: string, verb: string)
    requires WishVerb(verb) && StartsWithCi(s, "I " + verb + " ")
    ensures RewriteFirstPerson(s) == "The user " + verb + "s " + s[|"I " + verb + " "|..]
  {
    var k := WishIndex(verb);
    forall i | 0 <= i < k ensures !StartsWithCi(s, FIRST[i]) {
      ApartExcludes(s, FIRST[k], FIRST[i], if k == 2 && i == 1 then 3 else 2);
    }
    MatchIs(s, FIRST, k);
  }

  lemma WishLeavesOthers(s: string)
    requires forall verb | WishVerb(verb) :: !StartsWithCi(s, "I " + verb + " ")
    ensures RewriteFirstPerson(s) == s
  {
    forall k | 0 <= k < |FIRST| ensures !StartsWithCi(s, FIRST[k]) {
      var verb := if k == 0 then "prefer" else if k == 1 then "like" else if k == 2 then "love" else if k == 3 then "hate"
                  else if k == 4 then "use" else if k == 5 then "want" else "need";
      assert WishVerb(verb) && WishIndex(verb) == k;
    }
  }

  // ---- what is saved ----

  lemma {:induction false} TrimEndOf(s: string, tail: string)
    requires AllSpace(tail) && s != "" && !IsSpace(s[|s| - 1])
    ensures TrimEnd(s + tail) == s
    decreases |tail|
  {
    if tail == "" {
      assert s + tail == s;
    } else {
      LastIsSpace(tail);
      var shorter := tail[..|tail| - 1];
      AllSpacePrefix(tail, |tail| - 1);
      assert (s + tail)[..|s + tail| - 1] == s + shorter;
      TrimEndOf(s, shorter);
    }
  }

  lemma {:induction false} AllSpacePrefix(s: string, n: nat)
    requires AllSpace(s) && n <= |s|
    ensures AllSpace(s[..n])
    decreases n
  {
    if n > 0 {
      AllSpacePrefix(s[1..], n - 1);
      assert s[..n][1..] == s[1..][..n - 1];
    }
  }

  /** White space around a text that has none at either end. */
  ghost predicate Around(x: string, lead: string, t: string, tail: string) {
    x == lead + t + tail && AllSpace(lead) && AllSpace(tail) && t != "" && !IsSpace(t[0]) && !IsSpace(t[|t| - 1])
  }

  lemma TrimOf(x: string, lead: string, t: string, tail: string)
    requires Around(x, lead, t, tail)
    ensures Trim(x) == t
  {
    assert x == lead + (t + tail);
    TrimStartOf(lead, t + tail);
    TrimEndOf(t, tail);
  }

  /** A first letter made a capital and a full stop at the end, where they were missing; nothing else. */
  ghost predicate Finished(s: string, r: string) {
    && s != "" && |s| <= |r| && r[1..|s|] == s[1..]
    && (if 'a' <= s[0] <= 'z' then 'A' <= r[0] <= 'Z' && LowerAscii(r[0]) == s[0] else r[0] == s[0])
    && r[|s|..] == if s[|s| - 1] == '.' || s[|s| - 1] == '!' || s[|s| - 1] == '?' then "" else "."
  }

  lemma FinishedIs(s: string)
    requires s != ""
    ensures Finished(s, EnsureTerminal(CapitalizeFirst(s)))
  {
  }

  lemma SavedThrough(x: string, lead: string, t: string, tail: string, a: string, b: string, c: string)
    requires Around(x, lead, t, tail)
    requires StripConversationFraming(t) == a && StripAgentSelfReference(a) == b && RewriteFirstPerson(b) == c && c != ""
    ensures Normalize(x).Some? && Finished(c, Normalize(x).value)
  {
    TrimOf(x, lead, t, tail);
    FinishedIs(c);
  }

  lemma StartsWithI(s: string, verb: string)
    requires StartsWithCi(s, "I " + verb + " ")
    ensures s != "" && LowerAscii(s[0]) == 'i'
  {
    var p := "I " + verb + " ";
    assert p[0] == 'I' && |s| >= |p|;
  }

  lemma NotFramed(s: string)
    requires s != "" && LowerAscii(s[0]) == 'i'
    ensures StripConversationFraming(s) == s
  {
    NotWhen(s);
    NotTold(s);
  }

  lemma FinishedText(s: string, r: string)
    requires Finished(s, r) && !('a' <= s[0] <= 'z')
    ensures r == s + if s[|s| - 1] == '.' || s[|s| - 1] == '!' || s[|s| - 1] == '?' then "" else "."
  {
    assert r == [r[0]] + r[1..|s|] + r[|s|..] && s == [s[0]] + s[1..];
  }

  lemma WishApart(k: nat, j: nat)
    requires k < |FIRST| && j < |SELF|
    ensures Apart(FIRST[k], SELF[j], 2) || Apart(FIRST[k], SELF[j], 3)
  {
  }

  lemma WishIsNoThought(s: string, verb: string)
    requires WishVerb(verb) && StartsWithCi(s, "I " + verb + " ")
    ensures StripAgentSelfReference(s) == s
  {
    var k := WishIndex(verb);
    forall j | 0 <= j < |SELF| ensures !StartsWithCi(s, SELF[j]) {
      WishApart(k, j);
      ApartExcludes(s, FIRST[k], SELF[j], if Apart(FIRST[k], SELF[j], 2) then 2 else 3);
    }
  }

  /** A text that says what its owner wishes for is saved as the same wish, said of the user: the verb is
      the one it was said with, and the rest is as it was up to the final mark. */
  lemma WishIsSaved(x: string, lead: string, t: string, tail: string, verb: string)
    requires Around(x, lead, t, tail) && WishVerb(verb) && StartsWithCi(t, "I " + verb + " ")
    ensures var rest := t[|"I " + verb + " "|..];
      Normalize(x) == Some("The user " + verb + "s " + rest +
                           if t[|t| - 1] == '.' || t[|t| - 1] == '!' || t[|t| - 1] == '?' then "" else ".")
  {
    var said := "The user " + verb + "s " + t[|"I " + verb + " "|..];
    StartsWithI(t, verb);
    NotFramed(t);
    WishIsNoThought(t, verb);
    WishBecomes(t, verb);
    assert |t| > |"I " + verb + " "|;
    SavedThrough(x, lead, t, tail, t, t, said);
    assert said[0] == 'T' && said[|said| - 1] == t[|t| - 1];
    FinishedText(said, Normalize(x).value);
  }

  /** Nothing is taken off or rewritten at the front. */
  ghost predicate PlainStart(s: string) {
    && (forall who, comma | Asker(who) && Comma(comma) :: !StartsWithCi(s, "When " + who + "asked" + comma + " "))
    && (forall verb | ToldVerb(verb) :: !StartsWithCi(s, "The user " + verb + " "))
    && SpokenPlainly(s)
  }

  ghost predicate SpokenPlainly(s: string) {
    forall verb | ThoughtVerb(verb) || WishVerb(verb) :: !StartsWithCi(s, "I " + verb + " ")
  }

  /** A text that begins with none of these is saved as it is, finished. */
  lemma PlainIsSaved(x: string, lead: string, t: string, tail: string)
    requires Around(x, lead, t, tail) && PlainStart(t)
    ensures Normalize(x).Some? && Finished(t, Normalize(x).value)
  {
    FramingLeavesOthers(t);
    ThoughtLeavesOthers(t);
    WishLeavesOthers(t);
    SavedThrough(x, lead, t, tail, t, t, t);
  }

  /** A text that only says when it was said is saved as what was said. */
  lemma AskedIsSaved(x: string, lead: string, t: string, tail: string, who: string, comma: string)
    requires Around(x, lead, t, tail) && Asker(who) && Comma(comma) && StartsWithCi(t, "When " + who + "asked" + comma + " ")
    requires SpokenPlainly(t[|"When " + who + "asked" + comma + " "|..])
    ensures Normalize(x).Some? && Finished(t[|"When " + who + "asked" + comma + " "|..], Normalize(x).value)
  {
    var rest := t[|"When " + who + "asked" + comma + " "|..];
    AskedLeaves(t, who, comma);
    ThoughtLeavesOthers(rest);
    WishLeavesOthers(rest);
    assert LowerAscii(t[|"When " + who + "asked" + comma|]) == ' ';
    SavedThrough(x, lead, t, tail, rest, rest, rest);
  }

  /** One that only says that its writer thinks so is saved as what is thought. */
  lemma ThoughtIsSaved(x: string, lead: string, t: string, tail: string, verb: string)
    requires Around(x, lead, t, tail) && ThoughtVerb(verb) && StartsWithCi(t, "I " + verb + " ")
    requires SpokenPlainly(ThatOff(t[|"I " + verb + " "|..]))
    ensures Normalize(x).Some? && Finished(ThatOff(t[|"I " + verb + " "|..]), Normalize(x).value)
  {
    var rest := ThatOff(t[|"I " + verb + " "|..]);
    StartsWithI(t, verb);
    NotFramed(t);
    ThoughtLeaves(t, verb);
    WishLeavesOthers(rest);
    assert LowerAscii(t[|"I " + verb|]) == ' ';
    SavedThrough(x, lead, t, tail, t, rest, rest);
  }

  /** What the user told is saved as said of the user. */
  lemma ToldIsSaved(x: string, lead: string, t: string, tail: string, verb: string)
    requires Around(x, lead, t, tail) && ToldVerb(verb) && StartsWithCi(t, "The user " + verb + " ")
    ensures Normalize(x).Some? && Finished("The user " + ThatOff(t[|"The user " + verb + " "|..]), Normalize(x).value)
  {
    var said := "The user " + ThatOff(t[|"The user " + verb + " "|..]);
    ToldLeaves(t, verb);
    assert said[0] == 'T';
    forall v | ThoughtVerb(v) || WishVerb(v) ensures !StartsWithCi(said, "I " + v + " ") {
      assert LowerAscii(said[0]) != LowerAscii(("I " + v + " ")[0]);
    }
    ThoughtLeavesOthers(said);
    WishLeavesOthers(said);
    SavedThrough(x, lead, t, tail, said, said, said);
  }
}
