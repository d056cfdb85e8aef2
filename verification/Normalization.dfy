/** The canonical shape a memory's text is saved in: five rewriting passes over a trimmed string. */
module Normalization {
  import opened VaultCore
  import opened Chars
  import opened Utf8

  const WHEN_ASKED := ["When the user was asked, ", "When the user was asked ", "When asked, ", "When asked "]
  const TOLD := ["The user told me ", "The user said ", "The user mentioned ", "The user stated "]
  const SELF := ["I think ", "I believe ", "I learned ", "I noticed ", "I observed "]
  const FIRST := ["I prefer ", "I like ", "I love ", "I hate ", "I use ", "I want ", "I need "]
  const THIRD := ["The user prefers ", "The user likes ", "The user loves ", "The user hates ", "The user uses ",
                  "The user wants ", "The user needs "]

  /** The first of the prefixes `s` starts with, ignoring ASCII case; their number when none. */
  function Match(s: string, prefixes: seq<string>): (k: nat)
    ensures k <= |prefixes|
    ensures k < |prefixes| ==> StartsWithCi(s, prefixes[k])
    ensures forall i | 0 <= i < k :: !StartsWithCi(s, prefixes[i])
  {
    if prefixes == [] || StartsWithCi(s, prefixes[0]) then 0 else 1 + Match(s, prefixes[1..])
  }

  predicate StartsWithAny(s: string, prefixes: seq<string>) {
    Match(s, prefixes) < |prefixes|
  }

  function DropThat(s: string): string {
    if StartsWithCi(s, "that ") then s[|"that "|..] else s
  }

  function StripConversationFraming(s: string): string {
    var k := Match(s, WHEN_ASKED);
    if k < |WHEN_ASKED| then s[|WHEN_ASKED[k]|..]
    else
      var j := Match(s, TOLD);
      if j < |TOLD| then "The user " + DropThat(s[|TOLD[j]|..]) else s
  }

  function StripAgentSelfReference(s: string): string {
    var k := Match(s, SELF);
    if k < |SELF| then DropThat(s[|SELF[k]|..]) else s
  }

  function RewriteFirstPerson(s: string): string {
    var k := Match(s, FIRST);
    if k < |FIRST| then THIRD[k] + s[|FIRST[k]|..] else s
  }

  predicate IsLower(c: char) {
    'a' <= c <= 'z'
  }

  function CapitalizeFirst(s: string): (r: string)
    ensures |r| == |s|
    ensures r != "" ==> !IsLower(r[0])
    ensures s != "" && !IsLower(s[0]) ==> r == s
    ensures s != "" ==> r[1..] == s[1..]
  {
    if s != "" && IsLower(s[0]) then [s[0] - 'a' + 'A'] + s[1..] else s
  }

  predicate Terminal(c: char) {
    c == '.' || c == '!' || c == '?'
  }

  predicate EndsTerminal(s: string) {
    s != "" && Terminal(s[|s| - 1])
  }

  function EnsureTerminal(s: string): string {
    if EndsTerminal(s) then s else s + "."
  }

  function Trim(s: string): string {
    TrimEnd(TrimStart(s))
  }

  /** The passes, on a trimmed text. */
  function Passes(t: string): string {
    EnsureTerminal(CapitalizeFirst(RewriteFirstPerson(StripAgentSelfReference(StripConversationFraming(t)))))
  }

  /** `None` is the only error: nothing but white space. */
  function Normalize(content: string): Option<string> {
    if Trim(content) == "" then None else Some(Passes(Trim(content)))
  }
}
