/** The gate in front of the deterministic collapse: cosine, word containment and word order. Unicode's
    letter table and lower-casing are inputs; the arithmetic is exact. */
module NearIdentical {

  datatype Lexer = Lexer(alnum: char -> bool, lower: string -> string)

  const COSINE_FLOOR: real := 0.93

  function WordEnd(s: string, lexer: Lexer): (n: nat)
    ensures n <= |s| && (forall i | 0 <= i < n :: lexer.alnum(s[i])) && (n < |s| ==> !lexer.alnum(s[n]))
  {
    if s == "" || !lexer.alnum(s[0]) then 0 else 1 + WordEnd(s[1..], lexer)
  }

  /** The words of a text in order, lower-cased; anything else separates them. */
  function Words(s: string, lexer: Lexer): seq<string>
    decreases |s|
  {
    if s == "" then []
    else if lexer.alnum(s[0]) then
      var n := WordEnd(s, lexer);
      [lexer.lower(s[..n])] + Words(s[n..], lexer)
    else Words(s[1..], lexer)
  }

  function WordSet(s: string, lexer: Lexer): set<string> {
    set w | w in Words(s, lexer)
  }

  /** At least four fifths of the smaller text's words are in the other; a text without words is
      contained in nothing. */
  predicate Contains(a: string, b: string, lexer: Lexer) {
    var wa, wb := WordSet(a, lexer), WordSet(b, lexer);
    var least := if |wa| < |wb| then |wa| else |wb|;
    least > 0 && 5 * |wa * wb| >= 4 * least
  }

  /** Exactly the same words, repeats counted, in another order. */
  predicate PureReordering(a: string, b: string, lexer: Lexer) {
    Words(a, lexer) != Words(b, lexer) && multiset(Words(a, lexer)) == multiset(Words(b, lexer))
  }

  predicate PassesGate(cosine: real, a: string, b: string, lexer: Lexer) {
    cosine >= COSINE_FLOOR && Contains(a, b, lexer) && !PureReordering(a, b, lexer)
  }

  // ---- words ----

  lemma {:induction false} WordEndOf(w: string, rest: string, lexer: Lexer)
    requires (forall i | 0 <= i < |w| :: lexer.alnum(w[i])) && (rest == "" || !lexer.alnum(rest[0]))
    ensures WordEnd(w + rest, lexer) == |w|
    decreases |w|
  {
    if w == "" {
      assert w + rest == rest;
    } else {
      assert (w + rest)[1..] == w[1..] + rest;
      WordEndOf(w[1..], rest, lexer);
    }
  }

  /** The words of a text are its runs of letters and digits, lower-cased: none in no text, whatever separates
      them adds none, and a run that ends where a separator or the text begins is one. */
  lemma WordsAreRuns(w: string, rest: string, separator: char, lexer: Lexer)
    requires w != "" && (forall i | 0 <= i < |w| :: lexer.alnum(w[i])) && !lexer.alnum(separator)
    ensures Words("", lexer) == []
    ensures Words([separator] + rest, lexer) == Words(rest, lexer)
    ensures Words(w, lexer) == [lexer.lower(w)]
    ensures Words(w + [separator] + rest, lexer) == [lexer.lower(w)] + Words(rest, lexer)
  {
    WordEndOf(w, "", lexer);
    assert w + "" == w && w[..|w|] == w && w[|w|..] == "";
    var s := [separator] + rest;
    assert s[1..] == rest;
    WordEndOf(w, s, lexer);
    assert w + [separator] + rest == w + s;
    assert (w + s)[..|w|] == w && (w + s)[|w|..] == s;
  }

  /** When two texts pass: their vectors are at cosine 0.93 or nearer, at least four in five of the different
      words of the one with fewer are in the other, and they are not the same words in another order. */
  lemma GateIff(cosine: real, a: string, b: string, lexer: Lexer)
    ensures var inA, inB := set w | w in Words(a, lexer), set w | w in Words(b, lexer);
      PassesGate(cosine, a, b, lexer) <==>
        && cosine >= 0.93
        && inA != {} && inB != {} && (5 * |inA * inB| >= 4 * |inA| || 5 * |inA * inB| >= 4 * |inB|)
        && (multiset(Words(a, lexer)) == multiset(Words(b, lexer)) ==> Words(a, lexer) == Words(b, lexer))
  {
    var inA, inB := set w | w in Words(a, lexer), set w | w in Words(b, lexer);
    assert inA == WordSet(a, lexer) && inB == WordSet(b, lexer);
  }

  /** Which of two texts comes first does not matter to the gate. */
  lemma GateIsSymmetric(cosine: real, a: string, b: string, lexer: Lexer)
    ensures PassesGate(cosine, a, b, lexer) <==> PassesGate(cosine, b, a, lexer)
  {
    assert WordSet(a, lexer) * WordSet(b, lexer) == WordSet(b, lexer) * WordSet(a, lexer);
  }

  /** Among texts with the same words, repeats counted, and near enough vectors, the gate tells a
      duplicate from a reordering: it passes exactly when there is a word and their order is the same. */
  lemma SameWordsPassIff(cosine: real, a: string, b: string, lexer: Lexer)
    requires cosine >= COSINE_FLOOR && multiset(Words(a, lexer)) == multiset(Words(b, lexer))
    ensures PassesGate(cosine, a, b, lexer) <==> Words(a, lexer) == Words(b, lexer) && Words(a, lexer) != []
  {
    var wa, wb := Words(a, lexer), Words(b, lexer);
    forall w ensures w in wa <==> w in wb { assert w in wa <==> w in multiset(wa); }
    assert WordSet(a, lexer) == WordSet(b, lexer);
    assert WordSet(a, lexer) * WordSet(b, lexer) == WordSet(a, lexer);
    if wa != [] { assert wa[0] in WordSet(a, lexer); }
  }
}
