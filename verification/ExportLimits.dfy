/** Where the escape stops short of section 2.1 and section 4.3 of the CommonMark specification: a
    lone carriage return ends a line there, and one or two marks already underline a heading. */
module ExportLimits {
  import opened Chars
  import opened Export
  import opened ExportLaws

  // ---- carriage returns ----

  function AtReturns(l: string): seq<string> {
    Split(l, '\r')
  }

  /** The lines of a document for a reader to whom a carriage return ends a line too. */
  function Pieces(lines: seq<string>): seq<string> {
    Flat(lines, AtReturns)
  }

  /** A line of a memory's text that slips structure past the escape: one of the pieces its returns make
      of it is structure, and either the line as a whole is not, or there is text before that piece. The
      escape looks at the whole line, and marks only its first piece with text. */
  ghost predicate SlipsPast(l: string) {
    var ps := Split(l, '\r');
    exists i | 0 <= i < |ps| :: IsStructure(ps[i]) && (IsStructure(l) ==> exists j | 0 <= j < i :: !AllSpace(ps[j]))
  }

  ghost predicate Forges(content: string) {
    exists l | l in ContentLines(content) :: SlipsPast(l)
  }

  /** Some piece of a memory's text as written is structure. */
  ghost predicate BreaksAtReturn(content: string) {
    exists l | l in BodyLines(content) :: Breaks(l)
  }

  ghost predicate Breaks(l: string) {
    exists p | p in Split(l, '\r') :: IsStructure(p)
  }

  // ---- the escape, piece by piece ----

  lemma {:induction false} FindConcat(a: string, b: string, c: char)
    ensures Find(a + b, c) == if Find(a, c) < |a| then Find(a, c) else |a| + Find(b, c)
    decreases |a|
  {
    if a == "" {
      assert a + b == b;
    } else if a[0] != c {
      FindConcat(a[1..], b, c);
      assert (a + b)[1..] == a[1..] + b;
    }
  }

  /** The last piece of the one joined to the first of the other. */
  function Glued(a: seq<string>, b: seq<string>): seq<string>
    requires a != [] && b != []
  {
    a[..|a| - 1] + [a[|a| - 1] + b[0]] + b[1..]
  }

  lemma GluedCons(first: string, a: seq<string>, b: seq<string>)
    requires a != [] && b != []
    ensures Glued([first] + a, b) == [first] + Glued(a, b)
  {
  }

  /** Splitting a concatenation glues the pieces. */
  lemma {:induction false} SplitConcat(a: string, b: string, c: char)
    ensures Split(a + b, c) == Glued(Split(a, c), Split(b, c))
    decreases |a|
  {
    var i := Find(a, c);
    FindConcat(a, b, c);
    if i < |a| {
      var rest := a[i + 1..];
      assert (a + b)[..i] == a[..i] && (a + b)[i + 1..] == rest + b;
      assert Split(a + b, c) == [a[..i]] + Split(rest + b, c);
      SplitConcat(rest, b, c);
      GluedCons(a[..i], Split(rest, c), Split(b, c));
    } else {
      SplitAfter(a, b, c);
    }
  }

  lemma SplitAfter(a: string, b: string, c: char)
    requires Find(a, c) == |a|
    ensures Split(a + b, c) == Glued(Split(a, c), Split(b, c))
  {
    FindConcat(a, b, c);
    assert Split(a, c) == [a];
    var j := Find(b, c);
    if j < |b| {
      assert (a + b)[..|a| + j] == a + b[..j] && (a + b)[|a| + j + 1..] == b[j + 1..];
      assert Split(a + b, c) == [a + b[..j]] + Split(b[j + 1..], c);
    } else {
      assert Split(a + b, c) == [a + b];
    }
  }

  lemma {:induction false} BlankPart(s: string, i: nat, j: nat)
    requires AllSpace(s) && i <= j <= |s|
    ensures AllSpace(s[i..j])
    decreases j
  {
    if i < j {
      if i == 0 {
        BlankPart(s[1..], 0, j - 1);
        assert s[0..j][1..] == s[1..][0..j - 1];
      } else {
        BlankPart(s[1..], i - 1, j - 1);
        assert s[i..j] == s[1..][i - 1..j - 1];
      }
    }
  }

  lemma {:induction false} BlankPieces(s: string, c: char)
    requires AllSpace(s)
    ensures forall p | p in Split(s, c) :: AllSpace(p)
    decreases |s|
  {
    var i := Find(s, c);
    if i < |s| {
      BlankPart(s, 0, i);
      assert s[0..i] == s[..i];
      BlankPart(s, i + 1, |s|);
      assert s[i + 1..|s|] == s[i + 1..];
      BlankPieces(s[i + 1..], c);
    }
  }

  lemma BlankIsText(p: string)
    requires AllSpace(p)
    ensures !IsStructure(p)
  {
  }

  lemma {:induction false} NotBlank(lead: string, s: string)
    requires s != "" && !IsSpace(s[0])
    ensures !AllSpace(lead + s)
    decreases |lead|
  {
    if lead == "" {
      assert lead + s == s;
    } else {
      NotBlank(lead[1..], s);
      assert (lead + s)[1..] == lead[1..] + s;
    }
  }

  lemma MarkedIsText(lead: string, s: string)
    requires AllSpace(lead)
    ensures !IsStructure(lead + ("\\" + s))
  {
    TrimStartOf(lead, "\\" + s);
    assert Visible("\\" + s)[0] == '\\';
  }

  lemma EscapeParts(l: string) returns (front: string, tail: string)
    requires IsStructure(l)
    ensures l == front + tail && EscapeLine(l) == front + ("\\" + tail)
    ensures AllSpace(front) && tail != "" && !IsSpace(tail[0])
  {
    TrimStartParts(l);
    tail := TrimStart(l);
    front := l[..|l| - |tail|];
    BlankLine();
  }

  /** A structural line cut at its returns: blank pieces, then the piece the mark goes into, then the
      rest, which the escape leaves as it is. */
  lemma MarkedPieces(front: string, tail: string) returns (blank: seq<string>, lead: string, head: string, rest: seq<string>)
    requires AllSpace(front) && tail != "" && !IsSpace(tail[0])
    ensures Split(front + tail, '\r') == blank + [lead + head] + rest
    ensures Split(front + ("\\" + tail), '\r') == blank + [lead + ("\\" + head)] + rest
    ensures (forall p | p in blank :: AllSpace(p)) && AllSpace(lead) && head != "" && !IsSpace(head[0])
  {
    var pf, pt := Split(front, '\r'), Split(tail, '\r');
    SplitConcat(front, tail, '\r');
    NoReturns("\\");
    SplitConcat("\\", tail, '\r');
    SplitConcat(front, "\\" + tail, '\r');
    BlankPieces(front, '\r');
    blank, lead, head, rest := pf[..|pf| - 1], pf[|pf| - 1], pt[0], pt[1..];
  }

  /** Of pieces that differ in one, with only blank ones before it: the structural ones after it. */
  lemma BeyondTheMark(raw: seq<string>, written: seq<string>, blank: seq<string>, x: string, y: string, rest: seq<string>)
    requires raw == blank + [x] + rest && written == blank + [y] + rest
    requires (forall p | p in blank :: AllSpace(p)) && !AllSpace(x) && !IsStructure(y)
    ensures (exists p | p in written :: IsStructure(p))
      <==> exists i | 0 <= i < |raw| :: IsStructure(raw[i]) && exists j | 0 <= j < i :: !AllSpace(raw[j])
  {
    var n := |blank|;
    forall i | 0 <= i < n ensures AllSpace(raw[i]) && !IsStructure(raw[i]) && written[i] == raw[i] {
      assert blank[i] in blank;
      BlankIsText(raw[i]);
    }
    assert raw[n] == x && written[n] == y;
    forall i | n < i < |raw| ensures raw[i] == written[i] { assert raw[i] == rest[i - n - 1]; }
    if p :| p in written && IsStructure(p) {
      var i :| 0 <= i < |written| && written[i] == p;
      assert n < i && IsStructure(raw[i]) && !AllSpace(raw[n]);
    }
    if i :| 0 <= i < |raw| && IsStructure(raw[i]) && exists j | 0 <= j < i :: !AllSpace(raw[j]) {
      assert i > n && written[i] in written;
    }
  }

  /** A line slips past exactly when a piece of it, as escaped, is structure. */
  lemma SlipsPastIff(l: string)
    ensures Breaks(EscapeLine(l)) <==> SlipsPast(l)
  {
    if IsStructure(l) {
      var front, tail := EscapeParts(l);
      var blank, lead, head, rest := MarkedPieces(front, tail);
      MarkedIsText(lead, head);
      NotBlank(lead, head);
      BeyondTheMark(Split(l, '\r'), Split(EscapeLine(l), '\r'), blank, lead + head, lead + ("\\" + head), rest);
    } else {
      EscapeIsExact(l);
      var ps := Split(l, '\r');
      if i :| 0 <= i < |ps| && IsStructure(ps[i]) { assert ps[i] in ps; }
    }
  }

  lemma BreaksIffForges(content: string)
    ensures BreaksAtReturn(content) <==> Forges(content)
  {
    var lines := ContentLines(content);
    if lines == [] {
      NoReturns("");
      BlankLine();
    } else {
      EscapedBreaks(lines);
    }
  }

  lemma EscapedBreaks(lines: seq<string>)
    ensures (exists l | l in EscapeLines(lines) :: Breaks(l)) <==> exists l | l in lines :: SlipsPast(l)
  {
    var breaks, slips := (l: string) => Breaks(l), (l: string) => SlipsPast(l);
    forall i | 0 <= i < |lines| ensures breaks(EscapeLines(lines)[i]) <==> slips(lines[i]) { SlipsPastIff(lines[i]); }
    assert forall l :: breaks(l) <==> Breaks(l);
    assert forall l :: slips(l) <==> SlipsPast(l);
  }

  lemma PiecesConcat(a: seq<string>, b: seq<string>)
    ensures Pieces(a + b) == Pieces(a) + Pieces(b)
  {
    FlatConcat(a, b, AtReturns);
  }

  lemma NoReturns(l: string)
    requires '\r' !in l
    ensures Split(l, '\r') == [l]
  {
  }

  lemma {:induction false} WholeLines(lines: seq<string>)
    requires forall l | l in lines :: '\r' !in l
    ensures Pieces(lines) == lines
    decreases |lines|
  {
    if lines != [] {
      NoReturns(lines[0]);
      assert forall l | l in lines[1..] :: l in lines;
      WholeLines(lines[1..]);
    }
  }

  lemma {:induction false} PiecesMembers(lines: seq<string>, p: string)
    ensures p in Pieces(lines) <==> exists l | l in lines :: p in Split(l, '\r')
    decreases |lines|
  {
    if lines != [] {
      PiecesMembers(lines[1..], p);
      if l :| l in lines[1..] && p in Split(l, '\r') { assert l in lines; }
      if l :| l in lines && p in Split(l, '\r') { assert l == lines[0] || l in lines[1..]; }
      if p in Split(lines[0], '\r') { assert lines[0] in lines; }
    }
  }

  lemma {:induction false} FilterFinds(lines: seq<string>, test: string -> bool)
    ensures Filter(lines, test) == [] <==> forall l | l in lines :: !test(l)
    decreases |lines|
  {
    if lines != [] {
      FilterFinds(lines[1..], test);
      assert forall l :: l in lines <==> l == lines[0] || l in lines[1..];
    }
  }

  /** How structure shows up in a memory's lines, piece by piece. */
  lemma BodyPieces(content: string)
    ensures Filter(Pieces(BodyLines(content)), IsStructure) == [] <==> !BreaksAtReturn(content)
  {
    var lines := BodyLines(content);
    FilterFinds(Pieces(lines), IsStructure);
    if BreaksAtReturn(content) {
      var l :| l in lines && Breaks(l);
      var p :| p in Split(l, '\r') && IsStructure(p);
      PiecesMembers(lines, p);
    }
    forall p | p in Pieces(lines) ensures exists l | l in lines :: p in Split(l, '\r') {
      PiecesMembers(lines, p);
    }
  }

  lemma MemoryPieces(m: Saved, date: DateText)
    requires '\r' !in date(m.createdAt)
    ensures Filter(Pieces(MemoryLines(m, date)), IsStructure) == Filter(Pieces(BodyLines(m.content)), IsStructure)
  {
    var saved := "Saved " + date(m.createdAt);
    BlankLine();
    PlainLine(saved);
    WholeLines([""]);
    WholeLines([saved]);
    FilterNone([""], IsStructure);
    FilterNone([saved], IsStructure);
    PiecesConcat([""] + BodyLines(m.content), [saved]);
    PiecesConcat([""], BodyLines(m.content));
    FilterConcat(Pieces([""] + BodyLines(m.content)), Pieces([saved]), IsStructure);
    FilterConcat(Pieces([""]), Pieces(BodyLines(m.content)), IsStructure);
  }

  lemma {:induction false} MemoriesPieces(ms: seq<Saved>, date: DateText)
    requires forall at :: '\r' !in date(at)
    ensures Filter(Pieces(AllMemoryLines(ms, date)), IsStructure) == [] <==> forall m | m in ms :: !BreaksAtReturn(m.content)
    decreases |ms|
  {
    if ms != [] {
      var here, rest := MemoryLines(ms[0], date), AllMemoryLines(ms[1..], date);
      MemoryPieces(ms[0], date);
      BodyPieces(ms[0].content);
      MemoriesPieces(ms[1..], date);
      PiecesConcat(here, rest);
      FilterConcat(Pieces(here), Pieces(rest), IsStructure);
      assert forall m :: m in ms <==> m == ms[0] || m in ms[1..];
    }
  }

  lemma TopicPieces(topic: string, ms: seq<Saved>, date: DateText)
    requires forall at :: '\r' !in date(at)
    ensures Filter(Pieces(TopicLines(topic, ms, date)), IsStructure)
      == [TopicHeading(topic)] + Filter(Pieces(AllMemoryLines(ms, date)), IsStructure)
  {
    var head := ["", TopicHeading(topic)];
    BlankLine();
    HeadingLine(TopicHeading(topic));
    assert '\r' !in HeadingSafe(topic) && '\r' !in "## ";
    WholeLines(head);
    FilterTwo("", TopicHeading(topic), IsStructure);
    PiecesConcat(head, AllMemoryLines(ms, date));
    FilterConcat(Pieces(head), Pieces(AllMemoryLines(ms, date)), IsStructure);
  }

  /** Some memory of one of the topics breaks at a return. */
  ghost predicate SomeBreaks(ts: seq<string>, ms: seq<Saved>) {
    exists t, m | t in ts && m in Section(ms, t) :: BreaksAtReturn(m.content)
  }

  /** The structure of the topics' part of the file, piece by piece. */
  function TopicsFound(ts: seq<string>, ms: seq<Saved>, date: DateText): seq<string> {
    Filter(Pieces(AllTopicLines(ts, ms, date)), IsStructure)
  }

  lemma TopicStep(ts: seq<string>, ms: seq<Saved>, date: DateText)
    requires ts != [] && forall at :: '\r' !in date(at)
    ensures var body := Filter(Pieces(AllMemoryLines(Section(ms, ts[0]), date)), IsStructure);
      TopicsFound(ts, ms, date) == [TopicHeading(ts[0])] + body + TopicsFound(ts[1..], ms, date)
  {
    var section := Section(ms, ts[0]);
    var here, rest := TopicLines(ts[0], section, date), AllTopicLines(ts[1..], ms, date);
    TopicPieces(ts[0], section, date);
    PiecesConcat(here, rest);
    FilterConcat(Pieces(here), Pieces(rest), IsStructure);
  }

  lemma {:induction false} TopicsPieces(ts: seq<string>, ms: seq<Saved>, date: DateText)
    requires forall at :: '\r' !in date(at)
    ensures var found := TopicsFound(ts, ms, date);
      && |found| >= |ts| && (|found| == |ts| <==> !SomeBreaks(ts, ms)) && (!SomeBreaks(ts, ms) ==> found == Headings(ts))
    decreases |ts|
  {
    if ts != [] {
      var body := Filter(Pieces(AllMemoryLines(Section(ms, ts[0]), date)), IsStructure);
      TopicStep(ts, ms, date);
      MemoriesPieces(Section(ms, ts[0]), date);
      TopicsPieces(ts[1..], ms, date);
    }
  }

  lemma IntroPieces(n: nat, date: DateText, exportedAt: int)
    requires forall at :: '\r' !in date(at)
    ensures Pieces(Intro(n, date, exportedAt)) == Intro(n, date, exportedAt)
  {
    var phrase := CountPhrase(n);
    assert '\r' !in phrase;
    assert '\r' !in "Exported " + date(exportedAt) + " — " + phrase;
    assert '\r' !in FileNote();
    assert '\r' !in HEADING;
    WholeLines(Intro(n, date, exportedAt));
  }

  /** To a reader that ends lines at carriage returns as well, the file's structure is the program's
      own exactly when no line of a memory's text slips structure past the escape. */
  lemma ReturnsForgeIff(ms: seq<Saved>, date: DateText, exportedAt: int)
    requires ms != [] && forall at :: '\r' !in date(at)
    ensures Filter(Pieces(DocLines(ms, date, exportedAt)), IsStructure) == [HEADING] + Headings(SortedTopics(TopicsOf(ms)))
      <==> forall m | m in ms :: !Forges(m.content)
  {
    forall m | m in ms ensures BreaksAtReturn(m.content) <==> Forges(m.content) { BreaksIffForges(m.content); }
    var ts := SortedTopics(TopicsOf(ms));
    var intro, rest := Intro(|ms|, date, exportedAt), AllTopicLines(ts, ms, date);
    IntroPieces(|ms|, date, exportedAt);
    IntroStructure(|ms|, date, exportedAt);
    TopicsPieces(ts, ms, date);
    PiecesConcat(intro, rest);
    FilterConcat(Pieces(intro), Pieces(rest), IsStructure);
    BreaksInSomeTopic(ms);
  }

  lemma BreaksInSomeTopic(ms: seq<Saved>)
    ensures SomeBreaks(SortedTopics(TopicsOf(ms)), ms) <==> exists m | m in ms :: BreaksAtReturn(m.content)
  {
    var ts := SortedTopics(TopicsOf(ms));
    forall m | m in ms ensures m.topic in ts && m in Section(ms, m.topic) {
      assert m in InTopic(ms, m.topic);
      assert m in multiset(Section(ms, m.topic));
    }
    forall t, m | t in ts && m in Section(ms, t) ensures m in ms {
      assert m in multiset(Section(ms, t));
    }
  }

  lemma CutOnce(a: string, b: string)
    requires '\r' !in a && '\r' !in b
    ensures Split(a + "\r" + b, '\r') == [a, b]
  {
    FindFirst(a, '\r', b);
    NoReturns(b);
    assert a + "\r" + b == a + ['\r'] + b;
    assert (a + ['\r'] + b)[..|a|] == a && (a + ['\r'] + b)[|a| + 1..] == b;
  }

  /** A memory can forge a heading this way: text, a carriage return, and a mark. */
  lemma ReturnForges()
    ensures Forges("a\r# b")
  {
    var l := "a" + "\r" + "# b";
    CutOnce("a", "# b");
    PlainLine(l);
    HeadingLine("# b");
    assert Split(l, '\r')[1] == "# b";
    assert l == "a\r# b";
    assert l in ContentLines(l) && SlipsPast(l);
  }

  /** And a rule this way: a rule, a carriage return, and text that makes the line no rule as a whole. */
  lemma RuleBeforeReturnForges()
    ensures Forges("---\rabc")
  {
    var l := "---" + "\r" + "abc";
    CutOnce("---", "abc");
    assert l == "---\rabc";
    assert Visible("---") == "---" by {
      assert "---"[1..] == "--" && "--"[1..] == "-" && "-"[1..] == "";
    }
    assert Split(l, '\r')[0] == "---" && IsStructure("---");
    MixedMarks(l, "---", "abc");
    assert l in ContentLines(l) && SlipsPast(l);
  }

  lemma {:induction false} VisibleConcat(a: string, b: string)
    ensures Visible(a + b) == Visible(a) + Visible(b)
    decreases |a|
  {
    if a == "" {
      assert a + b == b;
    } else {
      VisibleConcat(a[1..], b);
      assert (a + b)[1..] == a[1..] + b;
    }
  }

  lemma MixedMarks(l: string, a: string, b: string)
    requires l == a + "\r" + b && a == "---" && b == "abc"
    ensures !IsStructure(l)
  {
    VisibleConcat(a + "\r", b);
    VisibleConcat(a, "\r");
    assert "abc"[1..] == "bc" && "bc"[1..] == "c" && "c"[1..] == "";
    assert Visible(b) == "abc";
    var v := Visible(l);
    assert v[|v| - 1] == 'c' && v[0] == '-' by {
      assert "---"[1..] == "--" && "--"[1..] == "-" && "-"[1..] == "";
    }
    assert TrimStart(l) == l;
  }

  // ---- underlines ----

  function Repeat(c: char, n: nat): (s: string)
    ensures |s| == n && forall i | 0 <= i < n :: s[i] == c
  {
    seq(n, i => c)
  }

  lemma {:induction false} VisibleRun(k: nat, mark: char, n: nat)
    requires !IsSpace(mark)
    ensures Visible(Repeat(' ', k) + Repeat(mark, n)) == Repeat(mark, n)
    decreases k + n
  {
    var s := Repeat(' ', k) + Repeat(mark, n);
    if k > 0 {
      assert s[1..] == Repeat(' ', k - 1) + Repeat(mark, n);
      VisibleRun(k - 1, mark, n);
    } else if n > 0 {
      assert s[1..] == Repeat(' ', 0) + Repeat(mark, n - 1);
      VisibleRun(0, mark, n - 1);
      assert Repeat(mark, n) == [mark] + Repeat(mark, n - 1);
    }
  }

  /** A line of nothing but `=` or `-`, indented or not, underlines a heading from its first mark on;
      the escape catches it exactly from the third. */
  lemma UnderlineCaughtIff(k: nat, mark: char, n: nat)
    requires (mark == '=' || mark == '-') && n >= 1
    ensures IsStructure(Repeat(' ', k) + Repeat(mark, n)) <==> n >= 3
  {
    var line := Repeat(' ', k) + Repeat(mark, n);
    AllSpaces(k);
    TrimStartOf(Repeat(' ', k), Repeat(mark, n));
    var trimmed := TrimStart(line);
    assert trimmed == Repeat(mark, n);
    VisibleRun(0, mark, n);
    assert Repeat(' ', 0) + Repeat(mark, n) == trimmed;
    assert Visible(trimmed) == Repeat(mark, n);
    assert trimmed[0] == mark;
  }

  lemma {:induction false} AllSpaces(k: nat)
    ensures AllSpace(Repeat(' ', k))
  {
    if k > 0 {
      AllSpaces(k - 1);
      assert Repeat(' ', k)[1..] == Repeat(' ', k - 1);
    }
  }
}
