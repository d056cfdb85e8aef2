/** The export's escape, told from the characters of a line: which lines a Markdown reader takes for
    structure, which of them are written with a backslash, and that none but the program's own is left. */
module ExportMarks {
  import opened Chars
  import opened Decimals
  import opened Export
  import opened ExportLaws
  import opened ExportLimits

  /** `k` is where the line starts, its indentation aside. */
  ghost predicate StartsAt(line: string, k: nat) {
    k < |line| && !IsSpace(line[k]) && forall i | 0 <= i < k :: IsSpace(line[i])
  }

  /** Nothing but one of the rule marks, three times or more, and white space. */
  ghost predicate Rule(line: string, mark: char) {
    && (mark == '-' || mark == '*' || mark == '_' || mark == '=')
    && (forall i | 0 <= i < |line| :: line[i] == mark || IsSpace(line[i]))
    && exists a, b, c | 0 <= a < b < c < |line| :: line[a] == mark && line[b] == mark && line[c] == mark
  }

  /** A heading, a quotation, a code fence or a rule begins at `k`. */
  ghost predicate OpensAt(line: string, k: nat)
    requires k < |line|
  {
    || line[k] == '#'
    || line[k] == '>'
    || (k + 2 < |line| && line[k] == '`' && line[k + 1] == '`' && line[k + 2] == '`')
    || (k + 2 < |line| && line[k] == '~' && line[k + 1] == '~' && line[k + 2] == '~')
    || Rule(line, line[k])
  }

  ghost predicate Opens(line: string) {
    exists k: nat :: StartsAt(line, k) && OpensAt(line, k)
  }

  // ---- against the program's test ----

  /** A visible character, and what is visible before and after it. */
  lemma VisibleAround(s: string, p: nat)
    requires p < |s| && !IsSpace(s[p])
    ensures Visible(s) == Visible(s[..p]) + [s[p]] + Visible(s[p + 1..])
  {
    assert s == s[..p] + s[p..] && s[p..][1..] == s[p + 1..];
    VisibleConcat(s[..p], s[p..]);
  }

  lemma {:induction false} FirstVisible(s: string) returns (p: nat)
    requires Visible(s) != ""
    ensures StartsAt(s, p) && Visible(s) == [s[p]] + Visible(s[p + 1..])
    decreases |s|
  {
    if !IsSpace(s[0]) { return 0; }
    p := FirstVisible(s[1..]);
    p := p + 1;
    assert s[1..][p - 1] == s[p] && s[1..][p..] == s[p + 1..];
    forall i | 0 <= i < p ensures IsSpace(s[i]) { if i > 0 { assert s[i] == s[1..][i - 1]; } }
  }

  lemma {:induction false} VisibleMembers(s: string, c: char)
    ensures c in Visible(s) <==> c in s && !IsSpace(c)
    decreases |s|
  {
    if s != "" { VisibleMembers(s[1..], c); }
  }

  lemma ThreeVisible(s: string) returns (a: nat, b: nat, c: nat)
    requires |Visible(s)| >= 3
    ensures a < b < c < |s| && !IsSpace(s[a]) && !IsSpace(s[b]) && !IsSpace(s[c])
  {
    a := FirstVisible(s);
    var t := s[a + 1..];
    var i := FirstVisible(t);
    var u := t[i + 1..];
    var j := FirstVisible(u);
    b, c := a + 1 + i, a + 1 + i + 1 + j;
    assert s[b] == t[i] && s[c] == u[j];
  }

  lemma VisibleThree(s: string, a: nat, b: nat, c: nat)
    requires a < b < c < |s| && !IsSpace(s[a]) && !IsSpace(s[b]) && !IsSpace(s[c])
    ensures |Visible(s)| >= 3
  {
    VisibleAround(s, a);
    var t := s[a + 1..];
    assert t[b - a - 1] == s[b];
    VisibleAround(t, b - a - 1);
    var u := t[b - a..];
    assert u[c - b - 1] == s[c];
    VisibleAround(u, c - b - 1);
  }

  lemma RuleIff(line: string, k: nat)
    requires StartsAt(line, k)
    ensures Rule(line, line[k]) <==> IsRule(line)
  {
    if Rule(line, line[k]) { RuleIsRule(line, line[k]); }
    if IsRule(line) { RuleByPlaces(line, k); }
  }

  lemma RuleIsRule(line: string, mark: char)
    requires Rule(line, mark)
    ensures IsRule(line)
  {
    var a, b, c :| 0 <= a < b < c < |line| && line[a] == mark && line[b] == mark && line[c] == mark;
    VisibleThree(line, a, b, c);
    var v := Visible(line);
    forall i | 0 <= i < |v| ensures v[i] == mark { VisibleMembers(line, v[i]); }
  }

  lemma RuleByPlaces(line: string, k: nat)
    requires IsRule(line) && StartsAt(line, k)
    ensures Rule(line, line[k])
  {
    var v := Visible(line);
    forall i | 0 <= i < |line| && !IsSpace(line[i]) ensures line[i] == v[0] { VisibleMembers(line, line[i]); }
    var a, b, c := ThreeVisible(line);
    assert line[a] == line[k] && line[b] == line[k] && line[c] == line[k];
  }

  lemma {:induction false} TrimmedAt(line: string, k: nat)
    requires StartsAt(line, k)
    ensures TrimStart(line) == line[k..] && Visible(line[k..]) == Visible(line)
    decreases k
  {
    if k > 0 {
      assert IsSpace(line[0]);
      TrimmedAt(line[1..], k - 1);
      assert line[1..][k - 1..] == line[k..];
    } else {
      assert line[0..] == line;
    }
  }

  /** The test the escape applies to a line is this one, on characters. */
  lemma StartsStructureIff(line: string, k: nat)
    requires StartsAt(line, k)
    ensures StartsStructure(TrimStart(line)) <==> OpensAt(line, k)
  {
    TrimmedAt(line, k);
    RuleIff(line, k);
    var t := line[k..];
    assert t[0] == line[k] && (k + 2 < |line| <==> |t| >= 3);
    if |t| >= 3 {
      assert t[..3] == [line[k], line[k + 1], line[k + 2]];
      assert StartsWith(t, "```") <==> t[..3] == "```";
      assert StartsWith(t, "~~~") <==> t[..3] == "~~~";
    }
    assert StartsWith(t, "#") <==> t[0] == '#';
    assert StartsWith(t, ">") <==> t[0] == '>';
    assert IsRule(t) <==> IsRule(line);
  }

  lemma {:induction false} StartsSomewhere(line: string) returns (k: nat)
    ensures k == |line| || StartsAt(line, k)
    ensures k == |line| ==> AllSpace(line)
    decreases |line|
  {
    if line == "" || !IsSpace(line[0]) { return 0; }
    k := StartsSomewhere(line[1..]);
    k := k + 1;
    assert k < |line| ==> line[k] == line[1..][k - 1];
    forall i | 0 <= i < k && k < |line| ensures IsSpace(line[i]) { if i > 0 { assert line[i] == line[1..][i - 1]; } }
  }

  lemma OneStart(line: string, k: nat, j: nat)
    requires StartsAt(line, k) && StartsAt(line, j)
    ensures k == j
  {
  }

  lemma {:induction false} BlankTrims(line: string)
    requires AllSpace(line)
    ensures TrimStart(line) == "" && forall i | 0 <= i < |line| :: IsSpace(line[i])
    decreases |line|
  {
    if line != "" {
      BlankTrims(line[1..]);
      forall i | 0 <= i < |line| ensures IsSpace(line[i]) { if i > 0 { assert line[i] == line[1..][i - 1]; } }
    }
  }

  lemma NothingOpensBlank(line: string)
    requires AllSpace(line)
    ensures !IsStructure(line) && !Opens(line)
  {
    BlankTrims(line);
    assert Visible("") == "";
  }

  lemma OpensIff(line: string)
    ensures Opens(line) <==> IsStructure(line)
  {
    var k := StartsSomewhere(line);
    if k == |line| {
      NothingOpensBlank(line);
    } else {
      StartsStructureIff(line, k);
      if j: nat :| StartsAt(line, j) && OpensAt(line, j) { OneStart(line, k, j); }
    }
  }

  // ---- what is written ----

  /** A line that opens a heading, a quotation, a code fence or a rule is written with a backslash in front
      of the mark; every other line, blank ones too, is written as it is. */
  lemma EscapesExactly(line: string)
    ensures forall k: nat | StartsAt(line, k) ::
      EscapeLine(line) == if OpensAt(line, k) then line[..k] + "\\" + line[k..] else line
    ensures (forall i | 0 <= i < |line| :: IsSpace(line[i])) ==> EscapeLine(line) == line
    ensures !Opens(EscapeLine(line))
  {
    forall k: nat | StartsAt(line, k)
      ensures EscapeLine(line) == if OpensAt(line, k) then line[..k] + "\\" + line[k..] else line
    {
      StartsStructureIff(line, k);
      TrimmedAt(line, k);
      assert |line| - |TrimStart(line)| == k;
    }
    if forall i | 0 <= i < |line| :: IsSpace(line[i]) {
      var k := StartsSomewhere(line);
      NothingOpensBlank(line);
    }
    EscapeIsExact(line);
    OpensIff(EscapeLine(line));
  }

  // ---- the lines of a text ----

  /** Lines, each with what ended it. */
  function Ended(lines: seq<string>, ends: seq<string>): string
    requires |lines| == |ends|
  {
    if lines == [] then "" else lines[0] + ends[0] + Ended(lines[1..], ends[1..])
  }

  /** A line feed ends it, with or without a carriage return before; or it is the last and the text does. */
  ghost predicate Ends(line: string, end: string, last: bool) {
    || (end == "\n" && (line != "" ==> line[|line| - 1] != '\r'))
    || end == "\r\n"
    || (last && end == "" && line != "")
  }

  /** A text is its lines, each with its end; none has a line feed in it. */
  lemma {:induction false} LinesAreTheText(s: string) returns (ends: seq<string>)
    ensures |ends| == |ContentLines(s)| && Ended(ContentLines(s), ends) == s
    ensures forall i | 0 <= i < |ends| :: Ends(ContentLines(s)[i], ends[i], i == |ends| - 1)
    ensures forall l | l in ContentLines(s) :: '\n' !in l
    decreases |s|
  {
    var lines := ContentLines(s);
    if s == "" { return []; }
    var i := Find(s, '\n');
    if i == |s| {
      ends := [""];
      assert lines == [s] && lines[1..] == [] && ends[1..] == [];
    } else {
      var rest := LinesAreTheText(s[i + 1..]);
      var end := if i > 0 && s[i - 1] == '\r' then "\r\n" else "\n";
      ends := [end] + rest;
      assert lines == [lines[0]] + ContentLines(s[i + 1..]);
      FirstLine(s, i, end);
      OneLineMore(lines[0], end, ContentLines(s[i + 1..]), rest);
    }
  }

  lemma OneLineMore(line: string, end: string, lines: seq<string>, ends: seq<string>)
    requires |lines| == |ends| && Ends(line, end, false) && forall i | 0 <= i < |ends| :: Ends(lines[i], ends[i], i == |ends| - 1)
    ensures Ended([line] + lines, [end] + ends) == line + end + Ended(lines, ends)
    ensures forall i | 0 <= i <= |ends| :: Ends(([line] + lines)[i], ([end] + ends)[i], i == |ends|)
  {
    assert ([line] + lines)[1..] == lines && ([end] + ends)[1..] == ends;
  }

  lemma FirstLine(s: string, i: nat, end: string)
    requires i == Find(s, '\n') < |s| && end == if i > 0 && s[i - 1] == '\r' then "\r\n" else "\n"
    ensures ContentLines(s) != [] && ContentLines(s)[0] + end + s[i + 1..] == s && Ends(ContentLines(s)[0], end, false)
  {
    if i > 0 && s[i - 1] == '\r' {
      CutAtReturn(s, i);
      assert ContentLines(s)[0] == s[..i - 1];
    } else {
      CutAt(s, i);
      assert ContentLines(s)[0] == s[..i];
    }
  }

  lemma CutAt(s: string, i: nat)
    requires i < |s| && s[i] == '\n'
    ensures s[..i] + "\n" + s[i + 1..] == s
  {
  }

  lemma CutAtReturn(s: string, i: nat)
    requires 0 < i < |s| && s[i] == '\n' && s[i - 1] == '\r'
    ensures s[..i - 1] + "\r\n" + s[i + 1..] == s
  {
  }

  /** The lines a memory takes up: a blank one, those of its text as they are escaped, or one blank one when
      it has none, and the day it was saved. */
  lemma MemoryIsWritten(m: Saved, date: DateText)
    ensures var lines, written := ContentLines(m.content), MemoryLines(m, date);
      && |written| == (if lines == [] then 1 else |lines|) + 2
      && written[0] == "" && written[|written| - 1] == "Saved " + date(m.createdAt)
      && (lines == [] ==> written[1] == "")
      && forall i | 0 <= i < |lines| :: written[i + 1] == EscapeLine(lines[i])
  {
  }

  lemma DatedLine(n: nat, date: DateText, exportedAt: int)
    ensures var line := Intro(n, date, exportedAt)[2];
      && (n == 1 ==> line == "Exported " + date(exportedAt) + " — 1 memory")
      && (n != 1 ==> exists d: string :: AllDigits(d) && Value(d) == n && line == "Exported " + date(exportedAt) + " — " + d + " memories")
  {
    if n != 1 {
      var d := Decimal(n);
      ValueOfDecimal(n);
      assert "Exported " + date(exportedAt) + " — " + (d + " memories") == "Exported " + date(exportedAt) + " — " + d + " memories";
    }
  }

  /** How the file begins: its title, and when it was written and of how many memories. */
  lemma IntroIsWritten(ms: seq<Saved>, date: DateText, exportedAt: int)
    ensures var doc := DocLines(ms, date, exportedAt);
      && |doc| >= 4 && doc[0] == "# My Zaaheen memories" && doc[1] == ""
      && (|ms| == 1 ==> doc[2] == "Exported " + date(exportedAt) + " — 1 memory")
      && (|ms| != 1 ==> exists d: string ::
            AllDigits(d) && Value(d) == |ms| && doc[2] == "Exported " + date(exportedAt) + " — " + d + " memories")
  {
    DatedLine(|ms|, date, exportedAt);
    assert DocLines(ms, date, exportedAt)[2] == Intro(|ms|, date, exportedAt)[2];
  }

  lemma {:induction false} FilterSame(lines: seq<string>, a: string -> bool, b: string -> bool)
    requires forall l :: a(l) <==> b(l)
    ensures Filter(lines, a) == Filter(lines, b)
    decreases |lines|
  {
    if lines != [] { FilterSame(lines[1..], a, b); }
  }

  /** Line breaks in a topic become spaces; nothing else in it changes. */
  ghost predicate OnOneLine(topic: string, written: string) {
    |written| == |topic| && forall i | 0 <= i < |topic| :: written[i] == if topic[i] in "\n\r" then ' ' else topic[i]
  }

  /** The first character in which they differ is less, or the first ends there. */
  ghost predicate Comes(a: string, b: string) {
    exists n | 0 <= n <= |a| && n < |b| :: a[..n] == b[..n] && (n == |a| || a[n] < b[n])
  }

  lemma TopicsCome(topics: seq<string>)
    requires forall i, j | 0 <= i < j < |topics| :: Precedes(topics[i], topics[j])
    ensures forall i, j | 0 <= i < j < |topics| :: Comes(topics[i], topics[j])
  {
    forall i, j | 0 <= i < j < |topics| ensures Comes(topics[i], topics[j]) {
      var n := WhereItDiffers(topics[i], topics[j]);
    }
  }

  lemma HeadingsAre(topics: seq<string>)
    ensures forall i | 0 <= i < |topics| :: "## " <= Headings(topics)[i] && OnOneLine(topics[i], Headings(topics)[i][3..])
  {
    forall i | 0 <= i < |topics| ensures "## " <= Headings(topics)[i] && OnOneLine(topics[i], Headings(topics)[i][3..]) {
      assert Headings(topics)[i] == "## " + HeadingSafe(topics[i]);
      assert Headings(topics)[i][3..] == HeadingSafe(topics[i]);
    }
  }

  /** Of all the lines of the file, those that open anything are the title and one "## " heading for each
      topic, the topics each once and in the order of their characters, whatever the memories say. */
  lemma OnlyHeadingsOpen(ms: seq<Saved>, date: DateText, exportedAt: int) returns (topics: seq<string>, headings: seq<string>)
    ensures Filter(DocLines(ms, date, exportedAt), (l: string) => Opens(l)) == ["# My Zaaheen memories"] + headings
    ensures |headings| == |topics|
    ensures forall i | 0 <= i < |topics| :: "## " <= headings[i] && OnOneLine(topics[i], headings[i][3..])
    ensures forall t :: t in topics <==> exists m :: m in ms && m.topic == t
    ensures forall i, j | 0 <= i < j < |topics| :: Comes(topics[i], topics[j])
  {
    topics := SortedTopics(TopicsOf(ms));
    headings := Headings(topics);
    StructureCannotBeForged(ms, date, exportedAt);
    forall l: string ensures Opens(l) <==> IsStructure(l) { OpensIff(l); }
    FilterSame(DocLines(ms, date, exportedAt), (l: string) => Opens(l), IsStructure);
    TopicsCome(topics);
    HeadingsAre(topics);
  }
}
