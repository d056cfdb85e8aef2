/** What the export file promises: its structure is the program's own, each memory is in it once,
    and the same memories always make the same file. */
module ExportLaws {
  import opened Chars
  import opened Export

  // ---- structure ----

  /** The lines that pass a test, in order. */
  function Filter(lines: seq<string>, test: string -> bool): seq<string> {
    if lines == [] then [] else (if test(lines[0]) then [lines[0]] else []) + Filter(lines[1..], test)
  }

  /** Each item written out, one after the other. */
  function Flat<T>(items: seq<T>, write: T -> seq<string>): seq<string> {
    if items == [] then [] else write(items[0]) + Flat(items[1..], write)
  }

  lemma {:induction false} FlatConcat<T>(a: seq<T>, b: seq<T>, write: T -> seq<string>)
    ensures Flat(a + b, write) == Flat(a, write) + Flat(b, write)
    decreases |a|
  {
    if a == [] {
      assert a + b == b;
    } else {
      FlatConcat(a[1..], b, write);
      assert (a + b)[1..] == a[1..] + b;
    }
  }

  /** The lines of a document that are structure, in order. */
  function StructureLines(lines: seq<string>): seq<string> {
    Filter(lines, IsStructure)
  }

  function Headings(topics: seq<string>): (r: seq<string>)
    ensures |r| == |topics| && forall i | 0 <= i < |r| :: r[i] == TopicHeading(topics[i])
  {
    seq(|topics|, i requires 0 <= i < |topics| => TopicHeading(topics[i]))
  }

  lemma {:induction false} FilterConcat(a: seq<string>, b: seq<string>, test: string -> bool)
    ensures Filter(a + b, test) == Filter(a, test) + Filter(b, test)
    decreases |a|
  {
    if a == [] {
      assert a + b == b;
    } else {
      FilterConcat(a[1..], b, test);
      assert (a + b)[0] == a[0] && (a + b)[1..] == a[1..] + b;
      var head := if test(a[0]) then [a[0]] else [];
      assert Filter(a + b, test) == head + Filter(a[1..] + b, test);
    }
  }

  lemma {:induction false} FilterNone(lines: seq<string>, test: string -> bool)
    requires forall l | l in lines :: !test(l)
    ensures Filter(lines, test) == []
    decreases |lines|
  {
    if lines != [] {
      assert forall l | l in lines[1..] :: l in lines;
      FilterNone(lines[1..], test);
    }
  }

  lemma FilterTwo(a: string, b: string, test: string -> bool)
    ensures Filter([a, b], test) == (if test(a) then [a] else []) + (if test(b) then [b] else [])
  {
    var two := [a, b];
    assert two[1..] == [b];
    assert Filter([b], test) == if test(b) then [b] else [] by {
      assert [b][1..] == [];
    }
  }

  /** A line that starts with an ordinary character is text. */
  lemma PlainLine(l: string)
    requires l != "" && !IsSpace(l[0]) && l[0] !in "#>`~-*_="
    ensures !IsStructure(l)
  {
  }

  lemma BlankLine()
    ensures !IsStructure("")
  {
  }

  lemma HeadingLine(l: string)
    requires l != "" && l[0] == '#'
    ensures IsStructure(l)
  {
  }

  lemma BodyIsText(content: string)
    ensures forall l | l in BodyLines(content) :: !IsStructure(l)
  {
    BlankLine();
    forall i | 0 <= i < |ContentLines(content)| ensures !IsStructure(EscapeLine(ContentLines(content)[i])) {
      EscapeIsExact(ContentLines(content)[i]);
    }
  }

  lemma MemoryIsText(m: Saved, date: DateText)
    ensures StructureLines(MemoryLines(m, date)) == []
  {
    BodyIsText(m.content);
    BlankLine();
    PlainLine("Saved " + date(m.createdAt));
    FilterNone(MemoryLines(m, date), IsStructure);
  }

  lemma {:induction false} MemoriesAreText(ms: seq<Saved>, date: DateText)
    ensures StructureLines(AllMemoryLines(ms, date)) == []
    decreases |ms|
  {
    if ms != [] {
      MemoryIsText(ms[0], date);
      FilterConcat(MemoryLines(ms[0], date), AllMemoryLines(ms[1..], date), IsStructure);
      MemoriesAreText(ms[1..], date);
    }
  }

  lemma TopicStructure(topic: string, ms: seq<Saved>, date: DateText)
    ensures StructureLines(TopicLines(topic, ms, date)) == [TopicHeading(topic)]
  {
    var head := ["", TopicHeading(topic)];
    BlankLine();
    HeadingLine(TopicHeading(topic));
    FilterTwo("", TopicHeading(topic), IsStructure);
    MemoriesAreText(ms, date);
    FilterConcat(head, AllMemoryLines(ms, date), IsStructure);
  }

  lemma {:induction false} TopicsStructure(ts: seq<string>, ms: seq<Saved>, date: DateText)
    ensures StructureLines(AllTopicLines(ts, ms, date)) == Headings(ts)
    decreases |ts|
  {
    if ts != [] {
      var here, rest := TopicLines(ts[0], Section(ms, ts[0]), date), AllTopicLines(ts[1..], ms, date);
      TopicStructure(ts[0], Section(ms, ts[0]), date);
      FilterConcat(here, rest, IsStructure);
      TopicsStructure(ts[1..], ms, date);
    }
  }

  lemma IntroStructure(n: nat, date: DateText, exportedAt: int)
    ensures StructureLines(Intro(n, date, exportedAt)) == [HEADING]
  {
    var dated := "Exported " + date(exportedAt) + " — " + CountPhrase(n);
    HeadingLine(HEADING);
    BlankLine();
    PlainLine(dated);
    PlainLine(FileNote());
    FilterTwo(HEADING, "", IsStructure);
    FilterTwo(dated, FileNote(), IsStructure);
    FilterConcat([HEADING, ""], [dated, FileNote()], IsStructure);
    assert Intro(n, date, exportedAt) == [HEADING, ""] + [dated, FileNote()];
  }

  lemma NothingStructure()
    ensures StructureLines(NothingSaved()) == []
  {
  }

  /** For every list of memories, whatever their text, the lines of the file that are structure are
      the title and one heading for each topic, in ascending order. */
  lemma StructureCannotBeForged(ms: seq<Saved>, date: DateText, exportedAt: int)
    ensures StructureLines(DocLines(ms, date, exportedAt)) == [HEADING] + Headings(SortedTopics(TopicsOf(ms)))
  {
    var intro := Intro(|ms|, date, exportedAt);
    IntroStructure(|ms|, date, exportedAt);
    if ms == [] {
      FilterConcat(intro, NothingSaved(), IsStructure);
      NothingStructure();
      assert Headings(SortedTopics(TopicsOf(ms))) == [];
    } else {
      var ts := SortedTopics(TopicsOf(ms));
      FilterConcat(intro, AllTopicLines(ts, ms, date), IsStructure);
      TopicsStructure(ts, ms, date);
    }
  }

  // ---- the text is those lines ----

  lemma EscapeAddsNoLineFeed(l: string)
    requires '\n' !in l
    ensures '\n' !in EscapeLine(l)
  {
    TrimStartParts(l);
  }

  lemma BodyOnLines(content: string)
    ensures forall l | l in BodyLines(content) :: '\n' !in l
  {
    var lines := ContentLines(content);
    forall i | 0 <= i < |lines| ensures '\n' !in EscapeLine(lines[i]) {
      assert lines[i] in lines;
      EscapeAddsNoLineFeed(lines[i]);
    }
  }

  lemma {:induction false} MemoriesOnLines(ms: seq<Saved>, date: DateText)
    requires OneLine(date)
    ensures forall l | l in AllMemoryLines(ms, date) :: '\n' !in l
    decreases |ms|
  {
    if ms != [] {
      BodyOnLines(ms[0].content);
      MemoriesOnLines(ms[1..], date);
    }
  }

  lemma {:induction false} TopicsOnLines(ts: seq<string>, ms: seq<Saved>, date: DateText)
    requires OneLine(date)
    ensures forall l | l in AllTopicLines(ts, ms, date) :: '\n' !in l
    decreases |ts|
  {
    if ts != [] {
      MemoriesOnLines(Section(ms, ts[0]), date);
      TopicsOnLines(ts[1..], ms, date);
    }
  }

  lemma IntroOnLines(n: nat, date: DateText, exportedAt: int)
    requires OneLine(date)
    ensures forall l | l in Intro(n, date, exportedAt) + NothingSaved() :: '\n' !in l
  {
  }

  /** Reading the file back line by line gives exactly the lines written: no memory's text can run
      two lines together or break one apart. */
  lemma FileIsItsLines(ms: seq<Saved>, date: DateText, exportedAt: int)
    requires OneLine(date)
    ensures LinesOf(Text(DocLines(ms, date, exportedAt))) == DocLines(ms, date, exportedAt)
  {
    IntroOnLines(|ms|, date, exportedAt);
    TopicsOnLines(SortedTopics(TopicsOf(ms)), ms, date);
    var doc := DocLines(ms, date, exportedAt);
    forall l | l in doc ensures '\n' !in l {
      assert l in Intro(|ms|, date, exportedAt) + NothingSaved() || l in AllTopicLines(SortedTopics(TopicsOf(ms)), ms, date);
    }
    LinesRoundTrip(doc);
  }

  // ---- canonical ----

  lemma {:induction false} InTopicCounts(ms: seq<Saved>, topic: string, m: Saved)
    ensures multiset(InTopic(ms, topic))[m] == if m.topic == topic then multiset(ms)[m] else 0
    decreases |ms|
  {
    if ms != [] {
      var init, last := ms[..|ms| - 1], ms[|ms| - 1];
      assert ms == init + [last];
      InTopicCounts(init, topic, m);
    }
  }

  lemma SameTopic(a: seq<Saved>, b: seq<Saved>, topic: string)
    requires multiset(a) == multiset(b)
    ensures multiset(InTopic(a, topic)) == multiset(InTopic(b, topic))
  {
    forall m ensures multiset(InTopic(a, topic))[m] == multiset(InTopic(b, topic))[m] {
      InTopicCounts(a, topic, m);
      InTopicCounts(b, topic, m);
    }
  }

  lemma {:induction false} DistinctBySize(ms: seq<Saved>, m: Saved)
    requires DistinctIds(ms)
    ensures multiset(ms)[m] <= 1
    decreases |ms|
  {
    if ms != [] {
      var init, last := ms[..|ms| - 1], ms[|ms| - 1];
      assert ms == init + [last];
      DistinctBySize(init, m);
      if m == last && m in init { assert false; }
    }
  }

  lemma {:induction false} SectionDistinct(ms: seq<Saved>, topic: string)
    requires DistinctIds(ms)
    ensures DistinctIds(InTopic(ms, topic))
    decreases |ms|
  {
    if ms != [] {
      var init, last := ms[..|ms| - 1], ms[|ms| - 1];
      SectionDistinct(init, topic);
      forall i | 0 <= i < |InTopic(init, topic)| ensures InTopic(init, topic)[i].id != last.id {
        assert InTopic(init, topic)[i] in init;
      }
    }
  }

  /** Distinct ids survive any rearrangement. */
  lemma DistinctRearranged(a: seq<Saved>, b: seq<Saved>)
    requires DistinctIds(a) && multiset(a) == multiset(b)
    ensures DistinctIds(b)
  {
    forall i, j | 0 <= i < j < |b| ensures b[i].id != b[j].id {
      if b[i] == b[j] {
        TwiceCounts(b, i, j);
        DistinctBySize(a, b[i]);
      } else {
        assert b[i] in multiset(a) && b[j] in multiset(a);
        var k :| 0 <= k < |a| && a[k] == b[i];
        var l :| 0 <= l < |a| && a[l] == b[j];
      }
    }
  }

  lemma TwiceCounts(b: seq<Saved>, i: nat, j: nat)
    requires i < j < |b| && b[i] == b[j]
    ensures multiset(b)[b[i]] >= 2
  {
    assert b == b[..i] + [b[i]] + b[i + 1..j] + [b[j]] + b[j + 1..];
  }

  lemma SameSection(a: seq<Saved>, b: seq<Saved>, topic: string)
    requires DistinctIds(a) && multiset(a) == multiset(b)
    ensures Section(a, topic) == Section(b, topic)
  {
    SameTopic(a, b, topic);
    SectionDistinct(a, topic);
    DistinctRearranged(InTopic(a, topic), Section(a, topic));
    SortSorts(InTopic(a, topic));
    SortSorts(InTopic(b, topic));
    OrderIsUnique(Section(a, topic), Section(b, topic));
  }

  lemma {:induction false} SameTopicLines(ts: seq<string>, a: seq<Saved>, b: seq<Saved>, date: DateText)
    requires DistinctIds(a) && multiset(a) == multiset(b)
    ensures AllTopicLines(ts, a, date) == AllTopicLines(ts, b, date)
    decreases |ts|
  {
    if ts != [] {
      SameSection(a, b, ts[0]);
      SameTopicLines(ts[1..], a, b, date);
    }
  }

  /** The same memories in any order make the same file. */
  lemma ExportIsCanonical(a: seq<Saved>, b: seq<Saved>, date: DateText, exportedAt: int)
    requires DistinctIds(a) && multiset(a) == multiset(b)
    ensures DocLines(a, date, exportedAt) == DocLines(b, date, exportedAt)
  {
    assert |a| == |multiset(a)| && |b| == |multiset(b)|;
    forall m ensures m in a <==> m in b { assert m in a <==> m in multiset(a); }
    assert TopicsOf(a) == TopicsOf(b);
    SameTopicLines(SortedTopics(TopicsOf(a)), a, b, date);
  }

  // ---- each memory once ----

  /** The file after its introduction, block by block. */
  datatype Block = Heading(topic: string) | Entry(m: Saved)

  function BlockLines(b: Block, date: DateText): seq<string> {
    match b
    case Heading(topic) => ["", TopicHeading(topic)]
    case Entry(m) => MemoryLines(m, date)
  }

  function Writer(date: DateText): Block -> seq<string> {
    (b: Block) => BlockLines(b, date)
  }

  function Entries(ms: seq<Saved>): (r: seq<Block>)
    ensures |r| == |ms| && forall i | 0 <= i < |r| :: r[i] == Entry(ms[i])
  {
    seq(|ms|, i requires 0 <= i < |ms| => Entry(ms[i]))
  }

  function Blocks(ts: seq<string>, ms: seq<Saved>): seq<Block> {
    if ts == [] then [] else [Heading(ts[0])] + Entries(Section(ms, ts[0])) + Blocks(ts[1..], ms)
  }

  lemma {:induction false} EntriesLaid(ms: seq<Saved>, date: DateText)
    ensures Flat(Entries(ms), Writer(date)) == AllMemoryLines(ms, date)
    decreases |ms|
  {
    if ms != [] {
      EntriesLaid(ms[1..], date);
      assert Entries(ms)[1..] == Entries(ms[1..]);
    }
  }

  lemma {:induction false} BlocksLaid(ts: seq<string>, ms: seq<Saved>, date: DateText)
    ensures Flat(Blocks(ts, ms), Writer(date)) == AllTopicLines(ts, ms, date)
    decreases |ts|
  {
    if ts != [] {
      var head, section, rest := [Heading(ts[0])], Entries(Section(ms, ts[0])), Blocks(ts[1..], ms);
      FlatConcat(head + section, rest, Writer(date));
      FlatConcat(head, section, Writer(date));
      EntriesLaid(Section(ms, ts[0]), date);
      BlocksLaid(ts[1..], ms, date);
    }
  }

  lemma {:induction false} EntriesCount(ms: seq<Saved>, m: Saved)
    ensures multiset(Entries(ms))[Entry(m)] == multiset(ms)[m]
    decreases |ms|
  {
    if ms != [] {
      var init, last := ms[..|ms| - 1], ms[|ms| - 1];
      EntriesCount(init, m);
      assert ms == init + [last] && Entries(ms) == Entries(init) + [Entry(last)];
    }
  }

  lemma {:induction false} BlocksCount(ts: seq<string>, ms: seq<Saved>, m: Saved)
    requires forall i, j | 0 <= i < j < |ts| :: ts[i] != ts[j]
    ensures multiset(Blocks(ts, ms))[Entry(m)] == if m.topic in ts then multiset(ms)[m] else 0
    decreases |ts|
  {
    if ts != [] {
      EntriesCount(Section(ms, ts[0]), m);
      InTopicCounts(ms, ts[0], m);
      BlocksCount(ts[1..], ms, m);
      assert m.topic in ts <==> m.topic == ts[0] || m.topic in ts[1..];
      assert m.topic == ts[0] ==> m.topic !in ts[1..];
    }
  }

  /** The heading nearest above block `i` is that of `topic`, at `h`. */
  ghost predicate Under(blocks: seq<Block>, h: nat, i: nat, topic: string) {
    h < i < |blocks| && blocks[h] == Heading(topic) && forall k | h < k < i :: blocks[k].Entry?
  }

  /** Every memory of the run stands under its own topic's heading. */
  ghost predicate UnderOwnTopics(blocks: seq<Block>) {
    forall i | 0 <= i < |blocks| && blocks[i].Entry? :: exists h: nat :: Under(blocks, h, i, blocks[i].m.topic)
  }

  lemma UnderShift(a: seq<Block>, b: seq<Block>)
    requires UnderOwnTopics(a) && UnderOwnTopics(b)
    ensures UnderOwnTopics(a + b)
  {
    var all := a + b;
    forall i | 0 <= i < |all| && all[i].Entry? ensures exists h: nat :: Under(all, h, i, all[i].m.topic) {
      if i < |a| {
        var h: nat :| Under(a, h, i, a[i].m.topic);
        assert Under(all, h, i, all[i].m.topic);
      } else {
        var j: nat := i - |a|;
        var h: nat :| Under(b, h, j, b[j].m.topic);
        forall k | h + |a| < k < i ensures all[k].Entry? { assert all[k] == b[k - |a|]; }
        assert Under(all, h + |a|, i, all[i].m.topic);
      }
    }
  }

  lemma SectionUnder(topic: string, ms: seq<Saved>)
    requires forall m | m in ms :: m.topic == topic
    ensures UnderOwnTopics([Heading(topic)] + Entries(ms))
  {
    var blocks := [Heading(topic)] + Entries(ms);
    forall i | 0 <= i < |blocks| && blocks[i].Entry? ensures exists h: nat :: Under(blocks, h, i, blocks[i].m.topic) {
      assert blocks[i].m in ms;
      assert Under(blocks, 0, i, blocks[i].m.topic);
    }
  }

  lemma SectionTopic(ms: seq<Saved>, topic: string)
    ensures forall m | m in Section(ms, topic) :: m.topic == topic
  {
    forall m | m in Section(ms, topic) ensures m.topic == topic {
      assert m in multiset(Section(ms, topic));
      assert m in multiset(InTopic(ms, topic));
    }
  }

  lemma {:induction false} BlocksUnder(ts: seq<string>, ms: seq<Saved>)
    ensures UnderOwnTopics(Blocks(ts, ms))
    decreases |ts|
  {
    if ts != [] {
      SectionTopic(ms, ts[0]);
      SectionUnder(ts[0], Section(ms, ts[0]));
      BlocksUnder(ts[1..], ms);
      UnderShift([Heading(ts[0])] + Entries(Section(ms, ts[0])), Blocks(ts[1..], ms));
    }
  }

  function FileBlocks(ms: seq<Saved>): seq<Block> {
    Blocks(SortedTopics(TopicsOf(ms)), ms)
  }

  /** Every memory is printed exactly once: after its introduction the file is a run of headings and
      memories, in which each memory occurs as often as in the input, under its own topic's heading, and
      every topic is oldest first. */
  lemma EachPrintedOnce(ms: seq<Saved>, date: DateText, exportedAt: int, m: Saved)
    requires ms != []
    ensures DocLines(ms, date, exportedAt) == Intro(|ms|, date, exportedAt) + Flat(FileBlocks(ms), Writer(date))
    ensures multiset(FileBlocks(ms))[Entry(m)] == multiset(ms)[m]
    ensures UnderOwnTopics(FileBlocks(ms))
    ensures var section := Section(ms, m.topic);
      forall i, j | 0 <= i < j < |section| ::
        section[i].createdAt < section[j].createdAt || (section[i].createdAt == section[j].createdAt && section[i].id <= section[j].id)
  {
    var ts := SortedTopics(TopicsOf(ms));
    BlocksLaid(ts, ms, date);
    TopicsDiffer(ts);
    BlocksCount(ts, ms, m);
    if m in ms { assert m.topic in ts; } else { assert multiset(ms)[m] == 0; }
    BlocksUnder(ts, ms);
    SortSorts(InTopic(ms, m.topic));
  }

  lemma TopicsDiffer(ts: seq<string>)
    requires forall i, j | 0 <= i < j < |ts| :: Precedes(ts[i], ts[j])
    ensures forall i, j | 0 <= i < j < |ts| :: ts[i] != ts[j]
  {
    forall i, j | 0 <= i < j < |ts| ensures ts[i] != ts[j] { PrecedesIrreflexive(ts[i]); }
  }
}
