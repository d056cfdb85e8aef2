/** "Download my memories": the readable file, and what a memory's text can and cannot do to it. */
module Export {
  import opened Chars
  import opened Decimals

  /** What the file shows of a memory. Ids compare as their text does. */
  datatype Saved = Saved(id: nat, topic: string, content: string, createdAt: int)

  // ---- escaping ----

  predicate StartsWith(s: string, p: string) {
    p <= s
  }

  function Visible(s: string): string {
    if s == "" then "" else if IsSpace(s[0]) then Visible(s[1..]) else [s[0]] + Visible(s[1..])
  }

  /** Three or more of one of the rule marks, alone on a line. */
  predicate IsRule(line: string) {
    var v := Visible(line);
    && |v| >= 3
    && v[0] in "-*_="
    && forall i | 0 <= i < |v| :: v[i] == v[0]
  }

  predicate StartsStructure(trimmed: string) {
    || StartsWith(trimmed, "#")
    || StartsWith(trimmed, ">")
    || StartsWith(trimmed, "```")
    || StartsWith(trimmed, "~~~")
    || IsRule(trimmed)
  }

  /** A line of the file that is structure, its indentation aside. */
  predicate IsStructure(line: string) {
    StartsStructure(TrimStart(line))
  }

  function EscapeLine(line: string): string {
    var trimmed := TrimStart(line);
    if StartsStructure(trimmed) then line[..|line| - |trimmed|] + "\\" + trimmed else line
  }

  /** `str::lines`: split at line feeds, a final empty piece dropped, a carriage return before a line
      feed dropped with it. */
  function ContentLines(s: string): (r: seq<string>)
    ensures forall l | l in r :: '\n' !in l
    decreases |s|
  {
    if s == "" then []
    else
      var i := Find(s, '\n');
      if i == |s| then
        assert s[..i] == s;
        [s]
      else [if i > 0 && s[i - 1] == '\r' then s[..i - 1] else s[..i]] + ContentLines(s[i + 1..])
  }

  function EscapeLines(lines: seq<string>): (r: seq<string>)
    ensures |r| == |lines| && forall i | 0 <= i < |r| :: r[i] == EscapeLine(lines[i])
  {
    seq(|lines|, i requires 0 <= i < |lines| => EscapeLine(lines[i]))
  }

  /** The lines a memory's text takes up in the file. */
  function BodyLines(content: string): (r: seq<string>)
    ensures r != []
  {
    if ContentLines(content) == [] then [""] else EscapeLines(ContentLines(content))
  }

  function Join(lines: seq<string>): string {
    if lines == [] then "" else if |lines| == 1 then lines[0] else lines[0] + "\n" + Join(lines[1..])
  }

  function BodySafe(content: string): string {
    Join(EscapeLines(ContentLines(content)))
  }

  function HeadingSafe(topic: string): (r: string)
    ensures |r| == |topic|
    ensures forall i | 0 <= i < |r| :: r[i] == if topic[i] == '\n' || topic[i] == '\r' then ' ' else topic[i]
  {
    seq(|topic|, i requires 0 <= i < |topic| => if topic[i] == '\n' || topic[i] == '\r' then ' ' else topic[i])
  }

  /** An escaped line is never structure, and differs from its source by one backslash in front of
      the mark, or not at all when the source was not structure. */
  lemma EscapeIsExact(line: string)
    ensures !IsStructure(EscapeLine(line))
    ensures IsStructure(line) ==>
      exists k | 0 <= k < |line| :: AllSpace(line[..k]) && EscapeLine(line) == line[..k] + "\\" + line[k..]
    ensures !IsStructure(line) ==> EscapeLine(line) == line
  {
    var trimmed := TrimStart(line);
    if StartsStructure(trimmed) {
      var k := |line| - |trimmed|;
      TrimStartParts(line);
      assert trimmed != "" by { assert Visible("") == ""; }
      assert EscapeLine(line) == line[..k] + "\\" + line[k..];
      var marked := "\\" + trimmed;
      TrimStartOf(line[..k], marked);
      assert line[..k] + marked == EscapeLine(line);
      assert Visible(marked)[0] == '\\';
    }
  }

  // ---- the document ----

  const HEADING := "# My Zaaheen memories"

  function CountPhrase(n: nat): string {
    if n == 1 then "1 memory" else Decimal(n) + " memories"
  }

  /** How a date is written; any function whose text stays on one line. */
  type DateText = int -> string

  ghost predicate OneLine(date: DateText) {
    forall at :: '\n' !in date(at)
  }

  /** A line of the program's own prose. */
  predicate Prose(l: string) {
    l != "" && !IsSpace(l[0]) && l[0] !in "#>`~-*_=" && '\n' !in l
  }

  function FileNote(): (l: string)
    ensures Prose(l)
  {
    "This file came " + "from your own " + "computer. " + "Nothing was " + "sent anywhere."
  }

  function NothingNote(): (l: string)
    ensures Prose(l)
  {
    "There are no " + "memories saved " + "yet, so there " + "is nothing to " + "list here."
  }

  function ElsewhereNote(): (l: string)
    ensures Prose(l)
  {
    "If you expected " + "to see something, " + "your memories " + "may be on another " + "computer."
  }

  function Intro(n: nat, date: DateText, exportedAt: int): seq<string> {
    [HEADING, "", "Exported " + date(exportedAt) + " — " + CountPhrase(n), FileNote()]
  }

  function NothingSaved(): seq<string> {
    ["", NothingNote(), ElsewhereNote()]
  }

  function MemoryLines(m: Saved, date: DateText): seq<string> {
    [""] + BodyLines(m.content) + ["Saved " + date(m.createdAt)]
  }

  function TopicHeading(topic: string): string {
    "## " + HeadingSafe(topic)
  }

  function AllMemoryLines(ms: seq<Saved>, date: DateText): seq<string> {
    if ms == [] then [] else MemoryLines(ms[0], date) + AllMemoryLines(ms[1..], date)
  }

  function TopicLines(topic: string, ms: seq<Saved>, date: DateText): seq<string> {
    ["", TopicHeading(topic)] + AllMemoryLines(ms, date)
  }

  // ---- order ----

  /** Oldest first; the id's text breaks ties. */
  predicate OlderOrSame(a: Saved, b: Saved) {
    a.createdAt < b.createdAt || (a.createdAt == b.createdAt && a.id <= b.id)
  }

  ghost predicate InOrder(ms: seq<Saved>) {
    forall i, j | 0 <= i < j < |ms| :: OlderOrSame(ms[i], ms[j])
  }

  function Insert(m: Saved, ms: seq<Saved>): (r: seq<Saved>)
    ensures multiset(r) == multiset(ms) + multiset{m}
  {
    if ms == [] then [m]
    else
      assert ms == [ms[0]] + ms[1..];
      if OlderOrSame(m, ms[0]) then [m] + ms else [ms[0]] + Insert(m, ms[1..])
  }

  /** The library's stable sort, as a function: later items go after earlier equal ones. */
  function SortByAge(ms: seq<Saved>): (r: seq<Saved>)
    ensures multiset(r) == multiset(ms)
  {
    if ms == [] then []
    else
      assert ms == [ms[0]] + ms[1..];
      Insert(ms[0], SortByAge(ms[1..]))
  }

  lemma {:induction false} InsertKeepsOrder(m: Saved, ms: seq<Saved>)
    requires InOrder(ms)
    ensures InOrder(Insert(m, ms))
  {
    if ms != [] && !OlderOrSame(m, ms[0]) {
      InsertKeepsOrder(m, ms[1..]);
      var rest := Insert(m, ms[1..]);
      forall k | 0 <= k < |rest| ensures OlderOrSame(ms[0], rest[k]) {
        assert rest[k] in multiset(rest);
        if rest[k] != m { assert rest[k] in ms[1..]; }
      }
    }
  }

  lemma {:induction false} SortSorts(ms: seq<Saved>)
    ensures InOrder(SortByAge(ms))
  {
    if ms != [] {
      SortSorts(ms[1..]);
      InsertKeepsOrder(ms[0], SortByAge(ms[1..]));
    }
  }

  ghost predicate DistinctIds(ms: seq<Saved>) {
    forall i, j | 0 <= i < j < |ms| :: ms[i].id != ms[j].id
  }

  lemma SameOldest(a: seq<Saved>, b: seq<Saved>)
    requires InOrder(a) && InOrder(b) && multiset(a) == multiset(b) && DistinctIds(a) && a != []
    ensures b != [] && a[0] == b[0]
  {
    assert a[0] in multiset(b);
    var j :| 0 <= j < |b| && b[j] == a[0];
    assert b[0] in multiset(a);
    var i :| 0 <= i < |a| && a[i] == b[0];
  }

  lemma TailCounts(a: seq<Saved>)
    requires a != []
    ensures multiset(a[1..]) == multiset(a) - multiset{a[0]}
  {
    assert a == [a[0]] + a[1..];
  }

  /** Distinct memories have one order by age. */
  lemma {:induction false} OrderIsUnique(a: seq<Saved>, b: seq<Saved>)
    requires InOrder(a) && InOrder(b) && multiset(a) == multiset(b) && DistinctIds(a)
    ensures a == b
    decreases |a|
  {
    if a == [] {
      assert |multiset(b)| == |b|;
    } else {
      SameOldest(a, b);
      TailCounts(a);
      TailCounts(b);
      OrderIsUnique(a[1..], b[1..]);
      assert a == [a[0]] + a[1..] && b == [b[0]] + b[1..];
    }
  }

  // ---- topics ----

  function TopicsOf(ms: seq<Saved>): (ts: set<string>) {
    set m | m in ms :: m.topic
  }

  /** `t` comes no later than any of `ts`. */
  predicate First(ts: set<string>, t: string) {
    forall u | u in ts :: u == t || Precedes(t, u)
  }

  lemma FirstOfTwo(ts: set<string>, x: string, y: string)
    requires First(ts - {x}, y) && y in ts && x != y
    ensures First(ts, if Precedes(x, y) then x else y)
  {
    PrecedesTotal(x, y);
    forall u | u in ts && u != x && u != y ensures Precedes(if Precedes(x, y) then x else y, u) {
      assert u in ts - {x};
      if Precedes(x, y) { PrecedesTransitive(x, y, u); }
    }
  }

  lemma {:induction false} LeastTopicExists(ts: set<string>)
    requires ts != {}
    ensures exists t :: t in ts && First(ts, t)
    decreases ts
  {
    var x :| x in ts;
    var rest := ts - {x};
    assert ts == rest + {x};
    if rest == {} {
      assert First(ts, x);
    } else {
      LeastTopicExists(rest);
      var y :| y in rest && First(rest, y);
      FirstOfTwo(ts, x, y);
      var t := if Precedes(x, y) then x else y;
      assert t in ts && First(ts, t);
    }
  }

  lemma OneFirst(ts: set<string>, t: string, u: string)
    requires t in ts && u in ts && First(ts, t) && First(ts, u)
    ensures t == u
  {
    PrecedesTotal(t, u);
  }

  function LeastTopic(ts: set<string>): (t: string)
    requires ts != {}
    ensures t in ts && First(ts, t)
  {
    LeastTopicExists(ts);
    assert forall t, u | t in ts && u in ts && First(ts, t) && First(ts, u) :: t == u by {
      forall t, u | t in ts && u in ts && First(ts, t) && First(ts, u) ensures t == u { OneFirst(ts, t, u); }
    }
    var t :| t in ts && First(ts, t);
    t
  }

  /** The keys of the `BTreeMap`, in its order. */
  function SortedTopics(ts: set<string>): (r: seq<string>)
    ensures forall t :: t in r <==> t in ts
    ensures |r| == |ts|
    ensures forall i, j | 0 <= i < j < |r| :: Precedes(r[i], r[j])
  {
    if ts == {} then []
    else
      var t := LeastTopic(ts);
      var rest := SortedTopics(ts - {t});
      assert forall i | 0 <= i < |rest| :: rest[i] in rest && rest[i] in ts - {t};
      [t] + rest
  }

  function InTopic(ms: seq<Saved>, topic: string): (r: seq<Saved>)
    ensures forall m :: m in r <==> m in ms && m.topic == topic
  {
    if ms == [] then []
    else
      var init, last := ms[..|ms| - 1], ms[|ms| - 1];
      assert ms == init + [last];
      if last.topic == topic then InTopic(init, topic) + [last] else InTopic(init, topic)
  }

  function Section(ms: seq<Saved>, topic: string): seq<Saved> {
    SortByAge(InTopic(ms, topic))
  }

  function AllTopicLines(ts: seq<string>, ms: seq<Saved>, date: DateText): seq<string> {
    if ts == [] then [] else TopicLines(ts[0], Section(ms, ts[0]), date) + AllTopicLines(ts[1..], ms, date)
  }

  /** The file, line by line. */
  function DocLines(ms: seq<Saved>, date: DateText, exportedAt: int): seq<string> {
    Intro(|ms|, date, exportedAt)
      + if ms == [] then NothingSaved() else AllTopicLines(SortedTopics(TopicsOf(ms)), ms, date)
  }

  // ---- writing it ----

  lemma {:induction false} JoinText(lines: seq<string>)
    requires lines != []
    ensures Text(lines) == Join(lines) + "\n"
    decreases |lines|
  {
    if |lines| == 1 {
      assert lines[1..] == [];
    } else {
      JoinText(lines[1..]);
    }
  }

  lemma BodyText(content: string)
    ensures Text(BodyLines(content)) == BodySafe(content) + "\n"
  {
    if ContentLines(content) == [] {
      JoinText([""]);
    } else {
      JoinText(BodyLines(content));
    }
  }

  lemma TextOne(l: string)
    ensures Text([l]) == l + "\n"
  {
  }

  lemma TextThree(a: seq<string>, b: seq<string>, c: seq<string>)
    ensures Text(a + b + c) == Text(a) + Text(b) + Text(c)
  {
    TextConcat(a + b, c);
    TextConcat(a, b);
  }

  method PushMemory(out: string, m: Saved, date: DateText) returns (more: string)
    ensures more == out + Text(MemoryLines(m, date))
  {
    var body, saved := BodySafe(m.content), "Saved " + date(m.createdAt);
    more := out + "\n";
    more := more + body + "\n";
    more := more + saved + "\n";
    TextThree([""], BodyLines(m.content), [saved]);
    TextOne("");
    TextOne(saved);
    BodyText(m.content);
  }

  method PushHeading(out: string, topic: string) returns (more: string)
    ensures more == out + Text(["", TopicHeading(topic)])
  {
    more := out + ("\n" + TopicHeading(topic) + "\n");
    TextConcat([""], [TopicHeading(topic)]);
    TextOne("");
    TextOne(TopicHeading(topic));
    assert [""] + [TopicHeading(topic)] == ["", TopicHeading(topic)];
  }

  method WriteTopic(out: string, topic: string, memories: seq<Saved>, date: DateText) returns (more: string)
    ensures more == out + Text(TopicLines(topic, SortByAge(memories), date))
  {
    var inTopic := SortByAge(memories);
    ghost var head := ["", TopicHeading(topic)];
    TextConcat(head, AllMemoryLines(inTopic, date));
    ghost var goal := out + Text(TopicLines(topic, inTopic, date));
    more := PushHeading(out, topic);
    Associate(out, Text(head), Text(AllMemoryLines(inTopic, date)));
    for i := 0 to |inTopic|
      invariant more + Text(AllMemoryLines(inTopic[i..], date)) == goal
    {
      ghost var before := more;
      assert inTopic[i..][0] == inTopic[i] && inTopic[i..][1..] == inTopic[i + 1..];
      TextConcat(MemoryLines(inTopic[i], date), AllMemoryLines(inTopic[i + 1..], date));
      more := PushMemory(more, inTopic[i], date);
      Associate(before, Text(MemoryLines(inTopic[i], date)), Text(AllMemoryLines(inTopic[i + 1..], date)));
    }
  }

  lemma Associate(a: string, b: string, c: string)
    ensures (a + b) + c == a + (b + c)
  {
  }

  lemma GroupStep(ms: seq<Saved>, i: nat)
    requires i < |ms|
    ensures TopicsOf(ms[..i + 1]) == TopicsOf(ms[..i]) + {ms[i].topic}
    ensures forall t :: InTopic(ms[..i + 1], t) == if t == ms[i].topic then InTopic(ms[..i], t) + [ms[i]] else InTopic(ms[..i], t)
  {
    assert ms[..i + 1][..i] == ms[..i] && ms[..i + 1] == ms[..i] + [ms[i]];
  }

  method GroupByTopic(ms: seq<Saved>) returns (byTopic: map<string, seq<Saved>>)
    ensures byTopic.Keys == TopicsOf(ms)
    ensures forall t | t in byTopic :: byTopic[t] == InTopic(ms, t)
  {
    byTopic := map[];
    for i := 0 to |ms|
      invariant byTopic.Keys == TopicsOf(ms[..i])
      invariant forall t | t in byTopic :: byTopic[t] == InTopic(ms[..i], t)
    {
      var m := ms[i];
      GroupStep(ms, i);
      if m.topic !in byTopic { NoneInTopic(ms[..i], m.topic); }
      byTopic := byTopic[m.topic := (if m.topic in byTopic then byTopic[m.topic] else []) + [m]];
    }
    assert ms[..|ms|] == ms;
  }

  lemma {:induction false} NoneInTopic(ms: seq<Saved>, topic: string)
    requires topic !in TopicsOf(ms)
    ensures InTopic(ms, topic) == []
    decreases |ms|
  {
    if ms != [] {
      var init, last := ms[..|ms| - 1], ms[|ms| - 1];
      assert ms == init + [last];
      assert last.topic in TopicsOf(ms) && TopicsOf(init) <= TopicsOf(ms);
      NoneInTopic(init, topic);
    }
  }

  /** The export: memories in, text out. */
  method ToMarkdown(ms: seq<Saved>, date: DateText, exportedAt: int) returns (out: string)
    ensures out == Text(DocLines(ms, date, exportedAt))
  {
    var intro := Intro(|ms|, date, exportedAt);
    out := Text(intro);
    if ms == [] {
      TextConcat(intro, NothingSaved());
      return out + Text(NothingSaved());
    }
    var byTopic := GroupByTopic(ms);
    var topics := SortedTopics(byTopic.Keys);
    TextConcat(intro, AllTopicLines(topics, ms, date));
    for i := 0 to |topics|
      invariant out + Text(AllTopicLines(topics[i..], ms, date)) == Text(DocLines(ms, date, exportedAt))
    {
      ghost var before, here := out, TopicLines(topics[i], Section(ms, topics[i]), date);
      assert topics[i] in topics;
      assert topics[i..][0] == topics[i] && topics[i..][1..] == topics[i + 1..];
      TextConcat(here, AllTopicLines(topics[i + 1..], ms, date));
      out := WriteTopic(out, topics[i], byTopic[topics[i]], date);
      Associate(before, Text(here), Text(AllTopicLines(topics[i + 1..], ms, date)));
    }
  }
}
