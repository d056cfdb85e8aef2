/** The incremental watermark: which facts a run re-examines, when the mark moves, and which facts
    can slip past it. Saves, edits, deletes, restores, runs and the clock interleave; a run stamps its start, lists the
    boundaries, and then lists each boundary's facts when its turn comes. */
module Watermark {
  import opened VaultCore

  // ---- the mark ----

  function ScopeMark(watermark: Option<Instant>, readFails: bool): Option<Instant> {
    if readFails then None else watermark
  }

  function Advanced(watermark: Option<Instant>, start: Instant, success: bool, advanceFails: bool): Option<Instant> {
    if success && !advanceFails then Some(start) else watermark
  }

  predicate Behind(mark: Option<Instant>, at: Instant) {
    mark.Some? && at < mark.value
  }

  // ---- writes, runs and the clock, interleaved ----

  datatype Fact = Fact(at: Instant, boundary: Boundary)

  /** A fact is stamped with the clock first and becomes visible later, when its row commits. `facts` is
      the active ones. `covered`: in the scope of a successful run since it came in with the wording it has. */
  datatype State = State(
    clock: Instant,
    writing: map<MemoryId, Fact>,
    facts: map<MemoryId, Fact>,
    watermark: Option<Instant>,
    running: Option<Running>,
    covered: set<MemoryId>,
    lost: set<MemoryId>)

  /** `todo` is the boundaries still to be listed, once the boundaries are. `scope` is what the run
      examines in the wording it has; `passedBy` is what was stamped before the run started and came
      into its boundary, or was reworded, after that boundary was listed. */
  datatype Running = Running(
    start: Instant,
    since: Option<Instant>,
    listed: bool,
    todo: set<Boundary>,
    scope: set<MemoryId>,
    passedBy: set<MemoryId>)
  {
    /** The boundary's facts have been listed, or will not be. */
    predicate Drawn(b: Boundary) {
      listed && b !in todo
    }
  }

  datatype Event =
    | Tick(now: Instant)
    | Stamp(id: MemoryId, b: Boundary)
    | Commit(id: MemoryId)
    | Abandon(id: MemoryId)
    | Delete(id: MemoryId)
    | Edit(id: MemoryId, b: Boundary)
    | Return(id: MemoryId, f: Fact)
    | Start(readFails: bool)
    | List
    | Draw(b: Boundary)
    | Finish(success: bool, advanceFails: bool)
    | Crash

  predicate Unused(s: State, id: MemoryId) {
    && id !in s.writing && id !in s.facts && id !in s.covered && id !in s.lost
    && (s.running.Some? ==> id !in s.running.value.scope && id !in s.running.value.passedBy)
  }

  predicate Enabled(s: State, e: Event) {
    match e
    case Tick(now) => s.clock <= now
    case Stamp(id, _) => Unused(s, id)
    case Commit(id) => id in s.writing
    case Abandon(id) => id in s.writing
    case Delete(id) => id in s.facts
    case Edit(id, _) => id in s.facts
    case Return(id, f) => id !in s.facts && id !in s.writing && f.at <= s.clock
    case Start(_) => s.running.None?
    case List => s.running.Some? && !s.running.value.listed
    case Draw(b) => s.running.Some? && s.running.value.listed && b in s.running.value.todo
    case Finish(success, _) => s.running.Some? && (success ==> s.running.value.listed && s.running.value.todo == {})
    case Crash => true
  }

  function BoundariesIn(facts: map<MemoryId, Fact>): set<Boundary> {
    set id | id in facts :: facts[id].boundary
  }

  /** What listing a boundary finds: its facts created at or after the mark. */
  function InScope(facts: map<MemoryId, Fact>, b: Boundary, since: Option<Instant>): set<MemoryId> {
    set id | id in facts && facts[id].boundary == b && !Behind(since, facts[id].at)
  }

  /** Stamped before the run started and not committed yet. */
  function Straddling(s: State, start: Instant): set<MemoryId> {
    set id | id in s.writing && s.writing[id].at < start
  }

  /** A fact comes into a boundary, in wording the run has not seen. */
  function Entered(r: Running, id: MemoryId, f: Fact): Running {
    var past := f.at < r.start && r.Drawn(f.boundary);
    r.(scope := r.scope - {id}, passedBy := if past then r.passedBy + {id} else r.passedBy - {id})
  }

  function MeetsRun(running: Option<Running>, id: MemoryId, f: Fact): Option<Running> {
    match running
    case None => None
    case Some(r) => Some(Entered(r, id, f))
  }

  /** An edit keeps `created_at`, and so does what puts back a fact that was deleted, archived or
      superseded: a restore, a rollback, an edit of an archived row. */
  function Unexamined(s: State, id: MemoryId, f: Fact): State {
    s.(facts := s.facts[id := f],
       covered := s.covered - {id},
       lost := if Behind(s.watermark, f.at) then s.lost + {id} else s.lost - {id},
       running := MeetsRun(s.running, id, f))
  }

  function Next(s: State, e: Event): State
    requires Enabled(s, e)
  {
    match e
    case Tick(now) => s.(clock := now)
    case Stamp(id, b) => s.(writing := s.writing[id := Fact(s.clock, b)])
    case Commit(id) =>
      var f := s.writing[id];
      s.(writing := s.writing - {id}, facts := s.facts[id := f], running := MeetsRun(s.running, id, f))
    case Abandon(id) => s.(writing := s.writing - {id})
    case Delete(id) => s.(facts := s.facts - {id})
    case Edit(id, b) => Unexamined(s, id, Fact(s.facts[id].at, b))
    case Return(id, f) => Unexamined(s, id, f)
    case Start(readFails) =>
      s.(running := Some(Running(s.clock, ScopeMark(s.watermark, readFails), false, {}, {}, {})))
    case List => s.(running := Some(s.running.value.(listed := true, todo := BoundariesIn(s.facts))))
    case Draw(b) =>
      var r := s.running.value;
      s.(running := Some(r.(todo := r.todo - {b}, scope := r.scope + InScope(s.facts, b, r.since))))
    case Finish(success, advanceFails) =>
      var r := s.running.value;
      if !success then s.(running := None)
      else
        s.(running := None,
           covered := s.covered + r.scope,
           lost := if advanceFails then s.lost - r.scope else s.lost - r.scope + r.passedBy + Straddling(s, r.start),
           watermark := Advanced(s.watermark, r.start, success, advanceFails))
    case Crash => s.(running := None, writing := map[])
  }

  const INIT := State(0, map[], map[], None, None, {}, {})

  /** Times never run ahead of the clock, and a run in progress still sees the mark it read. */
  ghost predicate Ordered(s: State) {
    && (forall id | id in s.writing :: s.writing[id].at <= s.clock)
    && (forall id | id in s.facts :: s.facts[id].at <= s.clock)
    && (s.watermark.Some? ==> s.watermark.value <= s.clock)
    && (s.running.Some? ==>
          && s.running.value.start <= s.clock
          && (s.watermark.Some? ==> s.watermark.value <= s.running.value.start)
          && (s.running.value.since.None? || s.running.value.since == s.watermark))
  }

  /** Behind the mark, a fact is covered exactly when it is not lost; a write still to commit is
      lost exactly when it is behind the mark, and is never covered. */
  ghost predicate MarkExact(s: State) {
    && (forall id | id in s.facts && Behind(s.watermark, s.facts[id].at) :: id in s.covered <==> id !in s.lost)
    && (forall id | id in s.facts && !Behind(s.watermark, s.facts[id].at) :: id !in s.lost)
    && (forall id | id in s.writing :: id in s.lost <==> Behind(s.watermark, s.writing[id].at))
    && (forall id | id in s.writing :: id !in s.covered && id !in s.facts)
  }

  /** A fact of the vault, as the run in progress stands to it: its boundary is still to be listed, or it
      is in the scope, passed by, or behind the mark the run read, if it is as old as the run. */
  ghost predicate Placed(r: Running, id: MemoryId, f: Fact) {
    && (f.at < r.start ==> !r.Drawn(f.boundary) || id in r.scope || id in r.passedBy || Behind(r.since, f.at))
    && (id in r.scope ==> !Behind(r.since, f.at) && r.Drawn(f.boundary))
    && (id in r.passedBy ==> f.at < r.start && r.Drawn(f.boundary))
  }

  ghost predicate RunExact(s: State) {
    s.running.Some? ==>
      var r := s.running.value;
      && r.scope !! r.passedBy
      && (!r.listed ==> r.scope == {} && r.passedBy == {} && r.todo == {})
      && (forall id | id in s.writing :: id !in r.scope && id !in r.passedBy)
      && (forall id | id in s.facts :: Placed(r, id, s.facts[id]))
      && (forall id | id in r.passedBy :: id !in s.covered)
  }

  ghost predicate Inv(s: State) {
    Ordered(s) && MarkExact(s) && RunExact(s)
  }

  lemma RunKept(s: State, e: Event)
    requires Inv(s) && Enabled(s, e)
    ensures RunExact(Next(s, e))
  {
  }

  lemma MarkKept(s: State, e: Event)
    requires Inv(s) && Enabled(s, e) && !e.Finish?
    ensures MarkExact(Next(s, e))
  {
  }

  lemma FinishKeepsMark(s: State, e: Event)
    requires Inv(s) && Enabled(s, e) && e.Finish?
    ensures MarkExact(Next(s, e))
  {
  }

  /** Every step keeps the account exact. */
  lemma InvKept(s: State, e: Event)
    requires Inv(s) && Enabled(s, e)
    ensures Inv(Next(s, e))
  {
    RunKept(s, e);
    if e.Finish? { FinishKeepsMark(s, e); } else { MarkKept(s, e); }
  }

  // ---- whole histories ----

  /** `t` is where the events lead from `s`, each of them possible when it happens. */
  ghost predicate Leads(s: State, events: seq<Event>, t: State)
    decreases |events|
  {
    if events == [] then s == t else Enabled(s, events[0]) && Leads(Next(s, events[0]), events[1..], t)
  }

  lemma {:induction false} InvAlways(s: State, events: seq<Event>, t: State)
    requires Inv(s) && Leads(s, events, t)
    ensures Inv(t)
    decreases |events|
  {
    if events != [] {
      InvKept(s, events[0]);
      InvAlways(Next(s, events[0]), events[1..], t);
    }
  }

  /** In every history of saves, edits, deletes, restores, runs that succeed, fail, time out or fail to
      advance the mark, crashes and clock ticks, a fact older than the stored mark has been in the scope of
      a successful run since it came in with its present wording, or is one of the lost; never both. */
  lemma CoverageIsExact(events: seq<Event>, t: State, id: MemoryId)
    requires Leads(INIT, events, t)
    requires id in t.facts && Behind(t.watermark, t.facts[id].at)
    ensures id in t.covered <==> id !in t.lost
  {
    InvAlways(INIT, events, t);
  }

  /** The fact a step brings into the vault, or brings back, or rewords. */
  function Entry(s: State, e: Event): Option<(MemoryId, Fact)>
    requires Enabled(s, e)
  {
    match e
    case Commit(id) => Some((id, s.writing[id]))
    case Edit(id, b) => Some((id, Fact(s.facts[id].at, b)))
    case Return(id, f) => Some((id, f))
    case _ => None
  }

  /** Nothing comes in behind the mark, or older than the run in progress once its boundary was listed,
      and no run succeeds while a save stamped before its start is still to commit. */
  ghost predicate Quiet(s: State, events: seq<Event>)
    decreases |events|
  {
    events == [] ||
    (&& Enabled(s, events[0]) && QuietStep(s, events[0]) && Quiet(Next(s, events[0]), events[1..]))
  }

  ghost predicate QuietStep(s: State, e: Event)
    requires Enabled(s, e)
  {
    && (Entry(s, e).Some? ==>
          var f := Entry(s, e).value.1;
          && !Behind(s.watermark, f.at)
          && (s.running.Some? && f.at < s.running.value.start ==> !s.running.value.Drawn(f.boundary)))
    && (e.Finish? && e.success ==> Straddling(s, s.running.value.start) == {})
  }

  lemma {:induction false} QuietLosesNothing(s: State, events: seq<Event>, t: State)
    requires Leads(s, events, t) && Quiet(s, events)
    requires s.lost == {} && (s.running.Some? ==> s.running.value.passedBy == {})
    ensures t.lost == {}
    decreases |events|
  {
    if events != [] { QuietLosesNothing(Next(s, events[0]), events[1..], t); }
  }

  /** When nothing is saved, reworded or put back behind the mark or behind a listing already made, every
      fact older than the mark was in the scope of a successful run. */
  lemma NothingIsMissed(events: seq<Event>, t: State)
    requires Leads(INIT, events, t) && Quiet(INIT, events)
    ensures forall id | id in t.facts && Behind(t.watermark, t.facts[id].at) :: id in t.covered
  {
    InvAlways(INIT, events, t);
    QuietLosesNothing(INIT, events, t);
  }

  /** A run that succeeds and advances loses, of what was not lost already, exactly what it passed by, and
      the saves stamped before it started that are still to commit: all of it ends behind the new mark,
      and not covered. */
  lemma AdvanceLosesExactly(s: State, id: MemoryId)
    requires Inv(s) && Enabled(s, Finish(true, false)) && id !in s.lost
    ensures var next := Next(s, Finish(true, false));
      id in next.lost <==> id in s.running.value.passedBy || id in Straddling(s, s.running.value.start)
    ensures var next := Next(s, Finish(true, false));
      id in next.lost && id in next.facts ==> Behind(next.watermark, next.facts[id].at) && id !in next.covered
  {
  }

  // ---- one run, from a save or a start to its end ----

  /** Nothing ends the run, and nothing but it touches `id`. */
  predicate LeavesBe(e: Event, id: MemoryId) {
    !e.Finish? && !e.Crash? && e != Delete(id) && !(e.Edit? && e.id == id)
  }

  ghost predicate There(s: State, id: MemoryId, f: Fact) {
    s.running.Some? && id in s.facts && s.facts[id] == f
  }

  /** The run will examine `id`, or has it in its scope already. */
  ghost predicate Awaited(s: State, id: MemoryId, f: Fact) {
    && There(s, id, f) && !Behind(s.running.value.since, f.at)
    && (!s.running.value.Drawn(f.boundary) || id in s.running.value.scope)
  }

  /** The run has passed `id` by. */
  ghost predicate Passed(s: State, id: MemoryId, f: Fact) {
    There(s, id, f) && id in s.running.value.passedBy
  }

  /** The run does not look that far back, and `id` is lost already. */
  ghost predicate OutOfReach(s: State, id: MemoryId, f: Fact) {
    There(s, id, f) && Behind(s.running.value.since, f.at) && id in s.lost
  }

  /** Whichever it was, it still is, and to the same run. */
  ghost predicate StillSo(s: State, t: State, id: MemoryId, f: Fact) {
    && (Awaited(s, id, f) ==> Awaited(t, id, f))
    && (Passed(s, id, f) ==> Passed(t, id, f))
    && (OutOfReach(s, id, f) ==> OutOfReach(t, id, f))
    && (There(s, id, f) ==> t.running.Some? && t.running.value.start == s.running.value.start)
  }

  lemma {:induction false} StaysSo(s: State, events: seq<Event>, t: State, id: MemoryId, f: Fact)
    requires Inv(s) && Leads(s, events, t) && forall e | e in events :: LeavesBe(e, id)
    ensures Inv(t) && StillSo(s, t, id, f)
    decreases |events|
  {
    if events != [] {
      assert events[0] in events;
      var next := Next(s, events[0]);
      InvKept(s, events[0]);
      StepStaysSo(s, events[0], id, f);
      StaysSo(next, events[1..], t, id, f);
    }
  }

  lemma StepStaysSo(s: State, e: Event, id: MemoryId, f: Fact)
    requires Inv(s) && Enabled(s, e) && LeavesBe(e, id)
    ensures StillSo(s, Next(s, e), id, f)
    ensures There(s, id, f) ==> There(Next(s, e), id, f)
  {
  }

  lemma EntryStands(s: State, e: Event, id: MemoryId, f: Fact)
    requires Inv(s) && s.running.Some? && Enabled(s, e) && Entry(s, e) == Some((id, f)) && f.at < s.running.value.start
    ensures var next, r := Next(s, e), s.running.value;
      && (r.Drawn(f.boundary) ==> Passed(next, id, f))
      && (!r.Drawn(f.boundary) && Behind(r.since, f.at) ==> OutOfReach(next, id, f))
      && (!r.Drawn(f.boundary) && !Behind(r.since, f.at) ==> Awaited(next, id, f))
      && next.running.value.start == r.start && next.running.value.since == r.since
  {
  }

  /** What comes in while a run is in progress and is older than the run, be it a save that commits late, a
      fact reworded or one put back: left alone, it is lost when that run succeeds exactly when its boundary
      had been listed before it came in, or it is older than the run looks; and covered exactly when
      neither. */
  lemma EntryLostIff(s: State, e: Event, id: MemoryId, f: Fact, events: seq<Event>, t: State)
    requires Inv(s) && s.running.Some? && Enabled(s, e) && Entry(s, e) == Some((id, f)) && f.at < s.running.value.start
    requires Leads(Next(s, e), events, t) && forall e | e in events :: LeavesBe(e, id)
    requires Enabled(t, Finish(true, false))
    ensures var end := Next(t, Finish(true, false));
      var missed := s.running.value.Drawn(f.boundary) || Behind(s.running.value.since, f.at);
      && id in end.facts && Behind(end.watermark, end.facts[id].at)
      && (id in end.lost <==> missed) && (id in end.covered <==> !missed)
  {
    InvKept(s, e);
    EntryStands(s, e, id, f);
    StaysSo(Next(s, e), events, t, id, f);
    InvKept(t, Finish(true, false));
  }

  /** Between runs, what comes in is lost at once exactly when it is older than the mark, and is covered
      by nothing before it. */
  lemma EntryBetweenRuns(s: State, e: Event, id: MemoryId, f: Fact)
    requires Inv(s) && s.running.None? && Enabled(s, e) && Entry(s, e) == Some((id, f))
    ensures var next := Next(s, e);
      id !in next.covered && (id in next.lost <==> Behind(s.watermark, f.at))
  {
  }

  /** A full sweep recovers what was lost: a lost fact that is in the vault when a run that reads no mark
      starts, and is left alone until it succeeds, is covered and lost no more. */
  lemma FullSweepFindsTheLost(s: State, readFails: bool, id: MemoryId, events: seq<Event>, t: State, advanceFails: bool)
    requires Inv(s) && Enabled(s, Start(readFails)) && ScopeMark(s.watermark, readFails).None?
    requires id in s.facts && id in s.lost
    requires Leads(Next(s, Start(readFails)), events, t) && forall e | e in events :: LeavesBe(e, id)
    requires Enabled(t, Finish(true, advanceFails))
    ensures var end := Next(t, Finish(true, advanceFails));
      id in end.covered && id !in end.lost
  {
    InvKept(s, Start(readFails));
    assert Awaited(Next(s, Start(readFails)), id, s.facts[id]);
    StaysSo(Next(s, Start(readFails)), events, t, id, s.facts[id]);
  }

  /** A lost fact stays lost through any number of incremental runs, saves, edits, restores and crashes,
      until it is deleted or a run that could not read the mark sweeps the vault. */
  lemma {:induction false} LostUntilFullSweep(s: State, events: seq<Event>, t: State, id: MemoryId)
    requires Inv(s) && Leads(s, events, t) && id in s.lost && id in s.facts
    requires s.running.Some? ==> s.running.value.since.Some?
    requires forall e | e in events :: e != Delete(id) && e != Start(true)
    ensures id in t.lost && id in t.facts && id !in t.covered
    decreases |events|
  {
    if events != [] {
      assert events[0] in events;
      var next := Next(s, events[0]);
      assert forall e | e in events[1..] :: e in events;
      InvKept(s, events[0]);
      LostUntilFullSweep(next, events[1..], t, id);
    }
  }

  lemma {:induction false} OneMore(s: State, events: seq<Event>, t: State, e: Event)
    returns (more: seq<Event>, next: State)
    requires Leads(s, events, t) && Enabled(t, e)
    ensures next == Next(t, e) && more == events + [e] && Leads(s, more, next)
    decreases |events|
  {
    more, next := events + [e], Next(t, e);
    if events == [] {
      assert more[1..] == [];
    } else {
      var rest, last := OneMore(Next(s, events[0]), events[1..], t, e);
      assert more[1..] == rest;
    }
  }

  /** A save stamped a moment before a run starts and committed once the run has listed the boundaries is
      lost: the run did not see it, and the mark moves past it. */
  lemma StraddlingSaveIsLost() returns (events: seq<Event>, t: State)
    ensures Leads(INIT, events, t)
    ensures events == [Stamp(1, 0), Tick(5), Start(false), List, Commit(1), Finish(true, false)]
    ensures 1 in t.facts && Behind(t.watermark, t.facts[1].at) && 1 in t.lost && 1 !in t.covered
  {
    events, t := [], INIT;
    events, t := OneMore(INIT, events, t, Stamp(1, 0));
    events, t := OneMore(INIT, events, t, Tick(5));
    events, t := OneMore(INIT, events, t, Start(false));
    events, t := OneMore(INIT, events, t, List);
    events, t := OneMore(INIT, events, t, Commit(1));
    assert t.running.value.todo == {};
    events, t := OneMore(INIT, events, t, Finish(true, false));
  }

  lemma SavedThenDeleted() returns (events: seq<Event>, t: State)
    ensures Leads(INIT, events, t) && t == INIT.(clock := 5)
    ensures events == [Tick(1), Stamp(1, 0), Commit(1), Delete(1), Tick(5)]
  {
    events, t := [], INIT;
    events, t := OneMore(INIT, events, t, Tick(1));
    events, t := OneMore(INIT, events, t, Stamp(1, 0));
    events, t := OneMore(INIT, events, t, Commit(1));
    assert t == INIT.(clock := 1, facts := map[1 := Fact(1, 0)]);
    events, t := OneMore(INIT, events, t, Delete(1));
    events, t := OneMore(INIT, events, t, Tick(5));
  }

  /** A save that commits before any run, is deleted, and is put back after a run has moved the mark past
      it, is lost though nothing was reworded and no save straddled a run. */
  lemma RestoredFactIsLost() returns (events: seq<Event>, t: State)
    ensures Leads(INIT, events, t)
    ensures events == [Tick(1), Stamp(1, 0), Commit(1), Delete(1), Tick(5)]
                      + [Start(false), List, Finish(true, false), Return(1, Fact(1, 0))]
    ensures 1 in t.facts && Behind(t.watermark, t.facts[1].at) && 1 in t.lost && 1 !in t.covered
  {
    events, t := SavedThenDeleted();
    events, t := OneMore(INIT, events, t, Start(false));
    events, t := OneMore(INIT, events, t, List);
    assert t.running.value.todo == {};
    events, t := OneMore(INIT, events, t, Finish(true, false));
    assert t == INIT.(clock := 5, watermark := Some(5));
    events, t := OneMore(INIT, events, t, Return(1, Fact(1, 0)));
  }
}
