/** What a process does when the vault is taken or spoken for, and that left alone each kind of process gets
    through to its end and leaves the vault as it should. */
module Turns {
  import opened VaultCore
  import opened Ownership

  // ---- turning back ----

  /** Whoever looks and sees another's intent turns back: a keeper leaves, and with the lock given back if it
      had it; a run begins to end before it has opened anything. Whoever sees none goes on. */
  lemma SeenIntentTurnsBack(s: State, p: Pid, misread: bool)
    requires Enabled(s, p, Probe(misread))
    ensures var q, t := s.procs[p], Next(s, p, Probe(misread));
      if s.intent.Some? && !misread then
        && t.procs[p].pc == (if q.pc.MPublished? then MClosing else Gone)
        && t.lock == (if q.pc.KLocked? && s.lock == Some(p) then None else s.lock)
      else
        && t.procs[p].pc == (if q.pc.KIdle? then KProbed else if q.pc.KLocked? then KCleared else MCleared)
        && t.lock == s.lock
    ensures var t := Next(s, p, Probe(misread)); t.record == s.record && t.intent == s.intent
  {
  }

  /** A keeper or a run that finds the vault held leaves at once; one that takes the vault over waits. A free
      lock is taken. */
  lemma HeldLockTurnsBack(s: State, p: Pid)
    requires Enabled(s, p, TryLock)
    ensures var q, t := s.procs[p], Next(s, p, TryLock);
      if s.lock.Some? then
        if q.pc.KProbed? || q.pc.MIdle? then t.procs[p].pc == Gone && t.lock == s.lock else t == s
      else
        && t.lock == Some(p)
        && t.procs[p].pc == (if q.pc.KProbed? then KLocked else if q.pc.MIdle? then MLocked else if q.pc.RIntent? then RLocked else ELocked)
    ensures var t := Next(s, p, TryLock); t.record == s.record && t.intent == s.intent
  {
  }

  // ---- getting through ----

  /** All the steps are the process's own. */
  predicate Alone(trace: Trace, p: Pid) {
    forall e | e in trace :: e.0 == p
  }

  lemma StepAlone(s: State, trace: Trace, t: State, p: Pid, a: Action) returns (more: Trace, next: State)
    requires Leads(s, trace, t) && Alone(trace, p) && Enabled(t, p, a)
    ensures Leads(s, more, next) && Alone(more, p) && next == Next(t, p, a)
  {
    more, next := OneMore(s, trace, t, p, a);
  }

  /** A run that finds the vault free and not spoken for opens it with its own steps, its record on disk. */
  lemma RunGetsGoing(s: State, p: Pid) returns (trace: Trace, t: State)
    requires p in s.procs && s.procs[p].pc == MIdle && s.lock == None && s.intent == None
    ensures Leads(s, trace, t) && Alone(trace, p)
    ensures p in t.procs && t.procs[p] == Process(MOpen, Asleep, false) && t.lock == Some(p)
    ensures t.record == Some(Record(Maintenance, p)) && t.excused == s.excused
  {
    trace, t := [], s;
    trace, t := StepAlone(s, trace, t, p, TryLock);
    trace, t := StepAlone(s, trace, t, p, Publish(false));
    assert t.procs[p] == Process(MPublished, Asleep, false) && t.intent == None;
    trace, t := StepAlone(s, trace, t, p, Probe(false));
    trace, t := StepAlone(s, trace, t, p, Open);
  }

  lemma RunEndsRecord(s: State, p: Pid) returns (trace: Trace, t: State)
    requires p in s.procs && s.procs[p] == Process(MOpen, Asleep, false)
    requires s.lock == Some(p) && s.record == Some(Record(Maintenance, p))
    ensures Leads(s, trace, t) && Alone(trace, p)
    ensures p in t.procs && t.procs[p].pc == MFound && t.lock == Some(p)
    ensures t.record == s.record && t.excused == s.excused
  {
    trace, t := [], s;
    trace, t := StepAlone(s, trace, t, p, Close);
    assert t.procs[p] == Process(MClosing, Asleep, false);
    trace, t := StepAlone(s, trace, t, p, MarkEnded);
    assert t.procs[p].pc == MEnded;
    trace, t := StepAlone(s, trace, t, p, ReadBack(false));
  }

  /** One that has the vault open, its record on disk and its heartbeat asleep ends with its own steps: the
      record is gone, the lock is free, and so is the run. */
  lemma RunGetsDone(s: State, p: Pid) returns (trace: Trace, t: State)
    requires p in s.procs && s.procs[p] == Process(MOpen, Asleep, false)
    requires s.lock == Some(p) && s.record == Some(Record(Maintenance, p))
    ensures Leads(s, trace, t) && Alone(trace, p)
    ensures p in t.procs && t.procs[p].pc == Gone && t.lock == None && t.record == None && t.excused == s.excused
  {
    trace, t := RunEndsRecord(s, p);
    trace, t := StepAlone(s, trace, t, p, Remove(false));
    assert t.procs[p].pc == MRemoved && t.record == None;
    trace, t := StepAlone(s, trace, t, p, ReleaseLock);
    trace, t := StepAlone(s, trace, t, p, Exit);
  }

  lemma KeeperGetsStarting(s: State, p: Pid) returns (trace: Trace, t: State)
    requires p in s.procs && s.procs[p].pc == KIdle && s.lock == None && s.intent == None
    ensures Leads(s, trace, t) && Alone(trace, p)
    ensures p in t.procs && t.procs[p].pc == KStarting && t.lock == Some(p)
    ensures t.record == Some(Record(Starting, p))
  {
    trace, t := [], s;
    trace, t := StepAlone(s, trace, t, p, Probe(false));
    trace, t := StepAlone(s, trace, t, p, TryLock);
    assert t.procs[p].pc == KLocked && t.intent == None && t.lock == Some(p);
    trace, t := StepAlone(s, trace, t, p, Probe(false));
    trace, t := StepAlone(s, trace, t, p, Publish(false));
  }

  /** A keeper gets from its start to serving: its "starting" record first, a heartbeat while it builds and no
      longer, and then the record it serves under. */
  lemma KeeperGetsServing(s: State, p: Pid) returns (trace: Trace, t: State)
    requires p in s.procs && s.procs[p].pc == KIdle && s.lock == None && s.intent == None
    ensures Leads(s, trace, t) && Alone(trace, p)
    ensures p in t.procs && t.procs[p].pc == KServing && t.procs[p].hb == Over && t.lock == Some(p)
    ensures t.record == Some(Record(Serving, p))
  {
    trace, t := KeeperGetsStarting(s, p);
    trace, t := StepAlone(s, trace, t, p, StartBuild);
    assert t.procs[p] == Process(KBuilding, Asleep, false);
    trace, t := StepAlone(s, trace, t, p, Abort);
    trace, t := StepAlone(s, trace, t, p, HeartbeatGone);
    assert t.procs[p].pc == KBuilt && t.procs[p].hb == Over && t.lock == Some(p);
    trace, t := StepAlone(s, trace, t, p, Serve(false));
  }

  /** And one that serves leaves with nothing behind. */
  lemma KeeperGetsDone(s: State, p: Pid) returns (trace: Trace, t: State)
    requires p in s.procs && s.procs[p].pc == KServing && s.lock == Some(p) && s.record == Some(Record(Serving, p))
    ensures Leads(s, trace, t) && Alone(trace, p)
    ensures p in t.procs && t.procs[p].pc == Gone && t.lock == None && t.record == None && t.excused == s.excused
  {
    trace, t := [], s;
    trace, t := StepAlone(s, trace, t, p, Unpublish(false));
    trace, t := StepAlone(s, trace, t, p, LeaveServing);
  }

  /** Speaking for a vault that is free gets it. */
  lemma ClaimGetsLock(s: State, p: Pid) returns (trace: Trace, t: State)
    requires p in s.procs && (s.procs[p].pc == EIdle || s.procs[p].pc == RIdle) && s.intent == None && s.lock == None
    ensures Leads(s, trace, t) && Alone(trace, p)
    ensures p in t.procs && t.procs[p].pc == (if s.procs[p].pc == EIdle then ELocked else RLocked)
    ensures t.lock == Some(p) && t.intent == Some(p)
  {
    trace, t := [], s;
    trace, t := StepAlone(s, trace, t, p, ClaimIntent);
    assert t.intent == Some(p) && t.lock == None;
    trace, t := StepAlone(s, trace, t, p, TryLock);
  }

  /** An eraser then erases, and leaves no record, no lock and no intent behind. */
  lemma EraserGetsDone(s: State, p: Pid) returns (trace: Trace, t: State)
    requires p in s.procs && s.procs[p].pc == EIdle && s.intent == None && s.lock == None
    ensures Leads(s, trace, t) && Alone(trace, p)
    ensures p in t.procs && t.procs[p].pc == Gone && t.lock == None && t.intent == None && t.record == None && t.late == {}
  {
    trace, t := ClaimGetsLock(s, p);
    trace, t := StepAlone(s, trace, t, p, Erase);
    assert t.procs[p].pc == ELocked && t.lock == Some(p) && t.intent == Some(p) && t.record == None;
    trace, t := StepAlone(s, trace, t, p, ReleaseLock);
    assert t.procs[p].pc == EUnlocked && t.lock == None && t.intent == Some(p) && t.record == None;
    trace, t := StepAlone(s, trace, t, p, ReleaseIntent);
  }

  /** A run that takes the vault over publishes its record before it gives up its intent, so that nothing gets
      in between; after that it is a run like any other. */
  lemma TakerGetsGoing(s: State, p: Pid) returns (trace: Trace, t: State)
    requires p in s.procs && s.procs[p].pc == RIdle && s.intent == None && s.lock == None
    ensures Leads(s, trace, t) && Alone(trace, p)
    ensures p in t.procs && t.procs[p] == Process(MPublished, Asleep, false) && t.lock == Some(p) && t.intent == None
    ensures t.record == Some(Record(Maintenance, p))
  {
    trace, t := ClaimGetsLock(s, p);
    trace, t := StepAlone(s, trace, t, p, Publish(false));
    assert t.procs[p] == Process(RPublished, Asleep, false) && t.intent == Some(p);
    trace, t := StepAlone(s, trace, t, p, ReleaseIntent);
  }
}
