/** What a keeper that leaves has left behind on disk, in every interleaving. */
module KeeperExit {
  import opened VaultCore
  import opened Ownership

  predicate Keeper(pc: Pc) {
    pc.KIdle? || pc.KProbed? || pc.KLocked? || pc.KCleared? || Started(pc)
  }

  /** Past the write of its "starting" record. */
  predicate Started(pc: Pc) {
    || pc.KStarting? || pc.KBuilding? || pc.KAborting? || pc.KBuilt? || pc.KLockMode? || pc.KKeyless?
    || pc.KUnserved? || pc.KServing? || pc.KStopping? || pc.KFailed?
  }

  /** What a process has done in a trace. */
  function Did(trace: Trace, p: Pid): set<Action> {
    if trace == [] then {} else (if trace[0].0 == p then {trace[0].1} else {}) + Did(trace[1..], p)
  }

  /** It got a "starting" record onto the disk, and nothing over it or away since: neither the record it
      serves under, nor its failure, nor a removal. */
  predicate StartingStands(did: set<Action>) {
    && (Publish(false) in did || HeartbeatWrite(false) in did)
    && Serve(false) !in did && Fail(false) !in did && Unpublish(false) !in did
  }

  /** It wrote that it serves, and nothing over it or away since. */
  predicate ServingStands(did: set<Action>) {
    Serve(false) in did && Fail(false) !in did && Unpublish(false) !in did
  }

  predicate Unserved(did: set<Action>) {
    Serve(false) !in did && Unpublish(false) !in did && Unpublish(true) !in did
  }

  predicate Unfailed(did: set<Action>) {
    Fail(true) !in did && Fail(false) !in did
  }

  /** How far a keeper is tells what it can have done. */
  predicate DidFits(did: set<Action>, pc: Pc) {
    match pc
    case KIdle | KProbed | KLocked | KCleared =>
      Unserved(did) && Unfailed(did) && Publish(false) !in did && HeartbeatWrite(false) !in did
    case KStarting | KLockMode => Unserved(did) && Unfailed(did) && HeartbeatWrite(false) !in did
    case KBuilding | KAborting | KBuilt | KUnserved => Unserved(did) && Unfailed(did)
    case KKeyless => Serve(false) !in did && Unfailed(did) && (Unpublish(true) in did <==> Unpublish(false) !in did)
    case KServing => Serve(false) in did && Unfailed(did) && Unpublish(false) !in did && Unpublish(true) !in did
    case KStopping => Serve(false) in did && Unfailed(did) && (Unpublish(true) in did <==> Unpublish(false) !in did)
    case KFailed => Fail(true) in did <==> Fail(false) !in did
    case _ => true
  }

  /** The record of a keeper is what it did. */
  ghost predicate RecordFits(did: set<Action>, s: State, p: Pid) {
    if p !in s.procs then did == {} && (s.record.Some? ==> s.record.value.pid != p)
    else
      var pc := s.procs[p].pc;
      && DidFits(did, pc)
      && (Keeper(pc) && !Started(pc) ==> s.record.Some? ==> s.record.value.pid != p)
      && (Started(pc) ==>
            && (s.record == Some(Record(Starting, p)) <==> StartingStands(did))
            && (s.record == Some(Record(Serving, p)) <==> ServingStands(did))
            && (s.record == Some(Record(Failed, p)) <==> Fail(false) in did)
            && s.record != Some(Record(Maintenance, p)))
  }

  /** The steps that can change the record, or tell a keeper's phase. */
  predicate Telling(a: Action) {
    a.Publish? || a.HeartbeatWrite? || a.Serve? || a.Fail? || a.EnterLockMode? || a.Unpublish?
  }

  lemma FitsStarting(did: set<Action>, s: State, p: Pid, a: Action)
    requires a.Publish? || a.HeartbeatWrite? || a.EnterLockMode?
    requires Enabled(s, p, a) && RecordFits(did, s, p) && InTime(s.procs[p])
    ensures RecordFits(did + {a}, Next(s, p, a), p)
  {
  }

  lemma FitsEnding(did: set<Action>, s: State, p: Pid, a: Action)
    requires a.Serve? || a.Fail? || a.Unpublish?
    requires Enabled(s, p, a) && RecordFits(did, s, p)
    ensures RecordFits(did + {a}, Next(s, p, a), p)
  {
  }

  lemma FitsEarly(did: set<Action>, s: State, p: Pid, a: Action)
    requires Early(a) && !Telling(a) && Enabled(s, p, a) && RecordFits(did, s, p)
    ensures RecordFits(did + {a}, Next(s, p, a), p)
  {
  }

  lemma FitsGone(did: set<Action>, s: State, p: Pid, a: Action)
    requires Leaving(a) && !Telling(a) && Enabled(s, p, a) && RecordFits(did, s, p)
    ensures RecordFits(did + {a}, Next(s, p, a), p)
  {
  }

  lemma FitsLate(did: set<Action>, s: State, p: Pid, a: Action)
    requires !Early(a) && !Telling(a) && Enabled(s, p, a) && RecordFits(did, s, p)
    ensures RecordFits(did + {a}, Next(s, p, a), p)
  {
    if Leaving(a) { FitsGone(did, s, p, a); }
  }

  lemma Fits(did: set<Action>, s: State, p: Pid, a: Action)
    requires Enabled(s, p, a) && RecordFits(did, s, p)
    requires p in s.procs ==> InTime(s.procs[p])
    ensures RecordFits(did + {a}, Next(s, p, a), p)
  {
    if a.Publish? || a.HeartbeatWrite? || a.EnterLockMode? { FitsStarting(did, s, p, a); }
    else if Telling(a) { FitsEnding(did, s, p, a); }
    else if Early(a) { FitsEarly(did, s, p, a); }
    else { FitsLate(did, s, p, a); }
  }

  /** What others do does not touch the record of a keeper that holds the lock. */
  lemma FitsOthers(did: set<Action>, s: State, q: Pid, a: Action, p: Pid)
    requires Inv(s) && Enabled(s, q, a) && p != q && RecordFits(did, s, p)
    ensures RecordFits(did, Next(s, q, a), p)
  {
    OneMoves(s, q, a);
    RecordMoves(s, q, a);
    if p in s.procs && Started(s.procs[p].pc) { assert HoldsLock(s.procs[p].pc); }
  }

  lemma {:induction false} FitsAlways(did: set<Action>, s: State, trace: Trace, t: State, p: Pid)
    requires Inv(s) && RecordFits(did, s, p) && Leads(s, trace, t)
    ensures RecordFits(did + Did(trace, p), t, p)
    decreases |trace|
  {
    if trace == [] {
      assert did + {} == did;
    } else {
      var q, a := trace[0].0, trace[0].1;
      InvKept(s, q, a);
      if q == p {
        Fits(did, s, p, a);
        FitsAlways(did + {a}, Next(s, q, a), trace[1..], t, p);
        assert did + {a} + Did(trace[1..], p) == did + Did(trace, p);
      } else {
        FitsOthers(did, s, q, a, p);
        FitsAlways(did, Next(s, q, a), trace[1..], t, p);
        assert did + Did(trace[1..], p) == did + Did(trace, p);
      }
    }
  }

  /** "Any failure from here on is published" with its exceptions: in every interleaving, a keeper that
      leaves without dying leaves its "starting" record on disk exactly when it got one there and could
      not find its account folder, could not write its failure over it, or had no key to serve lock mode
      with and could not take it away. */
  lemma StartingLeftBehindIff(trace: Trace, s: State, p: Pid, a: Action)
    requires Leads(INIT, trace, s) && Enabled(s, p, a) && a != Die
    requires p in s.procs && Keeper(s.procs[p].pc) && Next(s, p, a).procs[p].pc == Gone
    ensures var did := Did(trace, p);
      Next(s, p, a).record == Some(Record(Starting, p)) <==>
        (a == LeaveWithoutHome && Publish(false) in did)
        || (a == LeaveFailed && Fail(true) in did && StartingStands(did))
        || (a == LeaveLocked && Unpublish(true) in did && StartingStands(did))
    ensures var did := Did(trace, p);
      Next(s, p, a).record == Some(Record(Serving, p)) <==>
        (a == LeaveServing && Unpublish(true) in did)
        || (a == LeaveFailed && Fail(true) in did && ServingStands(did))
    ensures Next(s, p, a).record == Some(Record(Failed, p)) <==> a == LeaveFailed && Fail(false) in Did(trace, p)
  {
    InitInv();
    FitsAlways({}, INIT, trace, s, p);
    assert {} + Did(trace, p) == Did(trace, p);
  }

  /** And at every moment before that, from the write of its "starting" record on: what is on disk of a
      keeper is exactly what it last wrote there and did not take away. */
  lemma KeeperRecordIff(trace: Trace, s: State, p: Pid)
    requires Leads(INIT, trace, s) && p in s.procs && Started(s.procs[p].pc)
    ensures var did := Did(trace, p);
      && (s.record == Some(Record(Starting, p)) <==>
            && (Publish(false) in did || HeartbeatWrite(false) in did)
            && Serve(false) !in did && Fail(false) !in did && Unpublish(false) !in did)
      && (s.record == Some(Record(Serving, p)) <==> Serve(false) in did && Fail(false) !in did && Unpublish(false) !in did)
      && (s.record == Some(Record(Failed, p)) <==> Fail(false) in did)
      && s.record != Some(Record(Maintenance, p))
  {
    InitInv();
    FitsAlways({}, INIT, trace, s, p);
    assert {} + Did(trace, p) == Did(trace, p);
  }

  lemma AtStart() returns (trace: Trace, t: State)
    ensures Leads(INIT, trace, t)
    ensures t.lock == Some(1) && t.excused == {} && t.record == Some(Record(Starting, 1))
    ensures 1 in t.procs && t.procs[1].pc == KStarting
  {
    trace, t := [], INIT;
    trace, t := OneMore(INIT, trace, t, 1, Spawn(KIdle));
    trace, t := OneMore(INIT, trace, t, 1, Probe(false));
    trace, t := OneMore(INIT, trace, t, 1, TryLock);
    assert t.procs[1].pc == KLocked && t.lock == Some(1);
    trace, t := OneMore(INIT, trace, t, 1, Probe(false));
    trace, t := OneMore(INIT, trace, t, 1, Publish(false));
  }

  /** A keeper that cannot find its account folder leaves without publishing a failure: the lock is
      free, the keeper is gone without having died, and its "starting" record stays behind. */
  lemma LeavingWithoutHomeLeavesStarting() returns (trace: Trace, t: State)
    ensures Leads(INIT, trace, t)
    ensures t.lock == None && 1 in t.procs && t.procs[1].pc == Gone && 1 !in t.excused && t.record == Some(Record(Starting, 1))
  {
    trace, t := AtStart();
    trace, t := OneMore(INIT, trace, t, 1, LeaveWithoutHome);
  }

  /** Nor does one that has no key in lock mode, when its record cannot be taken away. */
  lemma LeavingLockedLeavesStarting() returns (trace: Trace, t: State)
    ensures Leads(INIT, trace, t)
    ensures t.lock == None && 1 in t.procs && t.procs[1].pc == Gone && 1 !in t.excused && t.record == Some(Record(Starting, 1))
  {
    trace, t := AtStart();
    trace, t := OneMore(INIT, trace, t, 1, EnterLockMode);
    trace, t := OneMore(INIT, trace, t, 1, Unpublish(true));
    assert t.procs[1].pc == KKeyless && t.record == Some(Record(Starting, 1)) && t.lock == Some(1) && t.excused == {};
    trace, t := OneMore(INIT, trace, t, 1, LeaveLocked);
  }
}
