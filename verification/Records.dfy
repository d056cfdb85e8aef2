/** What the discovery record says of its writer, in every interleaving: who wrote it, with which step,
    and, of a maintenance run, exactly while which of its writes stands. */
module Records {
  import opened VaultCore
  import opened Ownership
  import KeeperExit

  // ---- what a process is follows from how it was started ----

  predicate Runs(pc: Pc) {
    || pc.MIdle? || pc.MLocked? || pc.MPublished? || pc.MCleared? || pc.MOpen? || pc.MClosing? || pc.MEnded?
    || pc.MFound? || pc.MRemoved? || pc.MDone? || pc.RIdle? || pc.RIntent? || pc.RLocked? || pc.RPublished?
  }

  ghost predicate StartedAs(did: set<Action>, pc: Pc) {
    && (KeeperExit.Keeper(pc) ==> Spawn(KIdle) in did)
    && (Runs(pc) ==> Spawn(MIdle) in did || Spawn(RIdle) in did)
  }

  predicate Wrote(did: set<Action>) {
    Publish(false) in did || HeartbeatWrite(false) in did
  }

  /** The writes that a record of the kind comes from. */
  ghost predicate Explains(did: set<Action>, kind: Kind) {
    match kind
    case Starting => Spawn(KIdle) in did && Wrote(did)
    case Serving => Spawn(KIdle) in did && Serve(false) in did
    case Failed => Spawn(KIdle) in did && Fail(false) in did
    case Maintenance => (Spawn(MIdle) in did || Spawn(RIdle) in did) && Wrote(did)
  }

  // ---- a maintenance run ----

  predicate Unwritten(did: set<Action>) {
    !Wrote(did) && Unended(did)
  }

  predicate Unended(did: set<Action>) {
    ReadBack(true) !in did && Remove(true) !in did && Remove(false) !in did
  }

  predicate ToPublish(pc: Pc) {
    pc.MIdle? || pc.MLocked? || pc.RIdle? || pc.RIntent? || pc.RLocked?
  }

  predicate Publishing(pc: Pc) {
    pc.MPublished? || pc.MCleared? || pc.MOpen? || pc.MClosing? || pc.MEnded? || pc.MFound? || pc.RPublished?
  }

  /** How far a run is tells what it can have done. */
  predicate RunFits(did: set<Action>, pc: Pc) {
    && (ToPublish(pc) ==> Unwritten(did))
    && (Publishing(pc) ==> Unended(did))
  }

  /** The record of a process is what it did. */
  ghost predicate Fits(did: set<Action>, s: State, p: Pid) {
    && (s.record.Some? && s.record.value.pid == p ==> Explains(did, s.record.value.kind))
    && if p !in s.procs then did == {}
       else
         var pc := s.procs[p].pc;
         && StartedAs(did, pc) && RunFits(did, pc)
         && (Publishing(pc) ==> (s.record == Some(Record(Maintenance, p)) <==> Wrote(did)))
         && (pc.MRemoved? ==> (s.record == Some(Record(Maintenance, p)) <==> Wrote(did) && (ReadBack(true) in did || Remove(true) in did)))
  }

  /** The steps that can write or take away a record, or tell that it could not be. */
  predicate Recording(a: Action) {
    a.Publish? || a.Serve? || a.HeartbeatWrite? || a.ReadBack? || a.Remove? || a.Fail? || a.Unpublish?
  }

  /** A step that records nothing, as far as the record and the phases of a run go. */
  ghost predicate MovesQuietly(s: State, t: State, p: Pid, a: Action) {
    && p in t.procs && (t.record == s.record || t.record == None)
    && var pc := t.procs[p].pc;
       if p !in s.procs then a == Spawn(pc) && (pc.KIdle? || pc.MIdle? || pc.RIdle? || pc.EIdle?)
       else
         var was := s.procs[p].pc;
         && (KeeperExit.Keeper(pc) ==> KeeperExit.Keeper(was)) && (Runs(pc) ==> Runs(was))
         && (Publishing(pc) ==> Publishing(was) && t.record == s.record)
         && (pc.MRemoved? ==> was.MRemoved? && t.record == s.record)
         && (ToPublish(pc) ==> ToPublish(was))
  }

  lemma EnterMovesQuietly(s: State, p: Pid, a: Action)
    requires (a.Probe? || a.TryLock?) && Enabled(s, p, a)
    ensures MovesQuietly(s, Next(s, p, a), p, a)
  {
  }

  lemma EarlyMovesQuietly(s: State, p: Pid, a: Action)
    requires Early(a) && !Recording(a) && Enabled(s, p, a)
    ensures MovesQuietly(s, Next(s, p, a), p, a)
  {
    if a.Probe? || a.TryLock? { EnterMovesQuietly(s, p, a); }
  }

  /** Claiming and giving up the intent, and what is done under it. */
  predicate Taking(a: Action) {
    a.ClaimIntent? || a.ReleaseIntent? || a.ReleaseLock? || a.Erase?
  }

  lemma TakerMovesQuietly(s: State, p: Pid, a: Action)
    requires Taking(a) && Enabled(s, p, a)
    ensures MovesQuietly(s, Next(s, p, a), p, a)
  {
  }

  lemma GoneMovesQuietly(s: State, p: Pid, a: Action)
    requires Leaving(a) && !Recording(a) && Enabled(s, p, a)
    ensures MovesQuietly(s, Next(s, p, a), p, a)
  {
  }

  lemma LateMovesQuietly(s: State, p: Pid, a: Action)
    requires !Early(a) && !Leaving(a) && !Recording(a) && !Taking(a) && Enabled(s, p, a)
    ensures MovesQuietly(s, Next(s, p, a), p, a)
  {
  }

  lemma FitsQuietly(did: set<Action>, s: State, t: State, p: Pid, a: Action)
    requires MovesQuietly(s, t, p, a) && !Recording(a) && Fits(did, s, p)
    ensures Fits(did + {a}, t, p)
  {
  }

  lemma FitsWriting(did: set<Action>, s: State, p: Pid, a: Action)
    requires (a.Publish? || a.HeartbeatWrite?) && Enabled(s, p, a) && Fits(did, s, p) && InTime(s.procs[p])
    ensures Fits(did + {a}, Next(s, p, a), p)
  {
  }

  lemma FitsServing(did: set<Action>, s: State, p: Pid, a: Action)
    requires a.Serve? && Enabled(s, p, a) && Fits(did, s, p)
    ensures Fits(did + {a}, Next(s, p, a), p)
  {
  }

  lemma FitsEnding(did: set<Action>, s: State, p: Pid, a: Action)
    requires (a.ReadBack? || a.Remove?) && Enabled(s, p, a) && Fits(did, s, p) && OwnsItsRecord(s, p)
    ensures Fits(did + {a}, Next(s, p, a), p)
  {
  }

  lemma FitsFailing(did: set<Action>, s: State, p: Pid, a: Action)
    requires (a.Fail? || a.Unpublish?) && Enabled(s, p, a) && Fits(did, s, p)
    ensures Fits(did + {a}, Next(s, p, a), p)
  {
  }

  lemma FitsOwn(did: set<Action>, s: State, p: Pid, a: Action)
    requires Inv(s) && Enabled(s, p, a) && Fits(did, s, p)
    ensures Fits(did + {a}, Next(s, p, a), p)
  {
    if a.ReadBack? || a.Remove? { FitsEnding(did, s, p, a); }
    else if a.Fail? || a.Unpublish? { FitsFailing(did, s, p, a); }
    else if a.Serve? { FitsServing(did, s, p, a); }
    else if Recording(a) { FitsWriting(did, s, p, a); }
    else {
      if Early(a) { EarlyMovesQuietly(s, p, a); }
      else if Leaving(a) { GoneMovesQuietly(s, p, a); }
      else if Taking(a) { TakerMovesQuietly(s, p, a); }
      else { LateMovesQuietly(s, p, a); }
      FitsQuietly(did, s, Next(s, p, a), p, a);
    }
  }

  /** What others do can only take its record away, and not while it holds the lock. */
  lemma FitsOthers(did: set<Action>, s: State, q: Pid, a: Action, p: Pid)
    requires Inv(s) && Enabled(s, q, a) && p != q && Fits(did, s, p)
    ensures Fits(did, Next(s, q, a), p)
  {
    OneMoves(s, q, a);
    RecordMoves(s, q, a);
    if p in s.procs && (Publishing(s.procs[p].pc) || s.procs[p].pc.MRemoved?) { assert HoldsLock(s.procs[p].pc); }
  }

  lemma {:induction false} FitsAlways(did: set<Action>, s: State, trace: Trace, t: State, p: Pid)
    requires Inv(s) && Fits(did, s, p) && Leads(s, trace, t)
    ensures Fits(did + KeeperExit.Did(trace, p), t, p)
    decreases |trace|
  {
    if trace == [] {
      assert did + {} == did;
    } else {
      var q, a := trace[0].0, trace[0].1;
      InvKept(s, q, a);
      if q == p {
        FitsOwn(did, s, p, a);
        FitsAlways(did + {a}, Next(s, q, a), trace[1..], t, p);
        assert did + {a} + KeeperExit.Did(trace[1..], p) == did + KeeperExit.Did(trace, p);
      } else {
        FitsOthers(did, s, q, a, p);
        FitsAlways(did, Next(s, q, a), trace[1..], t, p);
        assert did + KeeperExit.Did(trace[1..], p) == did + KeeperExit.Did(trace, p);
      }
    }
  }

  /** No record on disk says what its writer did not: one that says "serving" was written by a keeper that
      began to serve, one that says "failed" by a keeper that failed, "starting" by a keeper that wrote it at
      its start or from its heartbeat, and a maintenance record by a run that did. */
  lemma RecordTellsTheTruth(trace: Trace, s: State, p: Pid, kind: Kind)
    requires Leads(INIT, trace, s) && s.record == Some(Record(kind, p))
    ensures var did := KeeperExit.Did(trace, p);
      && (kind.Maintenance? ==> Spawn(MIdle) in did || Spawn(RIdle) in did)
      && (!kind.Maintenance? ==> Spawn(KIdle) in did)
      && (kind.Serving? ==> Serve(false) in did)
      && (kind.Failed? ==> Fail(false) in did)
      && (kind.Starting? || kind.Maintenance? ==> Publish(false) in did || HeartbeatWrite(false) in did)
  {
    InitInv();
    FitsAlways({}, INIT, trace, s, p);
    assert {} + KeeperExit.Did(trace, p) == KeeperExit.Did(trace, p);
  }

  /** A run's own record is on disk, from when it has the vault to itself until it begins to end it, exactly
      when some write of it went through; and once it is done with it, exactly when besides it could not be
      read back or removed. */
  lemma RunRecordIff(trace: Trace, s: State, p: Pid)
    requires Leads(INIT, trace, s) && p in s.procs
    ensures var did, pc := KeeperExit.Did(trace, p), s.procs[p].pc;
      && (pc.MPublished? || pc.MCleared? || pc.MOpen? || pc.MClosing? || pc.MEnded? || pc.MFound? || pc.RPublished? ==>
            (s.record == Some(Record(Maintenance, p)) <==> Publish(false) in did || HeartbeatWrite(false) in did))
      && (pc.MRemoved? ==>
            (s.record == Some(Record(Maintenance, p)) <==>
               (Publish(false) in did || HeartbeatWrite(false) in did) && (ReadBack(true) in did || Remove(true) in did)))
  {
    InitInv();
    FitsAlways({}, INIT, trace, s, p);
    assert {} + KeeperExit.Did(trace, p) == KeeperExit.Did(trace, p);
  }
}
