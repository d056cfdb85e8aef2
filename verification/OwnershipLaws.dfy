/** Who owns the vault and its discovery record, in every interleaving. */
module OwnershipLaws {
  import opened VaultCore
  import opened Ownership

  /** In every interleaving, misread probes and deaths included: at most one process has the vault
      open, it holds the lock, and none has while a taker or eraser holds it. */
  lemma OneOwner(trace: Trace, t: State, p: Pid, q: Pid)
    requires Leads(INIT, trace, t)
    requires p in t.procs && q in t.procs && VaultOpen(t.procs[p].pc)
    ensures t.lock == Some(p)
    ensures VaultOpen(t.procs[q].pc) ==> p == q
    ensures !(t.procs[q].pc.RLocked? || t.procs[q].pc.RPublished? || t.procs[q].pc.ELocked?)
  {
    InitInv();
    InvAlways(INIT, trace, t);
    assert HoldsLock(t.procs[p].pc);
    assert t.lock == Some(q) ==> p == q;
  }

  /** The record changes hands only with the lock: in every interleaving, a step that changes what is
      on disk is a step of the process that holds the vault lock, and removing a maintenance record
      never removes anyone else's, although what is on disk is not looked at again before it goes. */
  lemma RecordFollowsTheLock(trace: Trace, t: State, p: Pid, a: Action)
    requires Leads(INIT, trace, t) && Enabled(t, p, a)
    ensures Next(t, p, a).record != t.record ==> t.lock == Some(p)
    ensures a.Remove? ==> t.record == Some(Record(Maintenance, p))
  {
    InitInv();
    InvAlways(INIT, trace, t);
    RecordMoves(t, p, a);
  }

  /** A maintenance record on disk means its writer still holds the vault, unless it died or could
      not remove it. */
  lemma RecordMeansBusy(trace: Trace, t: State)
    requires Leads(INIT, trace, t)
    requires t.record.Some? && t.record.value.kind == Maintenance && t.record.value.pid !in t.excused
    ensures t.lock == Some(t.record.value.pid)
  {
    InitInv();
    InvAlways(INIT, trace, t);
    assert HoldsLock(t.procs[t.record.value.pid].pc);
  }

  /** A process has finished with its "starting" or maintenance record. */
  predicate PastHeartbeat(q: Process) {
    || RunOver(q.pc) || q.pc.KBuilt? || q.pc.KLockMode? || q.pc.KKeyless? || q.pc.KUnserved?
    || q.pc.KServing? || q.pc.KStopping? || q.pc.KFailed? || q.pc.Gone?
  }

  lemma PastMoves(s: State, p: Pid, a: Action)
    requires Enabled(s, p, a) && p in s.procs && PastHeartbeat(s.procs[p]) && InTime(s.procs[p])
    ensures var t := Next(s, p, a);
      && PastHeartbeat(t.procs[p])
      && (t.record == s.record || t.record == None || (t.record.Some? && (t.record.value.kind == Serving || t.record.value.kind == Failed)))
  {
  }

  lemma PastStaysPast(s: State, p: Pid, a: Action, r: Pid)
    requires Inv(s) && Enabled(s, p, a) && r in s.procs && PastHeartbeat(s.procs[r])
    ensures var t := Next(s, p, a);
      && r in t.procs && PastHeartbeat(t.procs[r])
      && (t.record == Some(Record(Starting, r)) ==> s.record == Some(Record(Starting, r)))
      && (t.record == Some(Record(Maintenance, r)) ==> s.record == Some(Record(Maintenance, r)))
  {
    OneMoves(s, p, a);
    if p == r { PastMoves(s, p, a); } else { RecordMoves(s, p, a); }
  }

  /** No heartbeat outlives its record: once a keeper's build is over, or a maintenance run has begun
      to end its record, none of its heartbeats ever puts a "starting" or a maintenance record back,
      whatever else runs, dies or starts. */
  lemma {:induction false} NoHeartbeatOutlivesItsRecord(s: State, trace: Trace, t: State, r: Pid)
    requires Inv(s) && Leads(s, trace, t)
    requires r in s.procs && PastHeartbeat(s.procs[r])
    ensures r in t.procs && PastHeartbeat(t.procs[r])
    ensures t.record == Some(Record(Starting, r)) ==> s.record == Some(Record(Starting, r))
    ensures t.record == Some(Record(Maintenance, r)) ==> s.record == Some(Record(Maintenance, r))
    decreases |trace|
  {
    if trace != [] {
      var next := Next(s, trace[0].0, trace[0].1);
      InvKept(s, trace[0].0, trace[0].1);
      PastStaysPast(s, trace[0].0, trace[0].1, r);
      NoHeartbeatOutlivesItsRecord(next, trace[1..], t, r);
    }
  }
}
