/** Who owns the vault: keepers, maintenance runs and exclusive takers as interleaving processes
    over two OS locks and one discovery file.

    A lock is an atomic primitive that the system frees when its holder dies. Every probe, lock
    attempt, file write and file removal is one step; any process may die between any two. */
module Ownership {
  import opened VaultCore

  type Pid = nat

  /** Where a process is. K: keeper. M: maintenance run. R: a maintenance run taking over. E: an
      eraser. A keeper in lock mode that has a key serves like any other; `KUnserved` could not publish
      that it serves, `KStopping` has left its serving loop. */
  datatype Pc =
    | KIdle | KProbed | KLocked | KCleared | KStarting | KBuilding | KAborting | KBuilt
    | KLockMode | KKeyless | KUnserved | KServing | KStopping | KFailed
    | MIdle | MLocked | MPublished | MCleared | MOpen | MClosing | MEnded | MFound | MRemoved | MDone
    | RIdle | RIntent | RLocked | RPublished
    | EIdle | EIntent | ELocked | EUnlocked
    | Gone

  /** A heartbeat task: asleep, holding the record's mutex to write, or over. */
  datatype Heartbeat = NoHeartbeat | Asleep | Writing | Over

  datatype Process = Process(pc: Pc, hb: Heartbeat, ended: bool)

  datatype Kind = Starting | Serving | Failed | Maintenance

  /** The discovery file. */
  datatype Record = Record(kind: Kind, pid: Pid)

  /** `late`: processes that took the vault lock while another held the intent, which has not been
      given up since. `excused`: processes that died, or could not read back or remove their record. */
  datatype State = State(
    procs: map<Pid, Process>,
    lock: Option<Pid>,
    intent: Option<Pid>,
    record: Option<Record>,
    late: set<Pid>,
    excused: set<Pid>)

  datatype Action =
    | Spawn(pc: Pc)
    | Probe(misread: bool)
    | TryLock
    | Publish(fails: bool)
    | EnterLockMode
    | LeaveWithoutHome
    | StartBuild
    | Abort
    | HeartbeatGone
    | Serve(fails: bool)
    | Fail(fails: bool)
    | LeaveFailed
    | LeaveLocked
    | LeaveServing
    | Unpublish(fails: bool)
    | HeartbeatWake
    | HeartbeatWrite(fails: bool)
    | Open
    | Close
    | MarkEnded
    | ReadBack(fails: bool)
    | Remove(fails: bool)
    | ReleaseLock
    | Erase
    | Exit
    | ClaimIntent
    | ReleaseIntent
    | Die

  predicate HoldsLock(pc: Pc) {
    match pc
    case KIdle | KProbed | MIdle | MDone | RIdle | RIntent | EIdle | EIntent | EUnlocked | Gone => false
    case _ => true
  }

  predicate HoldsIntent(pc: Pc) {
    pc.RIntent? || pc.RLocked? || pc.RPublished? || pc.EIntent? || pc.ELocked? || pc.EUnlocked?
  }

  /** The stores may be open in this process. In lock mode they are opened on first use, while serving. */
  predicate VaultOpen(pc: Pc) {
    || pc.KBuilding? || pc.KAborting? || pc.KBuilt? || pc.KUnserved? || pc.KServing? || pc.KStopping? || pc.KFailed?
    || pc.MOpen?
  }

  /** Past the check that follows the lock, on the way to opening. */
  predicate Cleared(pc: Pc) {
    VaultOpen(pc) || pc.KCleared? || pc.KStarting? || pc.KLockMode? || pc.KKeyless? || pc.MCleared?
  }

  /** A maintenance record is, or may be, on disk. */
  predicate Publishes(pc: Pc) {
    pc.MPublished? || pc.MCleared? || pc.MOpen? || pc.MClosing? || pc.MEnded? || pc.MFound? || pc.RPublished?
  }

  /** The run is ending its record, or has. */
  predicate RunOver(pc: Pc) {
    pc.MEnded? || pc.MFound? || pc.MRemoved? || pc.MDone?
  }

  /** The record's mutex is free: neither its heartbeat nor the run's end is using it. */
  predicate MutexFree(p: Process) {
    p.hb != Writing && !p.pc.MEnded? && !p.pc.MFound?
  }

  predicate Enabled(s: State, p: Pid, a: Action) {
    if a.Spawn? then
      && p !in s.procs && p !in s.late && p !in s.excused && (s.record.Some? ==> s.record.value.pid != p)
      && (a.pc.KIdle? || a.pc.MIdle? || a.pc.RIdle? || a.pc.EIdle?)
    else
      p in s.procs &&
      var q := s.procs[p];
      match a
      case Spawn(_) => false
      case Probe(_) => q.pc.KIdle? || q.pc.KLocked? || q.pc.MPublished?
      case TryLock => q.pc.KProbed? || q.pc.MIdle? || q.pc.RIntent? || q.pc.EIntent?
      case Publish(_) => q.pc.KCleared? || q.pc.MLocked? || q.pc.RLocked?
      case EnterLockMode => q.pc == KStarting
      case LeaveWithoutHome => q.pc == KStarting
      case StartBuild => q.pc == KStarting
      case Abort => q.pc == KBuilding
      case HeartbeatGone => q.hb == Asleep && (q.pc.KAborting? || q.pc.MClosing? || RunOver(q.pc))
      case Serve(_) => (q.pc == KBuilt && q.hb == Over) || q.pc.KLockMode? || q.pc.KServing?
      case Fail(_) => (q.pc == KBuilt && q.hb == Over) || q.pc.KStarting? || q.pc.KLockMode? || q.pc.KUnserved? || q.pc.KStopping?
      case LeaveFailed => q.pc == KFailed
      case LeaveLocked => q.pc == KKeyless
      case LeaveServing => q.pc == KStopping
      case Unpublish(_) => q.pc.KServing? || q.pc.KLockMode?
      case HeartbeatWake => q.hb == Asleep && MutexFree(q)
      case HeartbeatWrite(_) => q.hb == Writing
      case Open => q.pc == MCleared
      case Close => q.pc.MCleared? || q.pc.MOpen?
      case MarkEnded => q.pc == MClosing && MutexFree(q)
      case ReadBack(_) => q.pc == MEnded
      case Remove(_) => q.pc == MFound
      case ReleaseLock => q.pc.MRemoved? || q.pc.ELocked?
      case Erase => q.pc == ELocked
      case Exit => q.pc == MDone
      case ClaimIntent => q.pc.RIdle? || q.pc.EIdle?
      case ReleaseIntent => q.pc.RPublished? || q.pc.RIntent? || q.pc.EIntent? || q.pc.EUnlocked?
      case Die => q.pc != Gone
  }

  function At(s: State, p: Pid, pc: Pc): State
    requires p in s.procs
  {
    s.(procs := s.procs[p := s.procs[p].(pc := pc)])
  }

  function Leave(s: State, p: Pid): State
    requires p in s.procs
  {
    s.(procs := s.procs[p := Process(Gone, Over, s.procs[p].ended)])
  }

  function Written(s: State, kind: Kind, p: Pid, fails: bool): State {
    if fails then s else s.(record := Some(Record(kind, p)))
  }

  function Unlocked(s: State, p: Pid): State {
    s.(lock := if s.lock == Some(p) then None else s.lock)
  }

  function Disclaimed(s: State, p: Pid): State {
    if s.intent == Some(p) then s.(intent := None, late := {}) else s
  }

  function Next(s: State, p: Pid, a: Action): State
    requires Enabled(s, p, a)
  {
    if a.Spawn? then s.(procs := s.procs[p := Process(a.pc, NoHeartbeat, false)])
    else
      var q := s.procs[p];
      match a
      case Spawn(_) => s
      case Probe(misread) =>
        var held := s.intent.Some? && !misread;
        if q.pc == KIdle then (if held then Leave(s, p) else At(s, p, KProbed))
        else if q.pc == KLocked then (if held then Leave(Unlocked(s, p), p) else At(s, p, KCleared))
        else At(s, p, if held then MClosing else MCleared)
      case TryLock =>
        if s.lock.Some? then (if q.pc.KProbed? || q.pc.MIdle? then Leave(s, p) else s)
        else
          var t := s.(lock := Some(p), late := if s.intent.Some? && s.intent != Some(p) then s.late + {p} else s.late);
          At(t, p, if q.pc.KProbed? then KLocked else if q.pc.MIdle? then MLocked else if q.pc.RIntent? then RLocked else ELocked)
      case Publish(fails) =>
        if q.pc == KCleared then At(Written(s, Starting, p, fails), p, KStarting)
        else
          var t := Written(s, Maintenance, p, fails);
          t.(procs := t.procs[p := Process(if q.pc == MLocked then MPublished else RPublished, Asleep, false)])
      case EnterLockMode => At(s, p, KLockMode)
      case LeaveWithoutHome => Leave(Unlocked(s, p), p)
      case StartBuild => s.(procs := s.procs[p := Process(KBuilding, Asleep, false)])
      case Abort => At(s, p, KAborting)
      case HeartbeatGone =>
        s.(procs := s.procs[p := Process(if q.pc == KAborting then KBuilt else q.pc, Over, q.ended)])
      case Serve(fails) =>
        At(Written(s, Serving, p, fails), p, if fails && q.pc != KServing then KUnserved else KServing)
      case Fail(fails) => At(Written(s, Failed, p, fails), p, KFailed)
      case LeaveFailed => Leave(Unlocked(s, p), p)
      case LeaveLocked => Leave(Unlocked(s, p), p)
      case LeaveServing => Leave(Unlocked(s, p), p)
      case Unpublish(fails) =>
        var own := Record(if q.pc == KLockMode then Starting else Serving, p);
        At(if !fails && s.record == Some(own) then s.(record := None) else s, p, if q.pc == KLockMode then KKeyless else KStopping)
      case HeartbeatWake =>
        s.(procs := s.procs[p := q.(hb := if q.ended then Over else Writing)])
      case HeartbeatWrite(fails) =>
        var kind := if q.pc.KBuilding? || q.pc.KAborting? then Starting else Maintenance;
        var t := Written(s, kind, p, fails);
        t.(procs := t.procs[p := q.(hb := Asleep)])
      case Open => At(s, p, MOpen)
      case Close => At(s, p, MClosing)
      case MarkEnded => s.(procs := s.procs[p := Process(MEnded, q.hb, true)])
      case ReadBack(fails) =>
        if fails then At(s.(excused := s.excused + {p}), p, MRemoved)
        else At(s, p, if s.record == Some(Record(Maintenance, p)) then MFound else MRemoved)
      case Remove(fails) =>
        At(if fails then s.(excused := s.excused + {p}) else s.(record := None), p, MRemoved)
      case ReleaseLock => At(Unlocked(s, p), p, if q.pc == MRemoved then MDone else EUnlocked)
      case Erase => s.(record := None)
      case Exit => Leave(s, p)
      case ClaimIntent => if s.intent.Some? then s else At(s.(intent := Some(p)), p, if q.pc == RIdle then RIntent else EIntent)
      case ReleaseIntent =>
        if q.pc == RPublished then At(Disclaimed(s, p), p, MPublished) else Leave(Disclaimed(s, p), p)
      case Die => Leave(Disclaimed(Unlocked(s, p), p), p).(excused := s.excused + {p})
  }

  const INIT := State(map[], None, None, None, {}, {})

  // ---- what every interleaving keeps ----

  /** The steps up to serving, and the rest: the case analyses below take them in two halves. */
  predicate Early(a: Action) {
    a.Spawn? || a.Probe? || a.TryLock? || a.Publish? || a.EnterLockMode? || a.LeaveWithoutHome? || a.StartBuild?
    || a.Abort? || a.HeartbeatGone? || a.Serve?
  }

  /** Of the rest, those of a process on its way out. */
  predicate Leaving(a: Action) {
    a.Fail? || a.LeaveFailed? || a.LeaveLocked? || a.LeaveServing? || a.Unpublish? || a.Exit? || a.Die?
  }

  /** Between `s` and `t`, `p` alone moved. */
  ghost predicate OnlyMoved(s: State, t: State, p: Pid) {
    t.procs.Keys == s.procs.Keys + {p} && forall r | r in s.procs && r != p :: t.procs[r] == s.procs[r]
  }

  lemma OneMovesEarly(s: State, p: Pid, a: Action)
    requires Early(a) && Enabled(s, p, a)
    ensures OnlyMoved(s, Next(s, p, a), p)
  {
  }

  lemma OneMovesLate(s: State, p: Pid, a: Action)
    requires !Early(a) && Enabled(s, p, a)
    ensures OnlyMoved(s, Next(s, p, a), p)
  {
  }

  /** A step moves one process and leaves every other where it is. */
  lemma OneMoves(s: State, p: Pid, a: Action)
    requires Enabled(s, p, a)
    ensures OnlyMoved(s, Next(s, p, a), p)
  {
    if Early(a) { OneMovesEarly(s, p, a); } else { OneMovesLate(s, p, a); }
  }

  /** The system's lock and the processes agree on who holds it. */
  ghost predicate LockAgrees(s: State) {
    && (forall p | p in s.procs :: HoldsLock(s.procs[p].pc) <==> s.lock == Some(p))
    && (s.lock.Some? ==> s.lock.value in s.procs)
  }

  ghost predicate IntentAgrees(s: State) {
    && (forall p | p in s.procs :: HoldsIntent(s.procs[p].pc) <==> s.intent == Some(p))
    && (s.intent.Some? ==> s.intent.value in s.procs)
  }

  predicate MayBeat(pc: Pc) {
    pc.KBuilding? || pc.KAborting? || pc.MPublished? || pc.MCleared? || pc.MOpen? || pc.MClosing? || pc.RPublished?
  }

  /** The process's heartbeat writes only while it builds, or runs with its record not yet ended. */
  predicate InTime(q: Process) {
    && (q.hb.Writing? ==> MayBeat(q.pc) && !q.ended)
    && (q.hb.Asleep? ==> MayBeat(q.pc) || RunOver(q.pc))
    && (RunOver(q.pc) ==> q.ended)
    && (MayBeat(q.pc) ==> !q.ended)
  }

  ghost predicate BeatsInTime(s: State) {
    forall p | p in s.procs :: InTime(s.procs[p])
  }

  /** A maintenance record on disk is that of a process still holding the vault, or of one that died
      or could not remove it; a process about to remove its record finds it there. */
  ghost predicate RecordOwned(s: State) {
    && (s.record.Some? ==> s.record.value.pid in s.procs)
    && (s.record.Some? && s.record.value.kind == Maintenance ==>
          var p := s.record.value.pid;
          p in s.excused || Publishes(s.procs[p].pc))
    && (forall p | p in s.procs && s.procs[p].pc == MFound :: s.record == Some(Record(Maintenance, p)))
  }

  ghost predicate Inv(s: State) {
    LockAgrees(s) && IntentAgrees(s) && BeatsInTime(s) && RecordOwned(s)
  }

  lemma InitInv()
    ensures Inv(INIT)
  {
  }

  /** Between `s` and `t`, `p` alone took or gave back the lock, and still knows whether it holds it. */
  ghost predicate LockStep(s: State, t: State, p: Pid) {
    && p in t.procs && (HoldsLock(t.procs[p].pc) <==> t.lock == Some(p))
    && (t.lock == s.lock || (s.lock == None && t.lock == Some(p)) || (s.lock == Some(p) && t.lock == None))
  }

  ghost predicate KnowsLock(s: State, p: Pid) {
    if p in s.procs then HoldsLock(s.procs[p].pc) <==> s.lock == Some(p) else s.lock != Some(p)
  }

  lemma LockMovesEarly(s: State, p: Pid, a: Action)
    requires Early(a) && Enabled(s, p, a) && KnowsLock(s, p)
    ensures LockStep(s, Next(s, p, a), p)
  {
  }

  lemma LockMovesLeaving(s: State, p: Pid, a: Action)
    requires Leaving(a) && Enabled(s, p, a) && KnowsLock(s, p)
    ensures LockStep(s, Next(s, p, a), p)
  {
  }

  lemma LockMovesLate(s: State, p: Pid, a: Action)
    requires !Early(a) && !Leaving(a) && Enabled(s, p, a) && KnowsLock(s, p)
    ensures LockStep(s, Next(s, p, a), p)
  {
  }

  lemma LockMoves(s: State, p: Pid, a: Action)
    requires Enabled(s, p, a) && KnowsLock(s, p)
    ensures LockStep(s, Next(s, p, a), p)
  {
    if Early(a) { LockMovesEarly(s, p, a); }
    else if Leaving(a) { LockMovesLeaving(s, p, a); }
    else { LockMovesLate(s, p, a); }
  }

  lemma LockKept(s: State, p: Pid, a: Action)
    requires LockAgrees(s) && Enabled(s, p, a)
    ensures LockAgrees(Next(s, p, a))
  {
    OneMoves(s, p, a);
    LockMoves(s, p, a);
  }

  ghost predicate KnowsIntent(s: State, p: Pid) {
    if p in s.procs then HoldsIntent(s.procs[p].pc) <==> s.intent == Some(p) else s.intent != Some(p)
  }

  ghost predicate IntentStep(s: State, t: State, p: Pid) {
    && p in t.procs && (HoldsIntent(t.procs[p].pc) <==> t.intent == Some(p))
    && (t.intent == s.intent || (s.intent == None && t.intent == Some(p)) || (s.intent == Some(p) && t.intent == None))
  }

  lemma IntentMovesEarly(s: State, p: Pid, a: Action)
    requires Early(a) && Enabled(s, p, a) && KnowsIntent(s, p)
    ensures IntentStep(s, Next(s, p, a), p)
  {
  }

  lemma IntentMovesLate(s: State, p: Pid, a: Action)
    requires !Early(a) && Enabled(s, p, a) && KnowsIntent(s, p)
    ensures IntentStep(s, Next(s, p, a), p)
  {
  }

  lemma IntentMoves(s: State, p: Pid, a: Action)
    requires Enabled(s, p, a) && KnowsIntent(s, p)
    ensures IntentStep(s, Next(s, p, a), p)
  {
    if Early(a) { IntentMovesEarly(s, p, a); } else { IntentMovesLate(s, p, a); }
  }

  lemma IntentKept(s: State, p: Pid, a: Action)
    requires IntentAgrees(s) && Enabled(s, p, a)
    ensures IntentAgrees(Next(s, p, a))
  {
    OneMoves(s, p, a);
    IntentMoves(s, p, a);
  }

  lemma BeatMovesEntering(s: State, p: Pid, a: Action)
    requires a.Spawn? || a.Probe? || a.TryLock? || a.Publish?
    requires Enabled(s, p, a)
    requires p in s.procs ==> InTime(s.procs[p])
    ensures InTime(Next(s, p, a).procs[p])
  {
  }

  lemma BeatMovesEarly(s: State, p: Pid, a: Action)
    requires Early(a)
    requires Enabled(s, p, a)
    requires p in s.procs ==> InTime(s.procs[p])
    ensures InTime(Next(s, p, a).procs[p])
  {
    if a.Spawn? || a.Probe? || a.TryLock? || a.Publish? { BeatMovesEntering(s, p, a); }
  }

  lemma BeatMovesLate(s: State, p: Pid, a: Action)
    requires !Early(a)
    requires Enabled(s, p, a)
    requires p in s.procs ==> InTime(s.procs[p])
    ensures InTime(Next(s, p, a).procs[p])
  {
  }

  lemma BeatMoves(s: State, p: Pid, a: Action)
    requires Enabled(s, p, a)
    requires p in s.procs ==> InTime(s.procs[p])
    ensures InTime(Next(s, p, a).procs[p])
  {
    if Early(a) { BeatMovesEarly(s, p, a); } else { BeatMovesLate(s, p, a); }
  }

  lemma BeatsKept(s: State, p: Pid, a: Action)
    requires BeatsInTime(s) && Enabled(s, p, a)
    ensures BeatsInTime(Next(s, p, a))
  {
    OneMoves(s, p, a);
    BeatMoves(s, p, a);
  }

  /** Only the process holding the vault lock writes or removes the record, and it writes its own. */
  ghost predicate RecordStep(s: State, t: State, p: Pid) {
    && (t.record == s.record || t.record == None || (t.record.Some? && t.record.value.pid == p))
    && (t.record != s.record ==> s.lock == Some(p))
    && s.excused <= t.excused
  }

  lemma RecordMovesEarly(s: State, p: Pid, a: Action)
    requires Early(a) && Enabled(s, p, a) && KnowsLock(s, p)
    requires p in s.procs ==> InTime(s.procs[p])
    ensures RecordStep(s, Next(s, p, a), p)
  {
  }

  lemma RecordMovesLate(s: State, p: Pid, a: Action)
    requires !Early(a) && Enabled(s, p, a) && KnowsLock(s, p)
    requires p in s.procs ==> InTime(s.procs[p])
    ensures RecordStep(s, Next(s, p, a), p)
  {
  }

  lemma RecordMoves(s: State, p: Pid, a: Action)
    requires LockAgrees(s) && BeatsInTime(s) && Enabled(s, p, a)
    ensures RecordStep(s, Next(s, p, a), p)
  {
    if Early(a) { RecordMovesEarly(s, p, a); } else { RecordMovesLate(s, p, a); }
  }

  /** A maintenance record of `p` is vouched for, and `p` about to remove one finds it there. */
  ghost predicate OwnsItsRecord(t: State, p: Pid) {
    && p in t.procs
    && (t.record == Some(Record(Maintenance, p)) ==> p in t.excused || Publishes(t.procs[p].pc))
    && (t.procs[p].pc.MFound? ==> t.record == Some(Record(Maintenance, p)))
  }

  /** The same before the step, for a process that may be about to start. */
  ghost predicate OwnsOrIsNew(s: State, p: Pid) {
    if p in s.procs then OwnsItsRecord(s, p) && InTime(s.procs[p]) else s.record.Some? ==> s.record.value.pid != p
  }

  lemma RecordMoverEarly(s: State, p: Pid, a: Action)
    requires Early(a) && Enabled(s, p, a) && KnowsLock(s, p) && OwnsOrIsNew(s, p)
    ensures OwnsItsRecord(Next(s, p, a), p)
  {
  }

  lemma RecordMoverLate(s: State, p: Pid, a: Action)
    requires !Early(a) && Enabled(s, p, a) && KnowsLock(s, p) && OwnsOrIsNew(s, p)
    ensures OwnsItsRecord(Next(s, p, a), p)
  {
  }

  lemma RecordMover(s: State, p: Pid, a: Action)
    requires Inv(s) && Enabled(s, p, a)
    ensures OwnsItsRecord(Next(s, p, a), p)
  {
    if Early(a) { RecordMoverEarly(s, p, a); } else { RecordMoverLate(s, p, a); }
  }

  lemma RecordKept(s: State, p: Pid, a: Action)
    requires Inv(s) && Enabled(s, p, a)
    ensures RecordOwned(Next(s, p, a))
  {
    OneMoves(s, p, a);
    RecordMoves(s, p, a);
    RecordMover(s, p, a);
    var t := Next(s, p, a);
    forall r | r in t.procs && t.procs[r].pc == MFound ensures t.record == Some(Record(Maintenance, r)) {
      if r != p { assert HoldsLock(s.procs[r].pc); }
    }
  }

  /** Every step of every process keeps all of it. */
  lemma InvKept(s: State, p: Pid, a: Action)
    requires Inv(s) && Enabled(s, p, a)
    ensures Inv(Next(s, p, a))
  {
    LockKept(s, p, a);
    IntentKept(s, p, a);
    BeatsKept(s, p, a);
    RecordKept(s, p, a);
  }

  // ---- whole interleavings ----

  type Trace = seq<(Pid, Action)>

  ghost predicate Leads(s: State, trace: Trace, t: State)
    decreases |trace|
  {
    if trace == [] then s == t
    else Enabled(s, trace[0].0, trace[0].1) && Leads(Next(s, trace[0].0, trace[0].1), trace[1..], t)
  }

  lemma {:induction false} InvAlways(s: State, trace: Trace, t: State)
    requires Inv(s) && Leads(s, trace, t)
    ensures Inv(t)
    decreases |trace|
  {
    if trace != [] {
      InvKept(s, trace[0].0, trace[0].1);
      InvAlways(Next(s, trace[0].0, trace[0].1), trace[1..], t);
    }
  }

  lemma {:induction false} OneMore(s: State, trace: Trace, t: State, p: Pid, a: Action) returns (more: Trace, next: State)
    requires Leads(s, trace, t) && Enabled(t, p, a)
    ensures next == Next(t, p, a) && more == trace + [(p, a)] && Leads(s, more, next)
    decreases |trace|
  {
    more, next := trace + [(p, a)], Next(t, p, a);
    if trace == [] {
      assert more[1..] == [] && more[0] == (p, a);
    } else {
      var rest, last := OneMore(Next(s, trace[0].0, trace[0].1), trace[1..], t, p, a);
      assert more[0] == trace[0] && more[1..] == rest;
    }
  }
}
