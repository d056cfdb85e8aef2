/** Handing the vault over: what a process that takes the vault lock under a standing intent can and cannot
    get to, in every interleaving. */
module HandOver {
  import opened VaultCore
  import opened Ownership

  // ---- step by step ----

  /** Not past the second check, and not on the way to it but by giving up. */
  predicate Barred(pc: Pc) {
    pc.KLocked? || pc.MLocked? || pc.MPublished? || pc.MClosing? || RunOver(pc) || pc.Gone?
  }

  lemma BarredIsNotCleared(pc: Pc)
    requires Barred(pc)
    ensures !Cleared(pc) && !VaultOpen(pc)
  {
  }

  /** If `p` took the lock under a standing intent, it has not got past its second check. */
  ghost predicate HeldBack(s: State, p: Pid) {
    p in s.late ==> p in s.procs && Barred(s.procs[p].pc)
  }

  /** A late process is late under an intent that still stands. */
  ghost predicate IntentStands(s: State) {
    s.late != {} ==> s.intent.Some?
  }

  /** `p` probes the intent after it took the lock late, and the probe is misread. */
  predicate MisreadsLate(s: State, q: Pid, a: Action, p: Pid) {
    q == p && a == Probe(true) && p in s.late
  }

  lemma LateMovesEarly(s: State, p: Pid, a: Action)
    requires Early(a) && Enabled(s, p, a) && !MisreadsLate(s, p, a, p)
    requires HeldBack(s, p) && KnowsIntent(s, p) && IntentStands(s)
    ensures HeldBack(Next(s, p, a), p) && Next(s, p, a).late <= s.late + {p}
  {
  }

  lemma LateMovesLate(s: State, p: Pid, a: Action)
    requires !Early(a) && Enabled(s, p, a) && HeldBack(s, p) && KnowsIntent(s, p)
    ensures HeldBack(Next(s, p, a), p) && Next(s, p, a).late <= s.late + {p}
  {
  }

  /** No other step lets a late process past: not its own, and not anyone else's. */
  lemma HeldBackKept(s: State, q: Pid, a: Action, p: Pid)
    requires Inv(s) && IntentStands(s) && Enabled(s, q, a) && HeldBack(s, p) && !MisreadsLate(s, q, a, p)
    ensures HeldBack(Next(s, q, a), p)
  {
    if p == q {
      if Early(a) { LateMovesEarly(s, p, a); } else { LateMovesLate(s, p, a); }
    } else {
      OneMoves(s, q, a);
    }
  }

  lemma IntentStandsKept(s: State, p: Pid, a: Action)
    requires IntentStands(s) && Enabled(s, p, a)
    ensures IntentStands(Next(s, p, a))
  {
  }

  // ---- whole interleavings ----

  /** Somewhere along the trace `p` misreads its own probe, after it took the lock late. */
  ghost predicate Misread(s: State, trace: Trace, p: Pid)
    decreases |trace|
  {
    trace != [] && Enabled(s, trace[0].0, trace[0].1)
    && (MisreadsLate(s, trace[0].0, trace[0].1, p) || Misread(Next(s, trace[0].0, trace[0].1), trace[1..], p))
  }

  ghost predicate PastWhileLate(s: State, p: Pid) {
    p in s.late && p in s.procs && Cleared(s.procs[p].pc)
  }

  /** Somewhere along the trace `p` is past its second check, opening the vault or with it open, while
      the intent it was late for still stands. */
  ghost predicate GetsPast(s: State, trace: Trace, p: Pid)
    decreases |trace|
  {
    PastWhileLate(s, p)
    || (trace != [] && Enabled(s, trace[0].0, trace[0].1) && GetsPast(Next(s, trace[0].0, trace[0].1), trace[1..], p))
  }

  lemma {:induction false} LateAlways(s: State, trace: Trace, t: State, p: Pid)
    requires Inv(s) && IntentStands(s) && HeldBack(s, p) && Leads(s, trace, t)
    ensures GetsPast(s, trace, p) <==> Misread(s, trace, p)
    ensures !Misread(s, trace, p) ==> HeldBack(t, p)
    ensures IntentStands(t)
    decreases |trace|
  {
    if p in s.late { BarredIsNotCleared(s.procs[p].pc); }
    if trace != [] {
      var q, a := trace[0].0, trace[0].1;
      var next := Next(s, q, a);
      InvKept(s, q, a);
      IntentStandsKept(s, q, a);
      if MisreadsLate(s, q, a, p) {
        assert GetsPast(next, trace[1..], p);
        StandsAlways(next, trace[1..], t);
      } else {
        HeldBackKept(s, q, a, p);
        LateAlways(next, trace[1..], t, p);
      }
    }
  }

  lemma {:induction false} StandsAlways(s: State, trace: Trace, t: State)
    requires IntentStands(s) && Leads(s, trace, t)
    ensures IntentStands(t)
    decreases |trace|
  {
    if trace != [] {
      IntentStandsKept(s, trace[0].0, trace[0].1);
      StandsAlways(Next(s, trace[0].0, trace[0].1), trace[1..], t);
    }
  }

  /** The hand-over is safe process by process: a keeper or maintenance run that takes the vault lock
      while another holds the intent has not opened the vault, nor got past its second check, as long as
      that intent stands, unless its own probe after taking the lock was misread. What any other probe
      answers does not matter. */
  lemma HandOverIsSafe(trace: Trace, t: State, p: Pid)
    requires Leads(INIT, trace, t) && p in t.late && !Misread(INIT, trace, p)
    ensures t.intent.Some? && p in t.procs && !Cleared(t.procs[p].pc) && !VaultOpen(t.procs[p].pc)
  {
    InitInv();
    LateAlways(INIT, trace, t, p);
    BarredIsNotCleared(t.procs[p].pc);
  }

  /** And that is exactly when it fails: in every interleaving, a process gets past its second check
      under an intent it was late for if and only if it misread that very check. */
  lemma HandOverFailsIff(trace: Trace, t: State, p: Pid)
    requires Leads(INIT, trace, t)
    ensures GetsPast(INIT, trace, p) <==> Misread(INIT, trace, p)
  {
    InitInv();
    LateAlways(INIT, trace, t, p);
  }

  // ---- a misread probe ----

  lemma EraserWaits() returns (trace: Trace, t: State)
    ensures Leads(INIT, trace, t)
    ensures t == State(map[1 := Process(EIntent, NoHeartbeat, false)], None, Some(1), None, {}, {})
  {
    trace, t := [], INIT;
    trace, t := OneMore(INIT, trace, t, 1, Spawn(EIdle));
    trace, t := OneMore(INIT, trace, t, 1, ClaimIntent);
  }

  /** The second keeper is late, the eraser waits. */
  ghost predicate LateBehindEraser(t: State, pc: Pc) {
    && 2 in t.late && 2 in t.procs && t.procs[2].pc == pc
    && t.intent == Some(1) && 1 in t.procs && t.procs[1].pc == EIntent
  }

  lemma LateKeeper() returns (trace: Trace, t: State)
    ensures Leads(INIT, trace, t)
    ensures LateBehindEraser(t, KLocked)
  {
    trace, t := EraserWaits();
    trace, t := OneMore(INIT, trace, t, 2, Spawn(KIdle));
    trace, t := OneMore(INIT, trace, t, 2, Probe(true));
    assert t.procs[2] == Process(KProbed, NoHeartbeat, false) && t.lock == None;
    trace, t := OneMore(INIT, trace, t, 2, TryLock);
  }

  lemma LateStarter() returns (trace: Trace, t: State)
    ensures Leads(INIT, trace, t) && LateBehindEraser(t, KStarting)
  {
    trace, t := LateKeeper();
    trace, t := OneMore(INIT, trace, t, 2, Probe(true));
    assert LateBehindEraser(t, KCleared);
    trace, t := OneMore(INIT, trace, t, 2, Publish(true));
  }

  /** A misread probe leaves only the eraser's own wait: a keeper that misreads the intent opens the
      vault under it, late, while the eraser is still waiting for the lock. */
  lemma MisreadProbeOpensLate() returns (trace: Trace, t: State)
    ensures Leads(INIT, trace, t)
    ensures LateBehindEraser(t, KBuilding) && VaultOpen(t.procs[2].pc)
    ensures Misread(INIT, trace, 2)
  {
    trace, t := LateStarter();
    trace, t := OneMore(INIT, trace, t, 2, StartBuild);
    assert LateBehindEraser(t, KBuilding);
    if !Misread(INIT, trace, 2) { HandOverIsSafe(trace, t, 2); }
  }
}
