/** When maintenance runs: the nightly target, and whether a catch-up is still due. */
module Schedule {
  import opened VaultCore

  /** The day an instant falls on, and the time of day, in wall-clock terms. */
  function DateOf(at: Instant): int { at / DAY }
  function TimeOf(at: Instant): int { at % DAY }

  /** `run_at` strictly after `now`: today's if it is still ahead, tomorrow's otherwise. */
  function NextRunAfter(now: Instant, runAt: int): Instant
    requires 0 <= runAt < DAY
  {
    var today := DateOf(now) * DAY + runAt;
    if today > now then today else (DateOf(now) + 1) * DAY + runAt
  }

  /** The target is the least instant at `run_at` after `now`, and within a day. */
  lemma NextRunIsLeast(now: Instant, runAt: int, other: Instant)
    requires 0 <= runAt < DAY
    ensures var next := NextRunAfter(now, runAt);
      && now < next <= now + DAY && TimeOf(next) == runAt
      && (other > now && TimeOf(other) == runAt ==> next <= other)
  {
  }

  /** One turn of the nightly loop: whether it was cancelled when it looked at the clock, what the
      clock said, whether it was cancelled in its sleep, and when it woke. */
  datatype Night = Night(cancelled: bool, look: Instant, cancelledAsleep: bool, woke: Instant)

  predicate Cut(n: Night) {
    n.cancelled || n.cancelledAsleep
  }

  function Target(n: Night, runAt: int): Instant
    requires 0 <= runAt < DAY
  {
    NextRunAfter(n.look, runAt)
  }

  /** The loop as it runs until it is cancelled: `slept` are the targets it slept to, `runs` when it
      woke and started a run. A run's outcome does not matter to it. */
  method RunSchedule(runAt: int, nights: seq<Night>) returns (slept: seq<Instant>, runs: seq<Instant>)
    requires 0 <= runAt < DAY
    ensures |runs| <= |slept| <= |nights| && |slept| <= |runs| + 1
    ensures forall i | 0 <= i < |slept| :: !nights[i].cancelled && slept[i] == Target(nights[i], runAt)
    ensures forall i | 0 <= i < |runs| :: !Cut(nights[i]) && runs[i] == nights[i].woke
    ensures |runs| < |nights| ==> Cut(nights[|runs|])
    ensures |runs| < |nights| && !nights[|runs|].cancelled ==> |slept| == |runs| + 1
  {
    slept, runs := [], [];
    for i := 0 to |nights|
      invariant |slept| == |runs| == i
      invariant forall k | 0 <= k < i :: !Cut(nights[k]) && slept[k] == Target(nights[k], runAt) && runs[k] == nights[k].woke
    {
      if nights[i].cancelled { return; }
      slept := slept + [NextRunAfter(nights[i].look, runAt)];
      if nights[i].cancelledAsleep { return; }
      runs := runs + [nights[i].woke];
    }
  }

  /** It never wakes before the target it slept to, and the clock does not go back between waking and
      the next look. */
  ghost predicate WakesInTime(runAt: int, nights: seq<Night>)
    requires 0 <= runAt < DAY
  {
    && (forall i | 0 <= i < |nights| :: nights[i].woke >= Target(nights[i], runAt))
    && (forall i | 0 < i < |nights| :: nights[i].look >= nights[i - 1].woke)
  }

  /** No two targets fall on the same date, and each is on a later date than the one before. */
  lemma {:induction false} NeverTwiceADay(runAt: int, nights: seq<Night>, i: nat, j: nat)
    requires 0 <= runAt < DAY && WakesInTime(runAt, nights)
    requires i < j < |nights|
    ensures Target(nights[i], runAt) < Target(nights[j], runAt)
    ensures DateOf(Target(nights[i], runAt)) < DateOf(Target(nights[j], runAt))
    decreases j - i
  {
    NextRunIsLeast(nights[j - 1].look, runAt, 0);
    NextRunIsLeast(nights[j].look, runAt, 0);
    if i < j - 1 { NeverTwiceADay(runAt, nights, i, j - 1); }
  }

  /** A night is run twice exactly when the loop looks at a clock that has not reached the target it
      slept to, within the day before it. */
  lemma RepeatedIffTooEarly(from: Instant, look: Instant, runAt: int)
    requires 0 <= runAt < DAY
    ensures var target := NextRunAfter(from, runAt);
      NextRunAfter(look, runAt) == target <==> target - DAY <= look < target
  {
  }

  // ---- maintenance.json ----

  datatype Summary = Summary(processed: nat, merged: nat, deduped: nat, archived: nat, flagged: nat, seconds: nat)

  datatype RunOutcome = Completed(summary: Summary) | Busy | Paused | Failed

  /** `finishedAt` is `None` when the text on disk is not a time. */
  datatype LastRun = LastRun(finishedAt: Option<Instant>, ok: bool)

  datatype MaintenanceConfig = MaintenanceConfig(enabled: bool, weekly: bool, lastRun: Option<LastRun>)

  function Interval(c: MaintenanceConfig): int {
    if c.weekly then 7 * DAY else DAY
  }

  function LastOk(c: MaintenanceConfig): Option<Instant> {
    if c.lastRun.Some? && c.lastRun.value.ok then c.lastRun.value.finishedAt else None
  }

  predicate IsDue(c: MaintenanceConfig, now: Instant) {
    c.enabled && match LastOk(c) case Some(at) => now - at > Interval(c) case None => true
  }

  /** The file; absent or unreadable, it counts as the default. */
  class MaintenanceFile {
    var stored: Option<MaintenanceConfig>
    const fallback: MaintenanceConfig

    constructor (fallback: MaintenanceConfig)
      ensures this.fallback == fallback && stored.None?
    {
      this.fallback, stored := fallback, None;
    }

    function Load(): MaintenanceConfig
      reads this
    {
      match stored case Some(c) => c case None => fallback
    }

    /** Read again right before the write, so the schedule on disk is the one kept. What the next
        reader makes of it: only a completed run counts as a success, and until the schedule changes
        maintenance is due again exactly when it is on and this was none, or is over an interval old. */
    method RecordRun(outcome: RunOutcome, finishedAt: Instant, saveFails: bool) returns (ok: bool)
      modifies this
      ensures ok == !saveFails
      ensures !ok ==> stored == old(stored)
      ensures ok ==> stored.Some? && Load().enabled == old(Load()).enabled && Load().weekly == old(Load()).weekly
      ensures ok ==> Load().lastRun.Some? && Load().lastRun.value.finishedAt == Some(finishedAt)
      ensures ok ==> (LastOk(Load()) == Some(finishedAt) <==> outcome.Completed?)
      ensures ok ==> forall now :: IsDue(Load(), now) <==>
        old(Load()).enabled
        && !(outcome.Completed? && now - finishedAt <= if old(Load()).weekly then 604_800_000_000 else 86_400_000_000)
      ensures ok ==> Load() == RecordAll(old(Load()), [Run(outcome, finishedAt)])
    {
      var config := Load();
      config := config.(lastRun := Some(LastRun(Some(finishedAt), outcome.Completed?)));
      if saveFails { return false; }
      stored := Some(config);
      ok := true;
    }
  }

  function Recorded(c: MaintenanceConfig, outcome: RunOutcome, finishedAt: Instant): MaintenanceConfig {
    c.(lastRun := Some(LastRun(Some(finishedAt), outcome.Completed?)))
  }

  /** A recorded outcome with its time. */
  datatype Run = Run(outcome: RunOutcome, at: Instant)

  function RecordAll(c: MaintenanceConfig, runs: seq<Run>): MaintenanceConfig
    decreases |runs|
  {
    if runs == [] then c else RecordAll(Recorded(c, runs[0].outcome, runs[0].at), runs[1..])
  }

  /** Some run succeeded within one interval: the one on disk to begin with, or one recorded since. */
  ghost predicate SucceededWithin(c: MaintenanceConfig, runs: seq<Run>, now: Instant) {
    || (LastOk(c).Some? && now - LastOk(c).value <= Interval(c))
    || exists i | 0 <= i < |runs| :: runs[i].outcome.Completed? && now - runs[i].at <= Interval(c)
  }

  lemma {:induction false} RecordsKeepSchedule(c: MaintenanceConfig, runs: seq<Run>)
    ensures var d := RecordAll(c, runs);
      && d.enabled == c.enabled && d.weekly == c.weekly
      && (runs != [] ==> d.lastRun == Some(LastRun(Some(runs[|runs| - 1].at), runs[|runs| - 1].outcome.Completed?)))
    decreases |runs|
  {
    if runs != [] { RecordsKeepSchedule(Recorded(c, runs[0].outcome, runs[0].at), runs[1..]); }
  }

  /** Once due, always due, until something is recorded or the schedule changes. */
  lemma DueIsMonotone(c: MaintenanceConfig, now: Instant, later: Instant)
    requires IsDue(c, now) && now <= later
    ensures IsDue(c, later)
  {
  }

  /** Recording runs never touches the schedule; a catch-up asking again under the lock goes ahead
      exactly when maintenance is on and the last thing recorded is not a success within one interval. */
  lemma CatchUpRuns(c: MaintenanceConfig, runs: seq<Run>, now: Instant)
    requires runs != []
    ensures var last := runs[|runs| - 1];
      IsDue(RecordAll(c, runs), now) <==>
        c.enabled && !(last.outcome.Completed? && now - last.at <= if c.weekly then 604_800_000_000 else 86_400_000_000)
  {
  }

  /** What was recorded last is a success within one interval. */
  predicate EndsInSuccess(c: MaintenanceConfig, runs: seq<Run>, now: Instant)
    requires runs != []
  {
    var last := runs[|runs| - 1];
    last.outcome.Completed? && now - last.at <= Interval(c)
  }

  /** "Due when maintenance is on and no run has succeeded within one interval" is what the code does
      exactly when no recent success is hidden: there was none, nothing was recorded after the one on
      disk, or the last thing recorded is one itself. */
  lemma DueRuleHoldsIff(c: MaintenanceConfig, runs: seq<Run>, now: Instant)
    ensures (IsDue(RecordAll(c, runs), now) <==> c.enabled && !SucceededWithin(c, runs, now))
      <==> !c.enabled || !SucceededWithin(c, runs, now) || runs == [] || EndsInSuccess(c, runs, now)
  {
    RecordsKeepSchedule(c, runs);
    if runs != [] { CatchUpRuns(c, runs, now); }
  }

  /** With runs recorded in the order they finished, it is the outcome of the last one that decides: a
      busy, paused or failed run after a recent success makes a catch-up due again at once. */
  lemma LastOutcomeDecides(c: MaintenanceConfig, runs: seq<Run>, now: Instant)
    requires runs != [] && forall i, j | 0 <= i < j < |runs| :: runs[i].at <= runs[j].at
    requires LastOk(c).Some? ==> LastOk(c).value <= runs[0].at
    ensures (IsDue(RecordAll(c, runs), now) <==> c.enabled && !SucceededWithin(c, runs, now))
      <==> !c.enabled || !SucceededWithin(c, runs, now) || runs[|runs| - 1].outcome.Completed?
  {
  }

  /** A daily schedule, a success an hour ago on disk, and a run that finds the vault busy: the success
      is hidden, and a catch-up that was not due is due. */
  lemma BusyHidesSuccess(c: MaintenanceConfig, now: Instant)
    requires c == MaintenanceConfig(true, false, Some(LastRun(Some(now - DAY / 24), true)))
    ensures var runs := [Run(Busy, now)];
      SucceededWithin(c, runs, now) && !IsDue(c, now) && IsDue(RecordAll(c, runs), now)
  {
  }
}
