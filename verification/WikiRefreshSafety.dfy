/** Safety and liveness of the background refresh over every disciplined run. */
module WikiRefreshSafety {
  import opened Options
  import opened WikiRefresh

  /** The lock names pid, with a time stamp of its run. */
  predicate Names(lock: LockFile, pid: Pid, spawnedAt: Time, clock: Time) {
    && lock.Json? && lock.payload.pid == pid
    && spawnedAt <= lock.payload.startedAt <= clock
    && ProgressOk(lock.payload)
  }

  /** A report that the pipeline can make about its modules. */
  predicate ReportOk(report: Report, modules: nat) {
    report.ModuleReport? ==> report.total == modules && report.done <= modules
  }

  /** The lock never claims more progress than the runner is about to report. */
  predicate LockBehind(pc: RunnerPc, done: nat) {
    match pc
    case Born => done == 0
    case Working(LoadingReport) => done == 0
    case Working(ModuleReport(_, next)) => done <= next
    case Merging(LoadingReport, read) => done == 0 && read.Json? && read.payload.modulesDone == 0
    case Merging(ModuleReport(_, next), _) => done <= next
    case Merging(FinalReport, read) => read.Json? && done <= read.payload.modulesDone
    case _ => true
  }

  predicate AtMostOneRunner(s: State) {
    forall p, q :: p in s.live && q in s.live ==> p == q
  }

  predicate RunnerOk(s: State, p: Pid)
    requires p in s.live
  {
    var r := s.live[p];
    && 0 < p < s.nextPid && 0 < r.spawnedAt <= s.clock
    && s.clock <= OldestStamp(s, p) + STALE_LOCK_AFTER_SECONDS
    && (r.pc.Working? ==> ReportOk(r.pc.next, r.modules))
    && (r.pc.Merging? ==> ReportOk(r.pc.report, r.modules) && Names(r.pc.read, p, r.spawnedAt, s.clock))
    && (r.pc == Clearing(true) ==> s.last.Some? && s.last.value.writer == p)
    // its starter is about to announce the runner, or it is announced by the lock
    && (if s.start.MustWrite? && r.pc.Born? then s.start.child == p && s.lock == Absent
        else Names(s.lock, p, r.spawnedAt, s.clock) && LockBehind(r.pc, s.lock.payload.modulesDone))
  }

  /** What the starter relies on between its steps. */
  predicate StartOk(s: State) {
    match s.start
    case NoStart => true
    case MustUnlink => s.live == map[]
    case MustSpawn => s.live == map[] && s.lock == Absent
    case MustWrite(child, spawned) =>
      && 0 < child < s.nextPid && 0 < spawned <= s.clock
      && (forall p :: p in s.live ==> p == child && s.live[p].spawnedAt == spawned)
  }

  /** What the canceller relies on between its steps. */
  predicate CancelOk(s: State) {
    match s.cancel
    case NoCancel => true
    case MustClear => s.live == map[]
    case MustSignal(target) => target < s.nextPid && forall p :: p in s.live ==> p == target && s.lock != Absent
  }

  predicate LockOk(s: State) {
    s.lock.Json? ==> 0 < s.lock.payload.pid < s.nextPid && ProgressOk(s.lock.payload)
  }

  ghost predicate Inv(s: State) {
    && s.clock > 0 && s.nextPid > 0
    && AtMostOneRunner(s)
    && (forall p :: p in s.live ==> RunnerOk(s, p))
    && StartOk(s) && CancelOk(s) && LockOk(s)
  }

  lemma InitialInv(s: State)
    requires Initial(s)
    ensures Inv(s)
  {
  }

  /** As long as a runner is announced, readers see it. */
  lemma AnnouncedIsInProgress(s: State, p: Pid)
    requires p in s.live && RunnerOk(s, p) && Names(s.lock, p, s.live[p].spawnedAt, s.clock)
    ensures StatusOf(s) == Status(true, Some(p), true, false)
  {
  }

  lemma StarterStep(s: State, step: Step)
    requires Inv(s) && Enabled(s, step) && Disciplined(s, step)
    requires step.StartCheck? || step.StartUnlink? || step.StartSpawn? || step.StartWrite? || step.StartDies?
    ensures Inv(Apply(s, step))
  {
    if step.StartCheck? && s.live != map[] {
      var p :| p in s.live;
      AnnouncedIsInProgress(s, p);
    }
  }

  lemma CancellerStep(s: State, step: Step)
    requires Inv(s) && Enabled(s, step) && Disciplined(s, step)
    requires step.CancelCheck? || step.CancelClear? || step.CancelSignal?
    ensures Inv(Apply(s, step))
  {
    if step.CancelCheck? && s.lock.Json? && s.live != map[] {
      var p :| p in s.live;
      AnnouncedIsInProgress(s, p);
    }
  }

  lemma RunnerStep(s: State, step: Step)
    requires Inv(s) && Enabled(s, step) && Disciplined(s, step)
    requires step.RunnerInit? || step.ProgressRead? || step.ProgressWrite? || step.RunnerFails?
    ensures Inv(Apply(s, step))
  {
  }

  lemma LastStep(s: State, step: Step)
    requires Inv(s) && Enabled(s, step) && Disciplined(s, step)
    requires step.RecordLast? || step.RecordFails? || step.ClearLock? || step.Killed? || step.Tick?
    ensures Inv(Apply(s, step))
  {
  }

  lemma InvStep(s: State, step: Step)
    requires Inv(s) && Enabled(s, step) && Disciplined(s, step)
    ensures Inv(Apply(s, step))
  {
    match step
    case StartCheck => StarterStep(s, step);
    case StartUnlink => StarterStep(s, step);
    case StartSpawn(_) => StarterStep(s, step);
    case StartWrite(_) => StarterStep(s, step);
    case StartDies => StarterStep(s, step);
    case CancelCheck => CancellerStep(s, step);
    case CancelClear => CancellerStep(s, step);
    case CancelSignal => CancellerStep(s, step);
    case RunnerInit(_, _) => RunnerStep(s, step);
    case ProgressRead(_) => RunnerStep(s, step);
    case ProgressWrite(_) => RunnerStep(s, step);
    case RunnerFails(_, _) => RunnerStep(s, step);
    case _ => LastStep(s, step);
  }

  /** Every state of every disciplined run satisfies the invariant. */
  lemma {:induction false} RunKeepsInv(s: State, steps: seq<Step>)
    requires Inv(s) && IsRun(s, steps, true)
    ensures Inv(Final(s, steps, true))
    decreases |steps|
  {
    if steps != [] {
      InvStep(s, steps[0]);
      RunKeepsInv(Apply(s, steps[0]), steps[1..]);
    }
  }

  lemma RunCons(s: State, step: Step, rest: seq<Step>, disciplined: bool)
    requires Enabled(s, step) && (disciplined ==> Disciplined(s, step))
    requires IsRun(Apply(s, step), rest, disciplined)
    ensures IsRun(s, [step] + rest, disciplined)
    ensures Final(s, [step] + rest, disciplined) == Final(Apply(s, step), rest, disciplined)
  {
    assert ([step] + rest)[1..] == rest;
  }

  /* ----- safety ----- */

  /** At most one runner is alive, and once there is a lock it names that runner and readers see it in progress. */
  predicate Safe(s: State) {
    && AtMostOneRunner(s)
    && forall p :: p in s.live && (s.lock != Absent || !s.live[p].pc.Born?) ==>
         s.lock.Json? && s.lock.payload.pid == p && StatusOf(s) == Status(true, Some(p), true, false)
  }

  lemma InvIsSafe(s: State)
    requires Inv(s)
    ensures Safe(s)
  {
    if p :| p in s.live {
      if Names(s.lock, p, s.live[p].spawnedAt, s.clock) {
        AnnouncedIsInProgress(s, p);
      }
    }
  }

  lemma OneRunnerAtMost(s: State)
    requires AtMostOneRunner(s)
    ensures |s.live| <= 1
  {
    if p :| p in s.live {
      assert s.live.Keys == {p};
      assert |s.live| == |s.live.Keys|;
    }
  }

  /** Every state of every disciplined run is safe. */
  lemma AtMostOneLiveRunner(s: State, steps: seq<Step>)
    requires Initial(s) && IsRun(s, steps, true)
    ensures Safe(Final(s, steps, true)) && |Final(s, steps, true).live| <= 1
  {
    InitialInv(s);
    RunKeepsInv(s, steps);
    InvIsSafe(Final(s, steps, true));
    OneRunnerAtMost(Final(s, steps, true));
  }
}
