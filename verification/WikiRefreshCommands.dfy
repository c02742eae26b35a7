/**
 * The commands of the background refresh and the runner as the source runs them, statement by statement, when nothing
 * else happens in between. Each is proved to be the run of protocol steps it stands for.
 */
module WikiRefreshCommands {
  import opened Options
  import opened WikiRefresh
  import opened WikiRefreshLiveness
  import opened WikiRefreshSafety

  /** The steps of an uninterrupted cancel command. */
  function CancelCommand(s: State): seq<Step> {
    var status := StatusOf(s);
    if !status.inProgress || status.pid.None? then
      if status.stale && status.lockExists then [CancelCheck, CancelClear] else [CancelCheck]
    else [CancelCheck, CancelSignal]
  }

  /** A runner as a spawn leaves it. */
  predicate JustSpawned(s: State, p: Pid) {
    p in s.live && s.live[p].pc.Born? && s.live[p].reported == 0 && s.live[p].spawnedAt <= s.clock
  }

  /** How a runner's update ends: at which report it fails, just before or inside of it, and whether its record fails. */
  datatype Course = Course(failAt: Option<nat>, inside: bool, exitCode: int, recordFails: bool)

  /** Report 0 is loading, reports 1 .. modules + 1 are the module boundaries, the last one is finalizing. */
  function ReportNo(report: nat, modules: nat): Report {
    if report == 0 then LoadingReport
    else if report <= modules + 1 then ModuleReport(modules, report - 1)
    else FinalReport
  }

  /** The number of modules done that the reports before the given one have told. */
  function UpdatedBefore(report: nat, modules: nat): nat {
    if report <= 1 then 0 else Min(report - 2, modules)
  }

  predicate Fails(c: Course, modules: nat) {
    c.failAt.Some? && c.failAt.value <= modules + 2
  }

  /** The record of a whole run. */
  function RecordOf(p: Pid, c: Course, modules: nat): Record {
    if !Fails(c, modules) then Record(p, EXIT_OK, modules)
    else Record(p, c.exitCode, UpdatedBefore(if c.inside then c.failAt.value + 1 else c.failAt.value, modules))
  }

  /** The steps of the update from the given report on. */
  function ReportSteps(p: Pid, c: Course, modules: nat, report: nat): seq<Step>
    requires report <= modules + 2
    decreases modules + 2 - report
  {
    if c.failAt == Some(report) then (if c.inside then [ProgressRead(p)] else []) + [RunnerFails(p, c.exitCode)]
    else [ProgressRead(p), ProgressWrite(p)]
         + if report == modules + 2 then [] else ReportSteps(p, c, modules, report + 1)
  }

  /** The steps of a whole run of the runner, from its first write to the end of its finally block. */
  function RunnerSteps(s: State, p: Pid, c: Course): seq<Step>
    requires p in s.live
  {
    [RunnerInit(p, s.clock)] + (ReportSteps(p, c, s.live[p].modules, 0)
                                + [if c.recordFails then RecordFails(p) else RecordLast(p), ClearLock(p)])
  }

  class Project {
    var clock: Time
    var nextPid: Pid
    var live: map<Pid, Runner>
    var lock: LockFile
    var last: Option<Record>

    function Current(): State
      reads this
    {
      State(clock, nextPid, live, lock, last, NoStart, NoCancel)
    }

    method ReadStatus() returns (status: Status)
      ensures status == StatusOf(Current())
    {
      if lock.Absent? {
        return Status(false, None, false, false);
      }
      if lock.Corrupt? {
        return Status(false, None, true, true);
      }
      var payload := lock.payload;
      var age: int := if payload.startedAt != 0 then clock - payload.startedAt else 0;
      var stale := (payload.pid != 0 && payload.pid !in live) ||
                   (payload.startedAt != 0 && age > STALE_LOCK_AFTER_SECONDS);
      status := Status(!stale, if payload.pid == 0 then None else Some(payload.pid), true, stale);
    }

    /** Idempotent: a healthy refresh is reported, not duplicated; a stale lock is cleared first. */
    method StartBackgroundRefresh(modules: nat) returns (status: Status)
      requires clock > 0 && nextPid > 0
      modifies this
      ensures old(StatusOf(Current())).inProgress ==>
                Current() == old(Current()) && status == old(StatusOf(Current()))
      ensures !old(StatusOf(Current())).inProgress ==>
                && IsRun(old(Current()), StartCommand(old(Current()), modules), false)
                && Current() == Final(old(Current()), StartCommand(old(Current()), modules), false)
                && status == StatusOf(Current()) == Status(true, Some(old(nextPid)), true, false)
    {
      ghost var before := Current();
      var current := ReadStatus();
      if current.inProgress {
        return current;
      }
      StartCommandRun(before, modules);
      if current.stale && current.lockExists {
        lock := Absent;
      }
      var pid := nextPid;
      live, nextPid := live[pid := Runner(Born, clock, modules, 0)], nextPid + 1;
      lock := Json(Payload(pid, clock, Starting, None, 0));
      status := Status(true, Some(pid), true, false);
    }

    /** Merge-updates the lock: keys that the report does not carry survive. */
    method WriteProgress(report: Report)
      modifies this`lock
      ensures lock == Json(Merged(old(lock), report))
      ensures report.ModuleReport? ==> lock.payload.modulesTotal == Some(report.total) && lock.payload.modulesDone == report.done
      ensures !report.ModuleReport? && old(lock).Json? ==>
                && lock.payload.modulesTotal == old(lock).payload.modulesTotal
                && lock.payload.modulesDone == old(lock).payload.modulesDone
      ensures old(lock).Json? ==> lock.payload.pid == old(lock).payload.pid && lock.payload.startedAt == old(lock).payload.startedAt
    {
      var payload := Payload(0, 0, Starting, None, 0);
      if lock.Json? {
        payload := lock.payload;
      }
      payload := payload.(phase := if report.LoadingReport? then Loading else if report.FinalReport? then Finalizing else Generating);
      if report.ModuleReport? {
        payload := payload.(modulesTotal := Some(report.total), modulesDone := report.done);
      }
      lock := Json(payload);
    }

    /** Signals a healthy run, clears a stale lock, and otherwise changes nothing. */
    method CancelBackgroundRefresh() returns (status: Status)
      modifies this
      ensures status == old(StatusOf(Current()))
      ensures IsRun(old(Current()), CancelCommand(old(Current())), false)
      ensures Current() == Final(old(Current()), CancelCommand(old(Current())), false)
    {
      CancelCommandRun(Current());
      status := ReadStatus();
      if !status.inProgress || status.pid.None? {
        if status.stale && status.lockExists {
          lock := Absent;
        }
        return;
      }
      // a target that dies between the read and the signal is a run of its own: step CancelSignal covers it
      live := Signalled(Current(), status.pid.value).live;
    }

    /**
     * One whole run of the runner. The finally block leaves no lock and, unless that write fails too, the record of
     * this run with the last number of modules the pipeline had reported. All of it is the run of the runner's steps.
     */
    method RunnerMain(p: Pid, c: Course)
      requires p in live && live[p].pc.Born?
      modifies this
      ensures Current() == old(Current()).(live := old(live) - {p}, lock := Absent, last :=
                             if c.recordFails then old(last) else Some(RecordOf(p, c, old(live[p].modules))))
      ensures old(JustSpawned(Current(), p)) ==>
                && IsRun(old(Current()), RunnerSteps(old(Current()), p, c), false)
                && Current() == Final(old(Current()), RunnerSteps(old(Current()), p, c), false)
    {
      if JustSpawned(Current(), p) {
        RunnerRun(Current(), p, c);
      }
      var modules, modulesUpdated := live[p].modules, 0;
      lock := Json(Payload(p, clock, Starting, None, 0));
      var code := EXIT_OK;
      var report := 0;
      while report <= modules + 2
        invariant 0 <= report <= modules + 3
        invariant c.failAt.Some? ==> report <= c.failAt.value
        invariant modulesUpdated == UpdatedBefore(report, modules)
        invariant lock.Json? && lock.payload.pid == p && lock.payload.startedAt == clock
        invariant lock.payload.modulesDone == modulesUpdated
        invariant unchanged(`clock) && unchanged(`nextPid) && unchanged(`live) && unchanged(`last) && code == EXIT_OK
      {
        var fails := c.failAt == Some(report);
        if fails && !c.inside {
          code := c.exitCode;
          break;
        }
        if 0 < report <= modules + 1 {
          modulesUpdated := report - 1;
        }
        if fails {
          code := c.exitCode;
          break;
        }
        if report == 0 {
          WriteProgress(LoadingReport);
        } else if report == modules + 2 {
          WriteProgress(FinalReport);
        } else {
          WriteProgress(ModuleReport(modules, report - 1));
        }
        report := report + 1;
      }
      if !c.recordFails {
        last := Some(Record(p, code, modulesUpdated));
      }
      lock := Absent;
      live := live - {p};
    }
  }

  /** The state in which the update has left its runner. */
  predicate Updated(s: State, e: State, p: Pid, c: Course)
    requires p in s.live
  {
    var r := s.live[p];
    var record := RecordOf(p, c, r.modules);
    && p in e.live
    && e.live[p] == Runner(Recording(record.exitCode), r.spawnedAt, r.modules, record.modulesUpdated)
    && e == s.(live := s.live[p := e.live[p]], lock := e.lock)
  }

  lemma {:induction false} ReportsRun(s: State, p: Pid, c: Course, report: nat)
    requires p in s.live && report <= s.live[p].modules + 2
    requires s.live[p].pc == Working(ReportNo(report, s.live[p].modules))
    requires s.live[p].reported == UpdatedBefore(report, s.live[p].modules)
    requires c.failAt.Some? ==> report <= c.failAt.value
    ensures IsRun(s, ReportSteps(p, c, s.live[p].modules, report), false)
    ensures Updated(s, Final(s, ReportSteps(p, c, s.live[p].modules, report), false), p, c)
    decreases s.live[p].modules + 2 - report
  {
    var modules := s.live[p].modules;
    if c.failAt == Some(report) {
      if c.inside {
        var read := Apply(s, ProgressRead(p));
        RunCons(read, RunnerFails(p, c.exitCode), [], false);
        RunCons(s, ProgressRead(p), [RunnerFails(p, c.exitCode)] + [], false);
        assert ReportSteps(p, c, modules, report) == [ProgressRead(p)] + ([RunnerFails(p, c.exitCode)] + []);
      } else {
        RunCons(s, RunnerFails(p, c.exitCode), [], false);
        assert ReportSteps(p, c, modules, report) == [RunnerFails(p, c.exitCode)] + [];
      }
    } else {
      OneReport(s, p, report);
      var read := Apply(s, ProgressRead(p));
      var written := Apply(read, ProgressWrite(p));
      var rest := if report == modules + 2 then [] else ReportSteps(p, c, modules, report + 1);
      if report < modules + 2 {
        ReportsRun(written, p, c, report + 1);
      }
      RunCons(read, ProgressWrite(p), rest, false);
      RunCons(s, ProgressRead(p), [ProgressWrite(p)] + rest, false);
      assert ReportSteps(p, c, modules, report) == [ProgressRead(p)] + ([ProgressWrite(p)] + rest);
    }
  }

  /** The read and the write of one report bring the runner to the next one. */
  lemma OneReport(s: State, p: Pid, report: nat)
    requires p in s.live && report <= s.live[p].modules + 2
    requires s.live[p].pc == Working(ReportNo(report, s.live[p].modules))
    requires s.live[p].reported == UpdatedBefore(report, s.live[p].modules)
    ensures Enabled(s, ProgressRead(p)) && Enabled(Apply(s, ProgressRead(p)), ProgressWrite(p))
    ensures var modules, e := s.live[p].modules, Apply(Apply(s, ProgressRead(p)), ProgressWrite(p));
            && p in e.live && e.live[p].reported == UpdatedBefore(report + 1, modules)
            && e.live[p].pc == (if report == modules + 2 then Recording(EXIT_OK) else Working(ReportNo(report + 1, modules)))
            && e.live[p].spawnedAt == s.live[p].spawnedAt && e.live[p].modules == modules
            && e == s.(live := s.live[p := e.live[p]], lock := e.lock)
  {
  }

  /** The whole run. */
  lemma RunnerRun(s: State, p: Pid, c: Course)
    requires JustSpawned(s, p)
    ensures IsRun(s, RunnerSteps(s, p, c), false)
    ensures Final(s, RunnerSteps(s, p, c), false)
         == s.(live := s.live - {p}, lock := Absent, last :=
                 if c.recordFails then s.last else Some(RecordOf(p, c, s.live[p].modules)))
  {
    var started := Apply(s, RunnerInit(p, s.clock));
    var reports := ReportSteps(p, c, s.live[p].modules, 0);
    ReportsRun(started, p, c, 0);
    var updated := Final(started, reports, false);
    var record := if c.recordFails then RecordFails(p) else RecordLast(p);
    RunCons(Apply(updated, record), ClearLock(p), [], false);
    RunCons(updated, record, [ClearLock(p)] + [], false);
    assert [record] + ([ClearLock(p)] + []) == [record, ClearLock(p)];
    Concat(started, reports, [record, ClearLock(p)]);
    RunCons(s, RunnerInit(p, s.clock), reports + [record, ClearLock(p)], false);
    assert updated.live - {p} == s.live - {p};
  }

  lemma CancelCommandRun(s: State)
    requires s.start.NoStart? && s.cancel.NoCancel?
    ensures IsRun(s, CancelCommand(s), false)
    ensures var status, e := StatusOf(s), Final(s, CancelCommand(s), false);
            (status.inProgress && status.pid.Some? ==> status.pid.value in s.live) &&
            e == if !status.inProgress || status.pid.None? then
                   if status.stale && status.lockExists then s.(lock := Absent) else s
                 else Signalled(s, status.pid.value)
  {
    var a := Apply(s, CancelCheck);
    if a.cancel.MustClear? {
      RunCons(a, CancelClear, [], false);
      RunCons(s, CancelCheck, [CancelClear] + [], false);
      assert CancelCommand(s) == [CancelCheck] + ([CancelClear] + []);
    } else if a.cancel.NoCancel? {
      RunCons(s, CancelCheck, [], false);
      assert CancelCommand(s) == [CancelCheck] + [];
    } else {
      RunCons(a, CancelSignal, [], false);
      RunCons(s, CancelCheck, [CancelSignal] + [], false);
      assert CancelCommand(s) == [CancelCheck] + ([CancelSignal] + []);
    }
  }

  /** A run that nothing stops records a clean exit and all its modules. */
  lemma CleanRunRecords(s: State, p: Pid)
    requires JustSpawned(s, p)
    ensures var steps := RunnerSteps(s, p, Course(None, false, 0, false));
            && IsRun(s, steps, false)
            && Final(s, steps, false).last == Some(Record(p, 0, s.live[p].modules))
            && Final(s, steps, false).lock == Absent
  {
    hide RunnerSteps;
    RunnerRun(s, p, Course(None, false, 0, false));
  }
}
