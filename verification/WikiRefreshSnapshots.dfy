/** What readers see of one run, from its announcement to its end and beyond. */
module WikiRefreshSnapshots {
  import opened Options
  import opened WikiRefresh
  import opened WikiRefreshSafety

  /** The starter has written its lock for p, which is still alive. */
  predicate Announced(s: State, p: Pid) {
    p in s.live && !s.start.MustWrite? && s.lock.Json?
  }

  lemma AnnouncedStep(s: State, step: Step, p: Pid)
    requires Inv(s) && Enabled(s, step) && Disciplined(s, step) && Announced(s, p)
    ensures var t := Apply(s, step);
            p in t.live ==>
              && Announced(t, p)
              && t.lock.payload.pid == s.lock.payload.pid == p
              && s.lock.payload.modulesDone <= t.lock.payload.modulesDone
              && ProgressOk(t.lock.payload)
  {
    InvStep(s, step);
    if step.StartCheck? || step.CancelCheck? {
      AnnouncedIsInProgress(s, p);
    }
  }

  lemma GoneStaysGone(s: State, step: Step, p: Pid)
    requires Enabled(s, step) && p !in s.live && p < s.nextPid
    ensures p !in Apply(s, step).live && p < Apply(s, step).nextPid
  {
  }

  lemma {:induction false} GoneForever(s: State, steps: seq<Step>, p: Pid)
    requires IsRun(s, steps, true) && p !in s.live && p < s.nextPid
    ensures p !in Final(s, steps, true).live
    decreases |steps|
  {
    if steps != [] {
      GoneStaysGone(s, steps[0], p);
      GoneForever(Apply(s, steps[0]), steps[1..], p);
    }
  }

  /**
   * From the starter's eager write until the run ends, in every state of every disciplined run the lock names the
   * run, and the number of modules done never goes down nor exceeds the total.
   */
  lemma {:induction false} SnapshotsProgress(s: State, steps: seq<Step>, p: Pid)
    requires Inv(s) && Announced(s, p) && IsRun(s, steps, true)
    requires p in Final(s, steps, true).live
    ensures var e := Final(s, steps, true);
            && Announced(e, p) && e.lock.payload.pid == p
            && s.lock.payload.modulesDone <= e.lock.payload.modulesDone
            && ProgressOk(e.lock.payload)
    decreases |steps|
  {
    hide Inv, Disciplined, Enabled, Apply, ProgressOk;
    if steps == [] {
      LockNames(s, p);
    } else {
      var t := Apply(s, steps[0]);
      InvStep(s, steps[0]);
      AnnouncedStep(s, steps[0], p);
      KnownPid(s, p);
      if p in t.live {
        SnapshotsProgress(t, steps[1..], p);
      } else {
        StepKeepsPids(s, steps[0]);
        GoneForever(t, steps[1..], p);
      }
    }
  }

  lemma LockNames(s: State, p: Pid)
    requires Inv(s) && Announced(s, p)
    ensures s.lock.payload.pid == p && ProgressOk(s.lock.payload)
  {
    assert RunnerOk(s, p);
  }

  lemma KnownPid(s: State, p: Pid)
    requires Inv(s) && p in s.live
    ensures p < s.nextPid
  {
    assert RunnerOk(s, p);
  }

  lemma StepKeepsPids(s: State, step: Step)
    requires Enabled(s, step)
    ensures s.nextPid <= Apply(s, step).nextPid
  {
  }

  /* ----- the start time ----- */

  /** The runner has made its own first write and holds no older read. */
  predicate Settled(s: State, p: Pid) {
    && Announced(s, p) && !s.live[p].pc.Born?
    && (s.live[p].pc.Merging? ==>
          s.live[p].pc.read.Json? && s.live[p].pc.read.payload.startedAt == s.lock.payload.startedAt)
  }

  lemma SettledStep(s: State, step: Step, p: Pid)
    requires Inv(s) && Enabled(s, step) && Disciplined(s, step) && Settled(s, p)
    ensures var t := Apply(s, step);
            p in t.live ==> Settled(t, p) && t.lock.payload.startedAt == s.lock.payload.startedAt
  {
    InvStep(s, step);
    AnnouncedStep(s, step, p);
  }

  lemma {:induction false} SettledForGood(s: State, steps: seq<Step>, p: Pid)
    requires Inv(s) && Settled(s, p) && IsRun(s, steps, true)
    requires p in Final(s, steps, true).live
    ensures var e := Final(s, steps, true);
            e.lock.Json? && e.lock.payload.startedAt == s.lock.payload.startedAt
    decreases |steps|
  {
    hide Inv, Disciplined, Enabled, Apply;
    if steps != [] {
      var t := Apply(s, steps[0]);
      InvStep(s, steps[0]);
      SettledStep(s, steps[0], p);
      KnownPid(s, p);
      if p in t.live {
        SettledForGood(t, steps[1..], p);
      } else {
        StepKeepsPids(s, steps[0]);
        GoneForever(t, steps[1..], p);
      }
    }
  }

  /** The start time stays as it is for as long as the run lives. */
  ghost predicate StartTimeStays(s: State, p: Pid)
    requires s.lock.Json?
  {
    forall rest :: IsRun(s, rest, true) && p in Final(s, rest, true).live ==>
      Final(s, rest, true).lock.Json? && Final(s, rest, true).lock.payload.startedAt == s.lock.payload.startedAt
  }

  /** After the announcement the start time is final exactly if the run is settled. */
  lemma StartTimeIsFinalIff(s: State, p: Pid)
    requires Inv(s) && Announced(s, p)
    ensures StartTimeStays(s, p) <==> Settled(s, p)
  {
    if Settled(s, p) {
      forall rest | IsRun(s, rest, true) && p in Final(s, rest, true).live
        ensures Final(s, rest, true).lock.Json?
        ensures Final(s, rest, true).lock.payload.startedAt == s.lock.payload.startedAt
      {
        SettledForGood(s, rest, p);
      }
    } else {
      UnsettledStartTime(s, p);
    }
  }

  /** The runner's own first write, or an older merge, replaces the start time. */
  lemma UnsettledStartTime(s: State, p: Pid)
    requires Inv(s) && Announced(s, p) && !Settled(s, p)
    ensures !StartTimeStays(s, p)
  {
    assert RunnerOk(s, p);
    var rest;
    if s.live[p].pc.Merging? {
      rest := [ProgressWrite(p)] + [];
      RunCons(s, ProgressWrite(p), [], true);
    } else if s.lock.payload.startedAt != s.clock {
      rest := [RunnerInit(p, s.clock)] + [];
      RunCons(s, RunnerInit(p, s.clock), [], true);
    } else if s.live[p].spawnedAt != s.clock {
      rest := [RunnerInit(p, s.live[p].spawnedAt)] + [];
      RunCons(s, RunnerInit(p, s.live[p].spawnedAt), [], true);
    } else {
      var later := Apply(s, Tick);
      RunCons(later, RunnerInit(p, later.clock), [], true);
      RunCons(s, Tick, [RunnerInit(p, later.clock)] + [], true);
      rest := [Tick] + ([RunnerInit(p, later.clock)] + []);
    }
    assert IsRun(s, rest, true) && p in Final(s, rest, true).live;
  }

  /* ----- after the end ----- */

  lemma ExitIsOver(s: State, p: Pid)
    requires Inv(s) && Enabled(s, ClearLock(p)) && s.live[p].pc == Clearing(true)
    ensures var t := Apply(s, ClearLock(p));
            && t.lock == Absent && t.live == map[] && t.last.Some? && t.last.value.writer == p && t.last == s.last
  {
    assert RunnerOk(s, p);
  }

  lemma OverStep(s: State, step: Step)
    requires Inv(s) && s.live == map[] && Enabled(s, step) && Disciplined(s, step) && !step.StartSpawn?
    ensures var t := Apply(s, step);
            && t.live == map[] && t.last == s.last && !StatusOf(t).inProgress
            && (s.lock == Absent && !s.start.MustWrite? ==> t.lock == Absent && !t.start.MustWrite?)
  {
  }

  lemma {:induction false} OverUntilNextSpawn(s: State, steps: seq<Step>)
    requires Inv(s) && s.live == map[] && IsRun(s, steps, true) && !StatusOf(s).inProgress
    requires forall step :: step in steps ==> !step.StartSpawn?
    ensures var e := Final(s, steps, true);
            && e.live == map[] && e.last == s.last && !StatusOf(e).inProgress
            && (s.lock == Absent && !s.start.MustWrite? ==> e.lock == Absent)
    decreases |steps|
  {
    hide Inv, Disciplined, Enabled, Apply, StatusOf;
    if steps != [] {
      assert steps[0] in steps;
      InvStep(s, steps[0]);
      OverStep(s, steps[0]);
      OverUntilNextSpawn(Apply(s, steps[0]), steps[1..]);
    }
  }

  /**
   * An exit that persisted its record did so before the lock disappears. From then on, over every disciplined run up
   * to the next spawn, readers see nothing in progress and that record; and no lock at all, unless the starter of the
   * run has still to make its eager write.
   */
  lemma ExitPublishesRecord(s: State, p: Pid, steps: seq<Step>)
    requires Inv(s) && Enabled(s, ClearLock(p)) && s.live[p].pc == Clearing(true)
    requires IsRun(Apply(s, ClearLock(p)), steps, true) && forall step :: step in steps ==> !step.StartSpawn?
    ensures var e := Final(Apply(s, ClearLock(p)), steps, true);
            && e.last.Some? && e.last.value.writer == p && !StatusOf(e).inProgress
            && (!s.start.MustWrite? ==> e.lock == Absent)
  {
    InvStep(s, ClearLock(p));
    ExitIsOver(s, p);
    OverUntilNextSpawn(Apply(s, ClearLock(p)), steps);
  }

  lemma RecordStep(s: State, step: Step)
    requires Enabled(s, step) && !step.RecordLast?
    ensures Apply(s, step).last == s.last
  {
  }

  /** The record stays until another runner makes its own. */
  lemma {:induction false} RecordStays(s: State, steps: seq<Step>, disciplined: bool)
    requires IsRun(s, steps, disciplined) && forall step :: step in steps ==> !step.RecordLast?
    ensures Final(s, steps, disciplined).last == s.last
    decreases |steps|
  {
    hide Disciplined, Enabled, Apply;
    if steps != [] {
      assert steps[0] in steps;
      RecordStep(s, steps[0]);
      RecordStays(Apply(s, steps[0]), steps[1..], disciplined);
    }
  }

  /* ----- reading the two files one after the other ----- */

  /** A run that has made its record, or never will: it is over, or about to clear its lock. */
  predicate Recorded(s: State, p: Pid) {
    p < s.nextPid && (p in s.live ==> s.live[p].pc.Clearing?)
  }

  /** The last record was made by such a run. */
  predicate WriterIsDone(s: State) {
    s.last.Some? ==> Recorded(s, s.last.value.writer)
  }

  lemma RecordedStep(s: State, step: Step, p: Pid)
    requires Recorded(s, p) && Enabled(s, step)
    ensures Recorded(Apply(s, step), p)
    ensures step.RecordLast? ==> step.pid != p
  {
  }

  lemma WriterIsDoneStep(s: State, step: Step)
    requires Enabled(s, step) && WriterIsDone(s) && forall p :: p in s.live ==> p < s.nextPid
    ensures WriterIsDone(Apply(s, step)) && forall p :: p in Apply(s, step).live ==> p < Apply(s, step).nextPid
    ensures step.RecordLast? ==> Apply(s, step).last.Some? && Apply(s, step).last.value.writer == step.pid
  {
  }

  /** After any run whatsoever the last record is by a run that is done. */
  lemma {:induction false} WriterIsDoneAfter(s: State, steps: seq<Step>, disciplined: bool)
    requires IsRun(s, steps, disciplined) && WriterIsDone(s) && forall p :: p in s.live ==> p < s.nextPid
    ensures WriterIsDone(Final(s, steps, disciplined))
    ensures forall p :: p in Final(s, steps, disciplined).live ==> p < Final(s, steps, disciplined).nextPid
    decreases |steps|
  {
    hide Enabled, Apply, Disciplined, WriterIsDone;
    if steps != [] {
      WriterIsDoneStep(s, steps[0]);
      WriterIsDoneAfter(Apply(s, steps[0]), steps[1..], disciplined);
    }
  }

  /** Once a run is done and another record has been made, the record is never that run's again. */
  lemma {:induction false} NeverAgain(s: State, steps: seq<Step>, disciplined: bool, p: Pid)
    requires IsRun(s, steps, disciplined) && Recorded(s, p) && s.last.Some? && s.last.value.writer != p
    ensures var e := Final(s, steps, disciplined); e.last.Some? && e.last.value.writer != p
    decreases |steps|
  {
    hide Disciplined, Recorded;
    if steps != [] {
      RecordedStep(s, steps[0], p);
      NeverAgain(Apply(s, steps[0]), steps[1..], disciplined, p);
    }
  }

  /** The record has changed exactly if a run has made its record in between. */
  lemma {:induction false} SameRecordIff(s: State, steps: seq<Step>, disciplined: bool)
    requires IsRun(s, steps, disciplined) && WriterIsDone(s) && forall p :: p in s.live ==> p < s.nextPid
    ensures Final(s, steps, disciplined).last == s.last <==> forall step :: step in steps ==> !step.RecordLast?
    decreases |steps|
  {
    hide Disciplined, Recorded, Enabled, Apply;
    if steps != [] {
      var t := Apply(s, steps[0]);
      assert steps[0] in steps;
      assert steps == [steps[0]] + steps[1..];
      if steps[0].RecordLast? {
        OtherRecord(s, steps, disciplined);
      } else {
        RecordStep(s, steps[0]);
        WriterIsDoneStep(s, steps[0]);
        SameRecordIff(t, steps[1..], disciplined);
      }
    }
  }

  lemma OtherRecord(s: State, steps: seq<Step>, disciplined: bool)
    requires IsRun(s, steps, disciplined) && steps != [] && steps[0].RecordLast? && WriterIsDone(s)
    ensures Final(s, steps, disciplined).last != s.last
  {
    hide Disciplined;
    if s.last.Some? {
      RecordedStep(s, steps[0], s.last.value.writer);
      NeverAgain(Apply(s, steps[0]), steps[1..], disciplined, s.last.value.writer);
    } else {
      RecordedOnce(Apply(s, steps[0]), steps[1..], disciplined);
    }
  }

  lemma {:induction false} RecordedOnce(s: State, steps: seq<Step>, disciplined: bool)
    requires IsRun(s, steps, disciplined) && s.last.Some?
    ensures Final(s, steps, disciplined).last.Some?
    decreases |steps|
  {
    hide Disciplined;
    if steps != [] {
      RecordedOnce(Apply(s, steps[0]), steps[1..], disciplined);
    }
  }

  /**
   * read_status reads the last record first and looks at the lock later. Whatever happens in between, the record it
   * reports is the one there is when it looks at the lock exactly if no run made its record in the meantime.
   */
  lemma SplitReadIsCurrentIff(s: State, before: seq<Step>, between: seq<Step>)
    requires Initial(s) && IsRun(s, before, false) && IsRun(Final(s, before, false), between, false)
    ensures var seen, e := Final(s, before, false).last, Final(Final(s, before, false), between, false);
            seen == e.last <==> forall step :: step in between ==> !step.RecordLast?
  {
    WriterIsDoneAfter(s, before, false);
    SameRecordIff(Final(s, before, false), between, false);
  }

  /** So a run that records and clears its lock in between is missed: no lock, and an older record. */
  lemma SplitReadMissesRecord(s: State, p: Pid)
    requires Inv(s) && p in s.live && s.live[p].pc.Recording?
    requires s.last.Some? ==> s.last.value.writer != p
    ensures IsRun(s, [RecordLast(p), ClearLock(p)], true)
    ensures var e := Final(s, [RecordLast(p), ClearLock(p)], true);
            && e.lock == Absent && !StatusOf(e).inProgress
            && e.last.Some? && e.last.value.writer == p && s.last != e.last
  {
    var recorded := Apply(s, RecordLast(p));
    RunCons(recorded, ClearLock(p), [], true);
    assert [ClearLock(p)] + [] == [ClearLock(p)];
    RunCons(s, RecordLast(p), [ClearLock(p)], true);
    assert [RecordLast(p)] + [ClearLock(p)] == [RecordLast(p), ClearLock(p)];
  }
}
