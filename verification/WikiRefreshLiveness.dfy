/** When a start command gets through, over every run whatsoever, and the one state in which it never does. */
module WikiRefreshLiveness {
  import opened Options
  import opened WikiRefresh
  import opened WikiRefreshSafety

  /** The steps of one uninterrupted start command that finds nothing in progress. */
  function StartCommand(s: State, modules: nat): seq<Step> {
    [StartCheck] + (if s.lock == Absent then [] else [StartUnlink]) + [StartSpawn(modules), StartWrite(s.clock)]
  }

  /** The start command spawns exactly one more runner and announces it. */
  lemma StartCommandRun(s: State, modules: nat)
    requires s.start.NoStart? && !StatusOf(s).inProgress && s.clock > 0
    ensures IsRun(s, StartCommand(s, modules), false)
    ensures var e := Final(s, StartCommand(s, modules), false);
            e == s.(live := s.live[s.nextPid := Runner(Born, s.clock, modules, 0)], nextPid := s.nextPid + 1,
                    lock := Json(Payload(s.nextPid, s.clock, Starting, None, 0)))
  {
    var checked := Apply(s, StartCheck);
    var ready := if s.lock == Absent then checked else Apply(checked, StartUnlink);
    var spawned := Apply(ready, StartSpawn(modules));
    RunCons(spawned, StartWrite(s.clock), [], false);
    RunCons(ready, StartSpawn(modules), [StartWrite(s.clock)] + [], false);
    var tail := [StartSpawn(modules)] + ([StartWrite(s.clock)] + []);
    if s.lock == Absent {
      RunCons(s, StartCheck, tail, false);
      assert StartCommand(s, modules) == [StartCheck] + tail;
    } else {
      RunCons(checked, StartUnlink, tail, false);
      RunCons(s, StartCheck, [StartUnlink] + tail, false);
      assert StartCommand(s, modules) == [StartCheck] + ([StartUnlink] + tail);
    }
  }

  /** Readers see nothing in progress, and a start command ends with its new runner alive and announced. */
  ghost predicate StartGetsThrough(s: State, modules: nat) {
    && !StatusOf(s).inProgress
    && IsRun(s, StartCommand(s, modules), false)
    && var e := Final(s, StartCommand(s, modules), false);
       e.live.Keys == s.live.Keys + {s.nextPid} && StatusOf(e) == Status(true, Some(s.nextPid), true, false)
  }

  lemma StartsIffNothingInProgress(s: State, modules: nat)
    requires s.start.NoStart? && s.clock > 0 && s.nextPid > 0
    ensures StartGetsThrough(s, modules) <==> !StatusOf(s).inProgress
  {
    if !StatusOf(s).inProgress {
      StartCommandRun(s, modules);
    }
  }

  /** A lock older than the limit blocks no start, in any state whatsoever. */
  lemma OldLockNeverBlocks(s: State, modules: nat)
    requires s.lock.Json? && s.lock.payload.startedAt != 0 && s.start.NoStart? && s.clock > 0 && s.nextPid > 0
    requires s.clock - s.lock.payload.startedAt > STALE_LOCK_AFTER_SECONDS
    ensures StartGetsThrough(s, modules)
  {
    StartsIffNothingInProgress(s, modules);
  }

  /* ----- locks that name nobody ----- */

  /** Nobody is running, yet the lock carries neither a pid nor a start time. */
  predicate Wedged(s: State) {
    && s.live == map[] && s.start.NoStart? && s.cancel.NoCancel?
    && s.lock.Json? && s.lock.payload.pid == 0 && s.lock.payload.startedAt == 0
  }

  /** A lock without a pid has no start time either, on disk and in the hands of a runner. */
  predicate NamelessOk(s: State) {
    && s.clock > 0 && s.nextPid > 0
    && (s.start.MustWrite? ==> s.start.child > 0)
    && (s.lock.Json? && s.lock.payload.pid == 0 ==> s.lock.payload.startedAt == 0)
    && (forall p :: p in s.live ==> p > 0)
    && (forall p :: p in s.live && s.live[p].pc.Merging? && s.live[p].pc.read.Json? ==>
          (s.live[p].pc.read.payload.pid == 0 ==> s.live[p].pc.read.payload.startedAt == 0))
  }

  lemma NamelessStep(s: State, step: Step)
    requires NamelessOk(s) && Enabled(s, step)
    ensures NamelessOk(Apply(s, step))
  {
  }

  lemma {:induction false} NamelessRun(s: State, steps: seq<Step>)
    requires NamelessOk(s) && IsRun(s, steps, false)
    ensures NamelessOk(Final(s, steps, false))
    decreases |steps|
  {
    hide NamelessOk, Enabled, Apply;
    if steps != [] {
      NamelessStep(s, steps[0]);
      NamelessRun(Apply(s, steps[0]), steps[1..]);
    }
  }

  /**
   * Whatever happened before, in whatever order and with whatever crashes: when no runner is left and no command is
   * under way, readers report nothing in progress and the next start gets through, exactly unless the lock is a
   * nameless one.
   */
  lemma StartsUnlessWedged(s: State, steps: seq<Step>, modules: nat)
    requires Initial(s) && IsRun(s, steps, false)
    requires var e := Final(s, steps, false); e.live == map[] && e.start.NoStart? && e.cancel.NoCancel?
    ensures StartGetsThrough(Final(s, steps, false), modules) <==> !Wedged(Final(s, steps, false))
  {
    NamelessRun(s, steps);
    var e := Final(s, steps, false);
    StartsIffNothingInProgress(e, modules);
  }

  lemma DisciplinedRunsAreRuns(s: State, steps: seq<Step>)
    requires IsRun(s, steps, true)
    ensures IsRun(s, steps, false) && Final(s, steps, false) == Final(s, steps, true)
    decreases |steps|
  {
    hide Enabled, Disciplined, Apply;
    if steps != [] {
      DisciplinedRunsAreRuns(Apply(s, steps[0]), steps[1..]);
    }
  }

  /** Disciplined runs never end in a nameless lock: with no live runner the next start gets through. */
  lemma NeverWedged(s: State, steps: seq<Step>, modules: nat)
    requires Initial(s) && IsRun(s, steps, true)
    requires Final(s, steps, true).live == map[] && Final(s, steps, true).start.NoStart?
    ensures StartGetsThrough(Final(s, steps, true), modules)
  {
    InitialInv(s);
    RunKeepsInv(s, steps);
    StartsIffNothingInProgress(Final(s, steps, true), modules);
  }

  lemma WedgedStep(s: State, step: Step)
    requires Wedged(s) && Enabled(s, step)
    ensures Wedged(Apply(s, step)) && StatusOf(s).inProgress
  {
  }

  /** No command and no amount of time ever clears such a lock: readers report a refresh in progress for ever. */
  lemma {:induction false} WedgedForever(s: State, steps: seq<Step>)
    requires Wedged(s) && IsRun(s, steps, false)
    ensures Wedged(Final(s, steps, false)) && StatusOf(Final(s, steps, false)).inProgress
    decreases |steps|
  {
    if steps != [] {
      WedgedStep(s, steps[0]);
      WedgedForever(Apply(s, steps[0]), steps[1..]);
    }
  }

  /**
   * Any cancel that still has to clear a lock it found stale, while a new runner lives that has yet to make its first
   * report, can end there: the runner rebuilds its progress on the missing lock, then is killed.
   */
  lemma LateCancelWedges(s: State, p: Pid) returns (steps: seq<Step>)
    requires s.cancel.MustClear? && s.start.NoStart? && s.live.Keys == {p} && s.live[p].pc.Working?
    ensures IsRun(s, steps, false) && Wedged(Final(s, steps, false))
  {
    var a := Apply(s, CancelClear);
    var b := Apply(a, ProgressRead(p));
    var c := Apply(b, ProgressWrite(p));
    var d := Apply(c, Killed(p));
    RunCons(c, Killed(p), [], false);
    RunCons(b, ProgressWrite(p), [Killed(p)] + [], false);
    RunCons(a, ProgressRead(p), [ProgressWrite(p)] + ([Killed(p)] + []), false);
    RunCons(s, CancelClear, [ProgressRead(p)] + ([ProgressWrite(p)] + ([Killed(p)] + [])), false);
    steps := [CancelClear] + ([ProgressRead(p)] + ([ProgressWrite(p)] + ([Killed(p)] + [])));
    assert d.live == map[];
  }

  /** And such a state is reached: a stale lock, a cancel that has looked at it, a start, the runner's first write. */
  lemma LateCancelHappens(s: State, modules: nat) returns (steps: seq<Step>)
    requires Initial(s) && s.lock != Absent
    ensures IsRun(s, steps, false)
    ensures var e := Final(s, steps, false);
            e.cancel.MustClear? && e.start.NoStart? && e.live.Keys == {s.nextPid} && e.live[s.nextPid].pc.Working?
  {
    var seen := Apply(s, CancelCheck);
    StartCommandRun(seen, modules);
    var run := StartCommand(seen, modules);
    var spawned := Final(seen, run, false);
    RunCons(spawned, RunnerInit(s.nextPid, s.clock), [], false);
    Concat(seen, run, [RunnerInit(s.nextPid, s.clock)] + []);
    RunCons(s, CancelCheck, run + ([RunnerInit(s.nextPid, s.clock)] + []), false);
    steps := [CancelCheck] + (run + ([RunnerInit(s.nextPid, s.clock)] + []));
  }

  lemma {:induction false} Concat(s: State, a: seq<Step>, b: seq<Step>)
    requires IsRun(s, a, false) && IsRun(Final(s, a, false), b, false)
    ensures IsRun(s, a + b, false) && Final(s, a + b, false) == Final(Final(s, a, false), b, false)
    decreases |a|
  {
    hide Enabled, Apply;
    if a == [] {
      assert a + b == b;
    } else {
      assert (a + b)[1..] == a[1..] + b;
      Concat(Apply(s, a[0]), a[1..], b);
    }
  }
}
