/**
 * The discipline is exact: every step outside of it, from any state that disciplined runs reach, has a disciplined
 * continuation that is unsafe, most of them with two live runners.
 */
module WikiRefreshLimits {
  import opened Options
  import opened WikiRefresh
  import opened WikiRefreshSafety

  /** The state after the given steps, if they are a run. */
  function Execute(s: State, steps: seq<Step>, disciplined: bool): Option<State>
    decreases |steps|
  {
    if steps == [] then Some(s)
    else if !Enabled(s, steps[0]) || (disciplined && !Disciplined(s, steps[0])) then None
    else Execute(Apply(s, steps[0]), steps[1..], disciplined)
  }

  lemma {:induction false} ExecuteIsRun(s: State, steps: seq<Step>, disciplined: bool)
    requires Execute(s, steps, disciplined).Some?
    ensures IsRun(s, steps, disciplined) && Final(s, steps, disciplined) == Execute(s, steps, disciplined).value
    decreases |steps|
  {
    if steps != [] {
      ExecuteIsRun(Apply(s, steps[0]), steps[1..], disciplined);
    }
  }

  lemma {:induction false} ExecuteAppend(s: State, steps: seq<Step>, disciplined: bool, step: Step)
    requires Execute(s, steps, disciplined).Some? && Enabled(Execute(s, steps, disciplined).value, step)
    requires disciplined ==> Disciplined(Execute(s, steps, disciplined).value, step)
    ensures Execute(s, steps + [step], disciplined) == Some(Apply(Execute(s, steps, disciplined).value, step))
    decreases |steps|
  {
    hide Enabled, Disciplined, Apply;
    if steps == [] {
      assert ([] + [step])[1..] == [];
    } else {
      assert (steps + [step])[1..] == steps[1..] + [step];
      ExecuteAppend(Apply(s, steps[0]), steps[1..], disciplined, step);
    }
  }

  /** One more step of a disciplined run. */
  lemma Then(s: State, steps: seq<Step>, now: State, step: Step) returns (more: seq<Step>, next: State)
    requires Execute(s, steps, true) == Some(now) && Enabled(now, step) && Disciplined(now, step)
    ensures Execute(s, more, true) == Some(next) && next == Apply(now, step)
  {
    ExecuteAppend(s, steps, true, step);
    more, next := steps + [step], Apply(now, step);
  }

  lemma TwoAlive(s: State, p: Pid, q: Pid)
    requires s.live.Keys == {p, q} && p != q
    ensures |s.live| == 2
  {
    assert |s.live| == |s.live.Keys|;
  }

  /** The run steps from t ends with two live runners. */
  ghost predicate EndsWithTwo(t: State, steps: seq<Step>) {
    IsRun(t, steps, true) && |Final(t, steps, true).live| == 2
  }

  /** A start command that reaches its spawn while p is alive and no cancel is pending. */
  lemma SpawnBeside(t: State, steps: seq<Step>, now: State, p: Pid, modules: nat) returns (more: seq<Step>)
    requires Execute(t, steps, true) == Some(now)
    requires now.live.Keys == {p} && p < now.nextPid && now.start.NoStart? && now.cancel.NoCancel?
    requires !StatusOf(now).inProgress
    ensures EndsWithTwo(t, more)
  {
    var s;
    more, s := Then(t, steps, now, StartCheck);
    if s.start.MustUnlink? {
      more, s := Then(t, more, s, StartUnlink);
    }
    more, s := Then(t, more, s, StartSpawn(modules));
    ExecuteIsRun(t, more, true);
    TwoAlive(s, p, now.nextPid);
  }

  /* ----- each clause of the discipline ----- */

  /** A cancel that acts on what it saw before the spawn removes the lock of the new run, and the next start spawns. */
  lemma SpawnUnderCancel(s: State, modules: nat) returns (rest: seq<Step>)
    requires Inv(s) && Enabled(s, StartSpawn(modules)) && !s.cancel.NoCancel?
    ensures EndsWithTwo(Apply(s, StartSpawn(modules)), rest)
  {
    var t := Apply(s, StartSpawn(modules));
    var now;
    rest, now := Then(t, [], t, StartWrite(s.clock));
    if now.cancel.MustSignal? {
      rest, now := Then(t, rest, now, CancelSignal);
    }
    rest, now := Then(t, rest, now, CancelClear);
    rest := SpawnBeside(t, rest, now, s.nextPid, modules);
  }

  /** A starter that dies before its child is announced leaves room for a second runner. */
  lemma DyingStarter(s: State, modules: nat) returns (rest: seq<Step>)
    requires Inv(s) && s.start.MustWrite? && s.start.child in s.live && s.lock == Absent
    ensures EndsWithTwo(Apply(s, StartDies), rest)
  {
    var t := Apply(s, StartDies);
    rest := SpawnBeside(t, [], t, s.start.child, modules);
  }

  /**
   * The runner's first write is a plain one. A start that sees it half done takes the lock for stale; while the
   * runner's own starter is still to write, a cancel does, and removes the lock that starter then writes.
   */
  lemma HalfWrite(s: State, p: Pid, modules: nat) returns (rest: seq<Step>)
    requires Inv(s) && Enabled(s, RunnerTruncate(p))
    ensures EndsWithTwo(Apply(s, RunnerTruncate(p)), rest)
  {
    assert RunnerOk(s, p);
    var t := Apply(s, RunnerTruncate(p));
    var now;
    if s.start.MustWrite? {
      rest, now := Then(t, [], t, CancelCheck);
      rest, now := Then(t, rest, now, StartWrite(s.clock));
      rest, now := Then(t, rest, now, CancelClear);
      rest := SpawnBeside(t, rest, now, p, modules);
    } else if s.cancel.NoCancel? {
      rest := SpawnBeside(t, [], t, p, modules);
    } else {
      rest, now := Then(t, [], t, StartCheck);
      rest, now := Then(t, rest, now, RunnerInit(p, s.clock));
      rest, now := Then(t, rest, now, CancelSignal);
      rest, now := Then(t, rest, now, StartUnlink);
      rest, now := Then(t, rest, now, StartSpawn(modules));
      ExecuteIsRun(t, rest, true);
      TwoAlive(now, p, s.nextPid);
    }
  }

  /** The steps that bring the oldest stamp of a run into its lock. */
  lemma ShowOldestStamp(s: State, p: Pid) returns (rest: seq<Step>, now: State)
    requires Inv(s) && p in s.live && !Disciplined(s, Tick)
    ensures Execute(Apply(s, Tick), rest, true) == Some(now)
    ensures now.live.Keys == {p} && p < now.nextPid && now.start.NoStart? && now.cancel == s.cancel
    ensures now.lock != Absent && !StatusOf(now).inProgress
  {
    assert RunnerOk(s, p);
    var t := Apply(s, Tick);
    rest, now := [], t;
    if s.start.MustWrite? {
      rest, now := Then(t, rest, now, StartWrite(s.start.spawned));
    } else if s.live[p].pc.Born? {
      rest, now := Then(t, rest, now, RunnerInit(p, s.live[p].spawnedAt));
    } else if s.live[p].pc.Merging? && s.live[p].pc.read.payload.startedAt < s.lock.payload.startedAt {
      rest, now := Then(t, rest, now, ProgressWrite(p));
    }
  }

  /** A run older than the limit is taken for stale while it lives. */
  lemma LongRunLooksStale(s: State) returns (rest: seq<Step>)
    requires Inv(s) && !Disciplined(s, Tick)
    ensures IsRun(Apply(s, Tick), rest, true) && !Safe(Final(Apply(s, Tick), rest, true))
  {
    var p :| p in s.live;
    var now;
    rest, now := ShowOldestStamp(s, p);
    ExecuteIsRun(Apply(s, Tick), rest, true);
  }

  /** And with no cancel pending the next start duplicates it. */
  lemma LongRunIsDuplicated(s: State, modules: nat) returns (rest: seq<Step>)
    requires Inv(s) && !Disciplined(s, Tick) && s.cancel.NoCancel?
    ensures EndsWithTwo(Apply(s, Tick), rest)
  {
    var p :| p in s.live;
    var now;
    rest, now := ShowOldestStamp(s, p);
    rest := SpawnBeside(Apply(s, Tick), rest, now, p, modules);
  }

  /* ----- the discipline is exact ----- */

  /** Every disciplined continuation is safe. */
  ghost predicate StaysSafe(s: State) {
    forall rest :: IsRun(s, rest, true) ==> Safe(Final(s, rest, true))
  }

  lemma TwoAreUnsafe(s: State, rest: seq<Step>)
    requires EndsWithTwo(s, rest)
    ensures !StaysSafe(s)
  {
    var e := Final(s, rest, true);
    if Safe(e) {
      OneRunnerAtMost(e);
    }
  }

  /** A step from a reachable state keeps safety under every disciplined continuation exactly if it is disciplined. */
  lemma DisciplineIsExact(s: State, steps: seq<Step>, step: Step)
    requires Initial(s) && IsRun(s, steps, true) && Enabled(Final(s, steps, true), step)
    ensures Disciplined(Final(s, steps, true), step) <==> StaysSafe(Apply(Final(s, steps, true), step))
  {
    hide Initial, IsRun, Inv, Safe, Apply, Enabled, Disciplined;
    InitialInv(s);
    RunKeepsInv(s, steps);
    StepIsSafeIff(Final(s, steps, true), step);
  }

  lemma StepIsSafeIff(s: State, step: Step)
    requires Inv(s) && Enabled(s, step)
    ensures Disciplined(s, step) <==> StaysSafe(Apply(s, step))
  {
    hide Inv, Safe, Apply;
    var t := Apply(s, step);
    if Disciplined(s, step) {
      InvStep(s, step);
      forall rest | IsRun(t, rest, true)
        ensures Safe(Final(t, rest, true))
      {
        RunKeepsInv(t, rest);
        InvIsSafe(Final(t, rest, true));
      }
    } else {
      var rest;
      match step
      case Tick => rest := LongRunLooksStale(s);
      case StartSpawn(modules) =>
        rest := SpawnUnderCancel(s, modules);
        TwoAreUnsafe(t, rest);
      case StartDies =>
        rest := DyingStarter(s, 1);
        TwoAreUnsafe(t, rest);
      case RunnerTruncate(p) =>
        rest := HalfWrite(s, p, 1);
        TwoAreUnsafe(t, rest);
    }
  }
}
