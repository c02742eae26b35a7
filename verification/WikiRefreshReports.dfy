/** What the lock tells of a run: the phase of its last report, and the last number of modules it has reported. */
module WikiRefreshReports {
  import opened Options
  import opened WikiRefresh
  import opened WikiRefreshSafety
  import opened WikiRefreshSnapshots

  /** The phase that was reported last, and the number of modules, if any was reported. */
  datatype News = News(phase: Phase, done: Option<nat>)

  /** A step tells news of run p when a report of it, or one of the two first writes, gets into the lock. */
  ghost function Told(s: State, step: Step, p: Pid, news: News): News {
    match step
    case StartWrite(_) => News(Starting, news.done)
    case RunnerInit(q, _) => if q == p then News(Starting, news.done) else news
    case ProgressWrite(q) =>
      if q == p && p in s.live && s.live[p].pc.Merging? then
        match s.live[p].pc.report
        case LoadingReport => News(Loading, news.done)
        case ModuleReport(_, done) => News(Generating, Some(done))
        case FinalReport => News(Finalizing, news.done)
      else news
    case _ => news
  }

  ghost function ToldBy(s: State, steps: seq<Step>, p: Pid, news: News): News
    requires IsRun(s, steps, true)
    decreases |steps|
  {
    if steps == [] then news else ToldBy(Apply(s, steps[0]), steps[1..], p, Told(s, steps[0], p, news))
  }

  /* ----- from the announcement on ----- */

  /** The payload has the numbers that were told. */
  predicate Counts(payload: Payload, modules: nat, done: Option<nat>) {
    done.Some? ==> payload.modulesTotal == Some(modules) && payload.modulesDone == done.value
  }

  /** The lock has the news, and so has what a merge in progress has read. */
  predicate Shows(s: State, p: Pid, news: News) {
    && Announced(s, p) && s.lock.payload.phase == news.phase
    && Counts(s.lock.payload, s.live[p].modules, news.done)
    && (s.live[p].pc.Merging? && news.done.Some? ==>
          s.live[p].pc.read.Json? && Counts(s.live[p].pc.read.payload, s.live[p].modules, news.done))
    && (s.live[p].pc.Born? ==> news.done.None?)
  }

  lemma ShowsStep(s: State, step: Step, p: Pid, news: News)
    requires Inv(s) && Enabled(s, step) && Disciplined(s, step) && Shows(s, p, news)
    ensures var t := Apply(s, step);
            p in t.live ==> Shows(t, p, Told(s, step, p, news)) && t.live[p].modules == s.live[p].modules
  {
    InvStep(s, step);
    AnnouncedStep(s, step, p);
    assert RunnerOk(s, p);
  }

  /**
   * Over every disciplined run from the eager write on, while p lives: the lock shows the phase of the last report,
   * and from the first module report on the number of modules of the run and the number reported last.
   */
  lemma {:induction false} LockShowsReports(s: State, steps: seq<Step>, p: Pid, news: News)
    requires Inv(s) && Shows(s, p, news) && IsRun(s, steps, true)
    requires p in Final(s, steps, true).live
    ensures var e, told := Final(s, steps, true), ToldBy(s, steps, p, news);
            && e.lock.Json? && e.lock.payload.phase == told.phase
            && (told.done.Some? ==>
                  e.lock.payload.modulesTotal == Some(s.live[p].modules) && e.lock.payload.modulesDone == told.done.value)
    decreases |steps|
  {
    hide Inv, Disciplined, Enabled, Apply, Told;
    if steps != [] {
      var t := Apply(s, steps[0]);
      InvStep(s, steps[0]);
      ShowsStep(s, steps[0], p, news);
      KnownPid(s, p);
      if p in t.live {
        LockShowsReports(t, steps[1..], p, Told(s, steps[0], p, news));
      } else {
        StepKeepsPids(s, steps[0]);
        GoneForever(t, steps[1..], p);
      }
    }
  }

  /** The eager write itself tells that the run is starting. */
  lemma SnapshotsShowReports(s: State, steps: seq<Step>, p: Pid)
    requires Inv(s) && Announced(s, p) && IsRun(s, steps, true) && p in Final(s, steps, true).live
    ensures var e, told := Final(s, steps, true), ToldBy(s, steps, p, News(s.lock.payload.phase, None));
            && e.lock.Json? && e.lock.payload.phase == told.phase
            && (told.done.Some? ==>
                  e.lock.payload.modulesTotal == Some(s.live[p].modules) && e.lock.payload.modulesDone == told.done.value)
  {
    LockShowsReports(s, steps, p, News(s.lock.payload.phase, None));
  }

  /* ----- from the spawn on ----- */

  /** No module has been reported yet, and the lock, once there, says so. */
  predicate NoneYet(s: State, p: Pid, news: News) {
    && p in s.live
    && (s.lock.Json? ==> s.lock.payload.phase == news.phase)
    && (news.done.None? && s.lock.Json? ==> s.lock.payload.modulesTotal == None)
    && (news.done.None? && s.live[p].pc.Merging? ==>
          s.live[p].pc.read.Json? && s.live[p].pc.read.payload.modulesTotal == None)
  }

  lemma NoneYetStep(s: State, step: Step, p: Pid, news: News)
    requires Inv(s) && Enabled(s, step) && Disciplined(s, step) && NoneYet(s, p, news)
    ensures p in Apply(s, step).live ==> NoneYet(Apply(s, step), p, Told(s, step, p, news))
  {
    assert RunnerOk(s, p);
  }

  lemma {:induction false} NoneYetAfter(s: State, steps: seq<Step>, p: Pid, news: News)
    requires Inv(s) && NoneYet(s, p, news) && IsRun(s, steps, true)
    requires p in Final(s, steps, true).live
    ensures NoneYet(Final(s, steps, true), p, ToldBy(s, steps, p, news))
    decreases |steps|
  {
    hide Inv, Disciplined, Enabled, Apply, Told;
    if steps != [] {
      var t := Apply(s, steps[0]);
      InvStep(s, steps[0]);
      NoneYetStep(s, steps[0], p, news);
      KnownPid(s, p);
      if p in t.live {
        NoneYetAfter(t, steps[1..], p, Told(s, steps[0], p, news));
      } else {
        StepKeepsPids(s, steps[0]);
        GoneForever(t, steps[1..], p);
      }
    }
  }

  /**
   * Over every disciplined run from the spawn on, while the runner lives: a lock shows the phase told last, and no
   * total and nothing done before the first module report.
   */
  lemma NoTotalBeforeModules(s: State, modules: nat, steps: seq<Step>)
    requires Inv(s) && Enabled(s, StartSpawn(modules)) && Disciplined(s, StartSpawn(modules))
    requires IsRun(Apply(s, StartSpawn(modules)), steps, true)
    requires s.nextPid in Final(Apply(s, StartSpawn(modules)), steps, true).live
    ensures var t, p := Apply(s, StartSpawn(modules)), s.nextPid;
            var e, told := Final(t, steps, true), ToldBy(t, steps, p, News(Starting, None));
            e.lock.Json? ==>
              && e.lock.payload.phase == told.phase
              && (told.done.None? ==> e.lock.payload.modulesTotal == None && e.lock.payload.modulesDone == 0)
  {
    var t, p := Apply(s, StartSpawn(modules)), s.nextPid;
    InvStep(s, StartSpawn(modules));
    NoneYetAfter(t, steps, p, News(Starting, None));
    RunKeepsInv(t, steps);
    assert RunnerOk(Final(t, steps, true), p);
  }

  /* ----- the status and the exit ----- */

  /** A refresh is in progress while a lock names no dead process and shows no start more than an hour ago. */
  lemma StatusIff(lock: LockFile, live: set<Pid>, clock: Time)
    ensures var status := ReadStatus(lock, live, clock);
            && (status.inProgress <==>
                  lock.Json? && (lock.payload.pid == 0 || lock.payload.pid in live)
                  && (lock.payload.startedAt == 0 || clock <= lock.payload.startedAt + 3600))
            && (status.lockExists <==> lock != Absent)
            && (status.stale <==> lock != Absent && !status.inProgress)
            && (forall p :: status.pid == Some(p) <==> lock.Json? && lock.payload.pid == p != 0)
  {
  }

  /** A run that has been signalled: it can only record that it was terminated, after so many modules. */
  predicate Doomed(s: State, p: Pid, modules: nat) {
    && p < s.nextPid
    && (p in s.live ==> (s.live[p].pc == Recording(143) && s.live[p].reported == modules) || s.live[p].pc.Clearing?)
    && (s.last.Some? && s.last.value.writer == p ==> s.last.value == Record(p, 143, modules))
  }

  lemma DoomedStep(s: State, step: Step, p: Pid, modules: nat)
    requires Enabled(s, step) && Doomed(s, p, modules)
    ensures Doomed(Apply(s, step), p, modules)
  {
  }

  lemma {:induction false} DoomedAfter(s: State, steps: seq<Step>, disciplined: bool, p: Pid, modules: nat)
    requires IsRun(s, steps, disciplined) && Doomed(s, p, modules)
    ensures Doomed(Final(s, steps, disciplined), p, modules)
    decreases |steps|
  {
    hide Enabled, Apply, Disciplined, Doomed;
    if steps != [] {
      DoomedStep(s, steps[0], p, modules);
      DoomedAfter(Apply(s, steps[0]), steps[1..], disciplined, p, modules);
    }
  }

  /**
   * Whatever happens after a cancel has signalled a working runner: if that run leaves a record, then with exit code
   * 143 and the number of modules it had last reported.
   */
  lemma CancelledRunRecords(s: State, p: Pid, steps: seq<Step>, disciplined: bool)
    requires s.cancel == MustSignal(p) && p in s.live && p < s.nextPid
    requires s.live[p].pc.Working? || s.live[p].pc.Merging?
    requires s.last.Some? ==> s.last.value.writer != p
    requires IsRun(Apply(s, CancelSignal), steps, disciplined)
    ensures var e := Final(Apply(s, CancelSignal), steps, disciplined);
            e.last.Some? && e.last.value.writer == p ==> e.last.value == Record(p, 143, s.live[p].reported)
  {
    DoomedAfter(Apply(s, CancelSignal), steps, disciplined, p, s.live[p].reported);
  }
}
