/**
 * The background wiki refresh (libs/copilot/wiki_background.py, libs/copilot/_wiki_bg_runner.py) as a state
 * machine over its file operations. Starter, runner, canceller and reader share nothing but the lock file and
 * the record of the last run; every read, write, unlink, spawn and signal is a step of its own, so that steps of
 * different processes interleave.
 */
module WikiRefresh {
  import opened Options

  type Pid = nat
  type Time = nat

  const STALE_LOCK_AFTER_SECONDS: nat := 3600

  /** Exit codes recorded by the runner: clean, cancelled by SIGTERM. */
  const EXIT_OK := 0
  const EXIT_SIGTERM := 143

  datatype Phase = Starting | Loading | Generating | Finalizing

  /** Parsed lock file; pid and startedAt are 0 when the key is missing, as the reader treats both alike. */
  datatype Payload = Payload(pid: Pid, startedAt: Time, phase: Phase, modulesTotal: Option<nat>, modulesDone: nat)

  datatype LockFile = Absent | Corrupt | Json(payload: Payload)

  /** writer names the run that wrote the record; the file itself does not hold it. */
  datatype Record = Record(writer: Pid, exitCode: int, modulesUpdated: nat)

  datatype Status = Status(inProgress: bool, pid: Option<Pid>, lockExists: bool, stale: bool)

  /** One call of write_progress; a module boundary reports how many of how many modules are done. */
  datatype Report = LoadingReport | ModuleReport(total: nat, done: nat) | FinalReport

  /** Where the runner is; Merging holds the payload write_progress has read and not yet written back. */
  datatype RunnerPc =
    | Born
    | Working(next: Report)
    | Merging(report: Report, read: LockFile)
    | Recording(exitCode: int)
    | Clearing(persisted: bool)

  datatype Runner = Runner(pc: RunnerPc, spawnedAt: Time, modules: nat, reported: nat)

  datatype StartPc = NoStart | MustUnlink | MustSpawn | MustWrite(child: Pid, spawned: Time)

  datatype CancelPc = NoCancel | MustClear | MustSignal(target: Pid)

  datatype State = State(
    clock: Time,
    nextPid: Pid,
    live: map<Pid, Runner>,
    lock: LockFile,
    last: Option<Record>,
    start: StartPc,
    cancel: CancelPc)

  /* ----- reading ----- */

  /** What read_status reports about the lock. */
  function ReadStatus(lock: LockFile, live: set<Pid>, clock: Time): Status {
    match lock
    case Absent => Status(false, None, false, false)
    case Corrupt => Status(false, None, true, true)
    case Json(p) =>
      var dead := p.pid != 0 && p.pid !in live;
      var expired := p.startedAt != 0 && clock - p.startedAt > STALE_LOCK_AFTER_SECONDS;
      Status(!(dead || expired), if p.pid == 0 then None else Some(p.pid), true, dead || expired)
  }

  function StatusOf(s: State): Status {
    ReadStatus(s.lock, s.live.Keys, s.clock)
  }

  /** The payload write_progress puts together from what it read. */
  function Merged(read: LockFile, report: Report): Payload {
    var base := if read.Json? then read.payload else Payload(0, 0, Starting, None, 0);
    match report
    case LoadingReport => base.(phase := Loading)
    case ModuleReport(total, done) => base.(phase := Generating, modulesTotal := Some(total), modulesDone := done)
    case FinalReport => base.(phase := Finalizing)
  }

  /** Reports follow each other as the update pipeline makes them: loading, done = 0 .. total, finalizing. */
  function After(report: Report, modules: nat): RunnerPc {
    match report
    case LoadingReport => Working(ModuleReport(modules, 0))
    case ModuleReport(total, done) => if done < total then Working(ModuleReport(total, done + 1)) else Working(FinalReport)
    case FinalReport => Recording(EXIT_OK)
  }

  function Reported(report: Report, before: nat): nat {
    if report.ModuleReport? then report.done else before
  }

  /* ----- steps ----- */

  datatype Step =
    | Tick
    // starter
    | StartCheck
    | StartUnlink
    | StartSpawn(modules: nat)
    | StartWrite(stamp: Time)
    | StartDies                        // the starting process is killed before its call returns
    // canceller
    | CancelCheck
    | CancelClear
    | CancelSignal
    // runner
    | RunnerTruncate(pid: Pid)         // the first half of a plain write: the file is open and empty
    | RunnerInit(pid: Pid, stamp: Time)
    | ProgressRead(pid: Pid)
    | ProgressWrite(pid: Pid)
    | RunnerFails(pid: Pid, exitCode: int)
    | RecordLast(pid: Pid)
    | RecordFails(pid: Pid)
    | ClearLock(pid: Pid)
    | Killed(pid: Pid)

  predicate Enabled(s: State, step: Step) {
    match step
    case Tick => true
    case StartCheck => s.start.NoStart?
    case StartUnlink => s.start.MustUnlink?
    case StartSpawn(_) => s.start.MustSpawn?
    case StartWrite(stamp) => s.start.MustWrite? && s.start.spawned <= stamp <= s.clock
    case StartDies => !s.start.NoStart?
    case CancelCheck => s.cancel.NoCancel?
    case CancelClear => s.cancel.MustClear?
    case CancelSignal => s.cancel.MustSignal?
    case RunnerTruncate(p) => p in s.live && s.live[p].pc.Born?
    case RunnerInit(p, stamp) => p in s.live && s.live[p].pc.Born? && s.live[p].spawnedAt <= stamp <= s.clock
    case ProgressRead(p) => p in s.live && s.live[p].pc.Working?
    case ProgressWrite(p) => p in s.live && s.live[p].pc.Merging?
    case RunnerFails(p, _) => p in s.live && (s.live[p].pc.Working? || s.live[p].pc.Merging?)
    case RecordLast(p) => p in s.live && s.live[p].pc.Recording?
    case RecordFails(p) => p in s.live && s.live[p].pc.Recording?
    case ClearLock(p) => p in s.live && s.live[p].pc.Clearing?
    case Killed(p) => p in s.live
  }

  function WithPc(s: State, p: Pid, pc: RunnerPc): State
    requires p in s.live
  {
    s.(live := s.live[p := s.live[p].(pc := pc)])
  }

  /** SIGTERM unwinds a runner through its finally block; before the handler is installed it just dies. */
  function Signalled(s: State, p: Pid): State
    requires p in s.live
  {
    match s.live[p].pc
    case Born => s.(live := s.live - {p})
    case Working(_) => WithPc(s, p, Recording(EXIT_SIGTERM))
    case Merging(_, _) => WithPc(s, p, Recording(EXIT_SIGTERM))
    case Recording(_) => s.(live := s.live - {p})
    case Clearing(_) => s.(live := s.live - {p})
  }

  function Apply(s: State, step: Step): State
    requires Enabled(s, step)
  {
    match step
    case Tick => s.(clock := s.clock + 1)
    case StartCheck =>
      var status := StatusOf(s);
      if status.inProgress then s
      else if status.stale && status.lockExists then s.(start := MustUnlink)
      else s.(start := MustSpawn)
    case StartUnlink => s.(lock := Absent, start := MustSpawn)
    case StartSpawn(modules) =>
      s.(live := s.live[s.nextPid := Runner(Born, s.clock, modules, 0)],
         nextPid := s.nextPid + 1,
         start := MustWrite(s.nextPid, s.clock))
    case StartWrite(stamp) =>
      s.(lock := Json(Payload(s.start.child, stamp, Starting, None, 0)), start := NoStart)
    case StartDies => s.(start := NoStart)
    case CancelCheck =>
      var status := StatusOf(s);
      if !status.inProgress || status.pid.None? then
        if status.stale && status.lockExists then s.(cancel := MustClear) else s
      else s.(cancel := MustSignal(status.pid.value))
    case CancelClear => s.(lock := Absent, cancel := NoCancel)
    case CancelSignal =>
      if s.cancel.target in s.live then Signalled(s, s.cancel.target).(cancel := NoCancel)
      else s.(cancel := MustClear)
    case RunnerTruncate(_) => s.(lock := Corrupt)
    case RunnerInit(p, stamp) =>
      WithPc(s, p, Working(LoadingReport)).(lock := Json(Payload(p, stamp, Starting, None, 0)))
    case ProgressRead(p) =>
      var r := s.live[p];
      var report := r.pc.next;
      s.(live := s.live[p := r.(pc := Merging(report, s.lock), reported := Reported(report, r.reported))])
    case ProgressWrite(p) =>
      var r := s.live[p];
      WithPc(s, p, After(r.pc.report, r.modules)).(lock := Json(Merged(r.pc.read, r.pc.report)))
    case RunnerFails(p, exitCode) => WithPc(s, p, Recording(exitCode))
    case RecordLast(p) =>
      WithPc(s, p, Clearing(true)).(last := Some(Record(p, s.live[p].pc.exitCode, s.live[p].reported)))
    case RecordFails(p) => WithPc(s, p, Clearing(false))
    case ClearLock(p) => s.(live := s.live - {p}, lock := Absent)
    case Killed(p) => s.(live := s.live - {p})
  }

  /* ----- runs ----- */

  /** Nothing runs; a lock left over from earlier runs, even a corrupt one, and their last record may still be there. */
  predicate Initial(s: State) {
    && s.clock > 0 && s.nextPid > 0 && s.live == map[] && s.start == NoStart && s.cancel == NoCancel
    && (s.lock.Json? ==> 0 < s.lock.payload.pid < s.nextPid && ProgressOk(s.lock.payload))
    && (s.last.Some? ==> s.last.value.writer < s.nextPid)
  }

  /** A lock never reports more modules done than there are. */
  predicate ProgressOk(p: Payload) {
    match p.modulesTotal
    case None => p.modulesDone == 0
    case Some(total) => p.modulesDone <= total
  }

  function Min(a: int, b: int): int {
    if a < b then a else b
  }

  /** The earliest start time that the lock of a live run shows or may still come to show. */
  function OldestStamp(s: State, p: Pid): int
    requires p in s.live
  {
    var r := s.live[p];
    if r.pc.Born? || s.start.MustWrite? || !s.lock.Json? then r.spawnedAt
    else if r.pc.Merging? && r.pc.read.Json? then Min(s.lock.payload.startedAt, r.pc.read.payload.startedAt)
    else s.lock.payload.startedAt
  }

  /**
   * What the protocol relies on: no runner is spawned while a cancel is between looking at the lock and acting on
   * it, the starter survives its spawn until its child is announced or gone, the runner's first write is not
   * observed half done, and no run gets older than the stale limit. All other steps of all processes interleave
   * freely.
   */
  predicate Disciplined(s: State, step: Step) {
    match step
    case Tick => forall p :: p in s.live ==> s.clock + 1 <= OldestStamp(s, p) + STALE_LOCK_AFTER_SECONDS
    case StartSpawn(_) => s.cancel.NoCancel?
    case StartDies => !(s.start.MustWrite? && s.start.child in s.live && s.lock == Absent)
    case RunnerTruncate(_) => false
    case _ => true
  }

  ghost predicate IsRun(s: State, steps: seq<Step>, disciplined: bool)
    decreases |steps|
  {
    steps == [] ||
    (Enabled(s, steps[0]) && (disciplined ==> Disciplined(s, steps[0])) && IsRun(Apply(s, steps[0]), steps[1..], disciplined))
  }

  ghost function Final(s: State, steps: seq<Step>, disciplined: bool): State
    requires IsRun(s, steps, disciplined)
    decreases |steps|
  {
    if steps == [] then s else Final(Apply(s, steps[0]), steps[1..], disciplined)
  }
}
