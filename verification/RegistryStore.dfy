/**
 * Saving the registry, one file step at a time (save_config in libs/core/projects_config.py): write a sibling
 * temporary file, sync it, rename it over the target. Writers may stop, fail or crash after any step. A crash keeps
 * the synced content of a file and any earlier version of the directory entry, since the directory is never synced.
 */
module RegistryStore {
  import opened Options
  import opened Registry

  type Ino = nat
  type Writer = nat

  /** What a file holds; the text of a configuration reads back as that configuration. */
  datatype Content = Empty | Whole(config: Config) | Torn

  datatype Phase =
    | Idle
    /** Loaded the registry and computed what to save. */
    | Ready(op: Op, config: Config)
    | Opened(op: Op, config: Config, ino: Ino)
    | Written(op: Op, config: Config, ino: Ino)
    | Synced(op: Op, config: Config, ino: Ino)

  datatype Store = Store(
    /** Every file the target name has referred to since the last crash, the present one last. */
    names: seq<Option<Ino>>,
    tmp: Option<Ino>,
    data: map<Ino, Content>,
    synced: set<Ino>,
    phases: map<Writer, Phase>,
    /** Operations whose rename happened. */
    done: seq<Op>)

  datatype Step =
    | Begin(w: Writer, op: Op)
    | Open(w: Writer, ino: Ino)
    | Write(w: Writer)
    | Sync(w: Writer)
    | Rename(w: Writer)
    /** An error after any step: the half-written file is removed, or even that fails. */
    | Fail(w: Writer, torn: bool, cleaned: bool)
    | Crash(kept: nat, tmpAfter: Option<Ino>, left: map<Ino, Content>)

  function PhaseOf(s: Store, w: Writer): Phase {
    if w in s.phases then s.phases[w] else Idle
  }

  function Target(s: Store): Option<Ino>
    requires s.names != []
  {
    s.names[|s.names| - 1]
  }

  /** The configuration in the target file: no file and an empty file read as the default, a torn one as an error. */
  function Load(s: Store): Option<Config>
    requires s.names != []
  {
    ReadFile(s.data, Target(s))
  }

  function ReadFile(data: map<Ino, Content>, name: Option<Ino>): Option<Config> {
    if name.None? || name.value !in data || data[name.value] == Empty then Some(DEFAULT_CONFIG)
    else if data[name.value] == Torn then None
    else Some(data[name.value].config)
  }

  predicate Enabled(s: Store, step: Step)
    requires s.names != []
  {
    match step
    case Begin(w, op) => PhaseOf(s, w) == Idle
    case Open(w, ino) => PhaseOf(s, w).Ready? && (if s.tmp.Some? then ino == s.tmp.value else ino !in s.data)
    case Write(w) => PhaseOf(s, w).Opened?
    case Sync(w) => PhaseOf(s, w).Written?
    case Rename(w) => PhaseOf(s, w).Synced? && s.tmp.Some?
    case Fail(w, _, _) => PhaseOf(s, w) != Idle
    case Crash(kept, tmpAfter, left) => kept < |s.names| && (tmpAfter.Some? ==> tmpAfter.value in s.data && tmpAfter != s.names[kept])
  }

  function Shortened(ops: seq<Op>, lost: nat): seq<Op> {
    if lost <= |ops| then ops[..|ops| - lost] else []
  }

  /** A step that is not enabled does nothing. */
  function Next(s: Store, step: Step): (r: Store)
    requires s.names != []
    ensures r.names != []
  {
    if !Enabled(s, step) then s
    else
      match step
      case Begin(w, op) =>
        if Load(s).None? || Saved(op, Load(s).value).None? then s
        else s.(phases := s.phases[w := Ready(op, Saved(op, Load(s).value).value)])
      case Open(w, ino) =>
        s.(tmp := Some(ino), data := s.data[ino := Empty], synced := s.synced - {ino},
           phases := s.phases[w := Opened(PhaseOf(s, w).op, PhaseOf(s, w).config, ino)])
      case Write(w) =>
        var ph := PhaseOf(s, w);
        var content := if ph.ino in s.data && s.data[ph.ino] == Empty then Whole(ph.config) else Torn;
        s.(data := s.data[ph.ino := content], synced := s.synced - {ph.ino},
           phases := s.phases[w := Written(ph.op, ph.config, ph.ino)])
      case Sync(w) =>
        var ph := PhaseOf(s, w);
        s.(synced := s.synced + {ph.ino}, phases := s.phases[w := Synced(ph.op, ph.config, ph.ino)])
      case Rename(w) =>
        s.(names := s.names + [s.tmp], tmp := None, phases := s.phases[w := Idle], done := s.done + [PhaseOf(s, w).op])
      case Fail(w, torn, cleaned) =>
        var data := if torn && PhaseOf(s, w).Opened? then s.data[PhaseOf(s, w).ino := Torn] else s.data;
        s.(data := data, tmp := if cleaned then None else s.tmp, phases := s.phases[w := Idle])
      case Crash(kept, tmpAfter, left) =>
        var survivors := map i | i in s.data :: if i in s.synced || i !in left then s.data[i] else left[i];
        Store([s.names[kept]], tmpAfter, survivors, s.synced, map[], Shortened(s.done, |s.names| - 1 - kept))
  }

  /** No writer begins while another is at work. */
  predicate Alone(s: Store, step: Step) {
    step.Begin? ==> forall w :: w in s.phases ==> s.phases[w] == Idle
  }

  function Run(s: Store, steps: seq<Step>): (r: Store)
    requires s.names != []
    ensures r.names != []
    decreases |steps|
  {
    if steps == [] then s else Run(Next(s, steps[0]), steps[1..])
  }

  predicate AloneRun(s: Store, steps: seq<Step>)
    requires s.names != []
    decreases |steps|
  {
    steps == [] || (Alone(s, steps[0]) && AloneRun(Next(s, steps[0]), steps[1..]))
  }

  /**
   * base is the configuration before the operations of done, of which the first |done| - |names| + 1 can no longer
   * be undone by a crash.
   */
  function Version(s: Store, base: Config, i: nat): Config
    requires i < |s.names| <= |s.done| + 1
  {
    Replay(base, s.done[..|s.done| + 1 - |s.names| + i])
  }

  /** Every file the target name may still refer to after a crash is synced and holds its version of the registry. */
  ghost predicate Settled(s: Store, base: Config) {
    && 0 < |s.names| <= |s.done| + 1
    && forall i :: 0 <= i < |s.names| ==>
         && ReadFile(s.data, s.names[i]) == Some(Version(s, base, i))
         && (s.names[i].Some? ==> s.names[i].value in s.data && s.names[i].value in s.synced && s.names[i] != s.tmp)
  }

  /** A writer at work saves the result of its operation on the present registry, through its own temporary file. */
  predicate Working(s: Store, base: Config, ph: Phase) {
    ph != Idle ==>
      && Saved(ph.op, Replay(base, s.done)) == Some(ph.config)
      && (!ph.Ready? ==> s.tmp == Some(ph.ino) && ph.ino in s.data)
      && (ph.Opened? ==> s.data[ph.ino] == Empty)
      && (ph.Written? || ph.Synced? ==> s.data[ph.ino] == Whole(ph.config))
      && (ph.Synced? ==> ph.ino in s.synced)
  }

  ghost predicate Inv(s: Store, base: Config) {
    && Settled(s, base)
    && (s.tmp.Some? ==> s.tmp.value in s.data)
    && s.synced <= s.data.Keys
    && (forall w :: Working(s, base, PhaseOf(s, w)))
    && (forall v, w :: PhaseOf(s, v) != Idle && PhaseOf(s, w) != Idle ==> v == w)
  }

  lemma LoadIsReplay(s: Store, base: Config)
    requires Settled(s, base)
    ensures Load(s) == Some(Replay(base, s.done))
  {
    assert s.done[..|s.done|] == s.done;
    assert Load(s) == Some(Version(s, base, |s.names| - 1));
  }

  lemma CrashKeepsInv(s: Store, step: Step, base: Config)
    requires Inv(s, base) && step.Crash? && Enabled(s, step)
    ensures Inv(Next(s, step), base)
  {
    var t := Next(s, step);
    assert t.done[..|t.done|] == t.done;
    assert Version(t, base, 0) == Version(s, base, step.kept);
  }

  lemma ReplayAppend(base: Config, ops: seq<Op>, op: Op)
    ensures Replay(base, ops + [op]) == Apply(op, Replay(base, ops))
  {
    assert (ops + [op])[..|ops|] == ops;
  }

  lemma RenameKeepsInv(s: Store, step: Step, base: Config)
    requires Inv(s, base) && step.Rename? && Enabled(s, step)
    ensures Inv(Next(s, step), base)
  {
    hide Replay, Saved;
    var t := Next(s, step);
    var ph := PhaseOf(s, step.w);
    assert Working(s, base, ph);
    ReplayAppend(base, s.done, ph.op);
    assert t.done[..|t.done|] == t.done;
    forall i | 0 <= i < |t.names| - 1
      ensures Version(t, base, i) == Version(s, base, i)
    {
      assert t.done[..|t.done| + 1 - |t.names| + i] == s.done[..|s.done| + 1 - |s.names| + i];
    }
    forall w
      ensures PhaseOf(t, w) == Idle
    {
      assert PhaseOf(s, w) == Idle || w == step.w;
    }
  }

  lemma WriteKeepsInv(s: Store, step: Step, base: Config)
    requires Inv(s, base) && (step.Open? || step.Write? || step.Sync? || step.Fail?) && Enabled(s, step)
    ensures Inv(Next(s, step), base)
  {
    hide Replay, Saved;
    var t := Next(s, step);
    assert Working(s, base, PhaseOf(s, step.w));
    forall w
      ensures w != step.w ==> PhaseOf(t, w) == PhaseOf(s, w) == Idle
      ensures Working(t, base, PhaseOf(t, w))
    {
      assert PhaseOf(s, w) == Idle || w == step.w;
    }
    forall i | 0 <= i < |s.names|
      ensures Version(t, base, i) == Version(s, base, i) && ReadFile(t.data, s.names[i]) == ReadFile(s.data, s.names[i])
    {
    }
    assert Settled(t, base);
  }

  lemma StepKeepsInv(s: Store, step: Step, base: Config)
    requires Inv(s, base) && Alone(s, step)
    ensures Inv(Next(s, step), base)
  {
    hide Replay, Saved;
    if Enabled(s, step) {
      match step
      case Begin(w, op) =>
        LoadIsReplay(s, base);
      case Crash(_, _, _) => CrashKeepsInv(s, step, base);
      case Rename(_) => RenameKeepsInv(s, step, base);
      case _ => WriteKeepsInv(s, step, base);
    }
  }

  lemma {:induction false} RunKeepsInv(s: Store, steps: seq<Step>, base: Config)
    requires Inv(s, base) && AloneRun(s, steps)
    ensures Inv(Run(s, steps), base)
    decreases |steps|
  {
    if steps != [] {
      StepKeepsInv(s, steps[0], base);
      RunKeepsInv(Next(s, steps[0]), steps[1..], base);
    }
  }

  /** Some registry file, or none, and perhaps a leftover temporary file of an earlier crash. */
  ghost predicate Initial(s: Store) {
    && |s.names| == 1 && s.done == [] && s.synced <= s.data.Keys
    && (s.tmp.Some? ==> s.tmp.value in s.data && s.tmp != s.names[0])
    && (s.names[0].Some? ==> s.names[0].value in s.synced && s.data[s.names[0].value] != Torn)
    && forall w :: PhaseOf(s, w) == Idle
  }

  lemma InitialInv(s: Store)
    requires Initial(s)
    ensures Load(s).Some? && Inv(s, Load(s).value)
  {
    assert Version(s, Load(s).value, 0) == Load(s).value;
  }

  /**
   * Whatever fails and whenever the machine crashes, the registry reads as the result of whole operations, one after
   * the other, on the registry there was at the start: it is never torn, never empty by accident.
   */
  lemma RegistryIsReplay(s: Store, steps: seq<Step>)
    requires Initial(s) && AloneRun(s, steps)
    ensures Load(s).Some?
    ensures Load(Run(s, steps)) == Some(Replay(Load(s).value, Run(s, steps).done))
  {
    var base := Load(s).value;
    InitialInv(s);
    RunKeepsInv(s, steps, base);
    LoadIsReplay(Run(s, steps), base);
  }

  /** So no run registers a project twice or changes the other settings, and the last completed say decides. */
  lemma RegistryStaysSound(s: Store, steps: seq<Step>, root: Root)
    requires Initial(s) && AloneRun(s, steps)
    ensures Load(s).Some? && Load(Run(s, steps)).Some?
    ensures var before, after := Load(s).value, Load(Run(s, steps)).value;
            && Registered(after, root) == LastSay(Run(s, steps).done, root, Registered(before, root))
            && (Distinct(before) ==> Distinct(after) && after.settings == before.settings)
  {
    RegistryIsReplay(s, steps);
    ReplayRegisters(Load(s).value, Run(s, steps).done, root);
  }

  /** Readers see a save at the rename and at no other step; a failed save changes nothing they see. */
  lemma OnlyRenameShows(s: Store, steps: seq<Step>, step: Step)
    requires Initial(s) && AloneRun(s, steps) && Alone(Run(s, steps), step)
    requires !step.Crash? && !(step.Rename? && Enabled(Run(s, steps), step))
    ensures Load(Next(Run(s, steps), step)) == Load(Run(s, steps))
  {
    var base, t := Load(s).value, Run(s, steps);
    InitialInv(s);
    RunKeepsInv(s, steps, base);
    StepKeepsInv(t, step, base);
    LoadIsReplay(t, base);
    LoadIsReplay(Next(t, step), base);
  }

  /** The rename puts the operation on top of the registry as it is at that moment: no update is lost. */
  lemma RenameShowsWholeSave(s: Store, steps: seq<Step>, w: Writer)
    requires Initial(s) && AloneRun(s, steps) && PhaseOf(Run(s, steps), w).Synced?
    ensures Enabled(Run(s, steps), Rename(w)) && Load(Run(s, steps)).Some?
    ensures Load(Next(Run(s, steps), Rename(w))) == Saved(PhaseOf(Run(s, steps), w).op, Load(Run(s, steps)).value)
  {
    var base, t := Load(s).value, Run(s, steps);
    InitialInv(s);
    RunKeepsInv(s, steps, base);
    assert Working(t, base, PhaseOf(t, w));
    LoadIsReplay(t, base);
  }

  /** A crash takes the registry back to what some shorter run of whole operations left. */
  lemma CrashRollsBack(s: Store, steps: seq<Step>, crash: Step)
    requires Initial(s) && AloneRun(s, steps) && crash.Crash? && Enabled(Run(s, steps), crash)
    ensures var t, u := Run(s, steps), Next(Run(s, steps), crash);
            && u.done <= t.done && |t.done| - |u.done| == |t.names| - 1 - crash.kept
            && Load(s).Some? && Load(u) == Some(Replay(Load(s).value, u.done))
  {
    var base, t := Load(s).value, Run(s, steps);
    InitialInv(s);
    RunKeepsInv(s, steps, base);
    StepKeepsInv(t, crash, base);
    LoadIsReplay(Next(t, crash), base);
  }
}
