/**
 * Saves that overlap share the name of the temporary file. From every state that lone writers reach, a second load
 * while a save is under way can empty the registry, tear it, or lose the update of the first save.
 */
module RegistryOverlaps {
  import opened Options
  import opened Registry
  import opened RegistryStore

  /** Neither loads nor crashes: only writers that have loaded go on. */
  predicate OnlyFileSteps(steps: seq<Step>) {
    forall step :: step in steps ==> !step.Begin? && !step.Crash?
  }

  lemma {:induction false} RunSnoc(s: Store, steps: seq<Step>, step: Step)
    requires s.names != []
    ensures Run(s, steps + [step]) == Next(Run(s, steps), step)
    decreases |steps|
  {
    hide Next;
    if steps == [] {
      assert ([] + [step])[1..] == [];
    } else {
      assert (steps + [step])[1..] == steps[1..] + [step];
      RunSnoc(Next(s, steps[0]), steps[1..], step);
    }
  }

  /** One more file step. */
  lemma Then(s: Store, steps: seq<Step>, now: Store, step: Step) returns (more: seq<Step>, next: Store)
    requires s.names != [] && Run(s, steps) == now && OnlyFileSteps(steps) && !step.Begin? && !step.Crash?
    ensures Run(s, more) == next && OnlyFileSteps(more) && next == Next(now, step)
  {
    RunSnoc(s, steps, step);
    more, next := steps + [step], Next(now, step);
  }

  lemma {:induction false} FreshIno(used: set<Ino>) returns (ino: Ino)
    ensures forall i :: i in used ==> i < ino
  {
    if used == {} {
      ino := 0;
    } else {
      var i :| i in used;
      var rest := FreshIno(used - {i});
      ino := if i < rest then rest else i + 1;
      assert forall j :: j in used ==> j == i || j in used - {i};
    }
  }

  /** Writer v has synced its temporary file, writer w has loaded the registry, and nothing has been renamed since s. */
  predicate BothAtWork(s: Store, now: Store, v: Writer, w: Writer, ph: Phase, op: Op, config: Config)
    requires ph != Idle
  {
    && v != w && PhaseOf(now, v).Synced? && PhaseOf(now, v).op == ph.op && PhaseOf(now, v).config == ph.config
    && now.tmp == Some(PhaseOf(now, v).ino) && PhaseOf(now, v).ino in now.data
    && now.data[PhaseOf(now, v).ino] == Whole(ph.config)
    && PhaseOf(now, w) == Ready(op, config)
    && now.names == s.names && now.done == s.done
  }

  /** Whatever v is doing, it can go on until its file is synced. */
  lemma UpToSync(s: Store, base: Config, v: Writer, w: Writer, op: Op)
    returns (t: Store, steps: seq<Step>, now: Store)
    requires Inv(s, base) && PhaseOf(s, v) != Idle && v != w && Saved(op, Replay(base, s.done)).Some?
    ensures t == Next(s, Begin(w, op)) && Run(t, steps) == now && OnlyFileSteps(steps)
    ensures BothAtWork(s, now, v, w, PhaseOf(s, v), op, Saved(op, Replay(base, s.done)).value)
  {
    hide Replay, Saved, Run;
    LoadIsReplay(s, base);
    assert PhaseOf(s, w) == Idle && Working(s, base, PhaseOf(s, v));
    t := Next(s, Begin(w, op));
    steps, now := [], t;
    NoSteps(t);
    if PhaseOf(now, v).Ready? {
      var ino;
      if now.tmp.Some? {
        ino := now.tmp.value;
      } else {
        ino := FreshIno(now.data.Keys);
      }
      steps, now := Then(t, steps, now, Open(v, ino));
    }
    if PhaseOf(now, v).Opened? {
      steps, now := Then(t, steps, now, Write(v));
    }
    if PhaseOf(now, v).Written? {
      steps, now := Then(t, steps, now, Sync(v));
    }
  }

  lemma NoSteps(s: Store)
    requires s.names != []
    ensures Run(s, []) == s
  {
  }

  /** Writer w opens the shared file, which empties it, just before v renames it. */
  lemma OpenThenRename(s: Store, t: Store, steps: seq<Step>, now: Store, v: Writer, w: Writer, ph: Phase, op: Op, config: Config)
    returns (more: seq<Step>, next: Store)
    requires ph != Idle && t.names != [] && s.names != [] && Run(t, steps) == now && OnlyFileSteps(steps)
    requires BothAtWork(s, now, v, w, ph, op, config)
    ensures Run(t, more) == next && OnlyFileSteps(more) && next.done == s.done + [ph.op] && next.names != []
    ensures PhaseOf(next, w).Opened? && Target(next) == Some(PhaseOf(next, w).ino) && PhaseOf(next, w).ino in next.data
    ensures next.data[PhaseOf(next, w).ino] == Empty
  {
    hide Run;
    more, next := Then(t, steps, now, Open(w, PhaseOf(now, v).ino));
    more, next := Then(t, more, next, Rename(v));
  }

  /** The registry reads as empty, for good if the second writer stops there: every project is gone. */
  lemma OverlapEmptiesRegistry(s: Store, base: Config, v: Writer, w: Writer, op: Op) returns (steps: seq<Step>)
    requires Inv(s, base) && PhaseOf(s, v) != Idle && v != w && Saved(op, Replay(base, s.done)).Some?
    ensures OnlyFileSteps(steps)
    ensures var e := Run(Next(s, Begin(w, op)), steps);
            && PhaseOf(e, w) == Idle && Load(e) == Some(DEFAULT_CONFIG) && e.done == s.done + [PhaseOf(s, v).op]
            && (Load(e) == Some(Replay(base, e.done)) <==> PhaseOf(s, v).config == DEFAULT_CONFIG)
  {
    hide Run, Replay, Saved;
    var t, now;
    t, steps, now := UpToSync(s, base, v, w, op);
    steps, now := OpenThenRename(s, t, steps, now, v, w, PhaseOf(s, v), op, Saved(op, Replay(base, s.done)).value);
    steps, now := Then(t, steps, now, Fail(w, false, false));
    assert Working(s, base, PhaseOf(s, v));
    ReplayAppend(base, s.done, PhaseOf(s, v).op);
  }

  /** A second writer that stops in the middle of its write leaves a registry that cannot be read at all. */
  lemma OverlapTearsRegistry(s: Store, base: Config, v: Writer, w: Writer, op: Op) returns (steps: seq<Step>)
    requires Inv(s, base) && PhaseOf(s, v) != Idle && v != w && Saved(op, Replay(base, s.done)).Some?
    ensures OnlyFileSteps(steps) && Load(Run(Next(s, Begin(w, op)), steps)).None?
  {
    hide Run, Replay, Saved;
    var t, now;
    t, steps, now := UpToSync(s, base, v, w, op);
    steps, now := OpenThenRename(s, t, steps, now, v, w, PhaseOf(s, v), op, Saved(op, Replay(base, s.done)).value);
    steps, now := Then(t, steps, now, Fail(w, true, false));
  }

  /** Even when the writes do not overlap, the second save leaves no trace of the first. */
  lemma OverlapLosesUpdate(s: Store, base: Config, v: Writer, w: Writer, op: Op) returns (steps: seq<Step>)
    requires Inv(s, base) && PhaseOf(s, v) != Idle && v != w && Saved(op, Replay(base, s.done)).Some?
    ensures OnlyFileSteps(steps)
    ensures var e := Run(Next(s, Begin(w, op)), steps);
            e.done == s.done + [PhaseOf(s, v).op, op] && Load(e) == Saved(op, Replay(base, s.done))
  {
    hide Run, Replay, Saved;
    var t, now;
    t, steps, now := UpToSync(s, base, v, w, op);
    steps, now := Then(t, steps, now, Rename(v));
    var ino := FreshIno(now.data.Keys);
    steps, now := Then(t, steps, now, Open(w, ino));
    steps, now := Then(t, steps, now, Write(w));
    steps, now := Then(t, steps, now, Sync(w));
    steps, now := Then(t, steps, now, Rename(w));
  }

  /* ----- working alone is the exact condition ----- */

  /** Under every continuation by lone writers the registry reads as the result of whole operations. */
  ghost predicate StaysReplay(s: Store, base: Config)
    requires s.names != []
  {
    forall rest :: AloneRun(s, rest) ==> Load(Run(s, rest)) == Some(Replay(base, Run(s, rest).done))
  }

  lemma {:induction false} FileStepsAreAlone(s: Store, steps: seq<Step>)
    requires s.names != [] && OnlyFileSteps(steps)
    ensures AloneRun(s, steps)
    decreases |steps|
  {
    hide Next;
    if steps != [] {
      assert steps[0] in steps;
      FileStepsAreAlone(Next(s, steps[0]), steps[1..]);
    }
  }

  lemma StepIsSafeIff(s: Store, base: Config, step: Step)
    requires Inv(s, base)
    ensures StaysReplay(Next(s, step), base) <==> Alone(s, step) || Next(s, step) == s
  {
    var t := Next(s, step);
    hide Run, Replay, Saved, Inv;
    if Alone(s, step) || t == s {
      if t != s {
        StepKeepsInv(s, step, base);
      }
      forall rest | AloneRun(t, rest)
        ensures Load(Run(t, rest)) == Some(Replay(base, Run(t, rest).done))
      {
        RunKeepsInv(t, rest, base);
        InvLoads(Run(t, rest), base);
      }
    } else {
      var v :| v in s.phases && s.phases[v] != Idle;
      InvLoads(s, base);
      var rest := OverlapTearsRegistry(s, base, v, step.w, step.op);
      FileStepsAreAlone(t, rest);
    }
  }

  lemma InvLoads(s: Store, base: Config)
    requires Inv(s, base)
    ensures Load(s) == Some(Replay(base, s.done))
  {
    LoadIsReplay(s, base);
  }

  /**
   * A step from a state that lone writers reach keeps the registry readable as whole operations, whatever lone writers
   * do next, exactly if it does not load while another writer is at work, or does nothing.
   */
  lemma AloneIsExact(s: Store, steps: seq<Step>, step: Step)
    requires Initial(s) && AloneRun(s, steps)
    ensures Load(s).Some?
    ensures StaysReplay(Next(Run(s, steps), step), Load(s).value)
       <==> Alone(Run(s, steps), step) || Next(Run(s, steps), step) == Run(s, steps)
  {
    hide Run, Next;
    InitialInv(s);
    RunKeepsInv(s, steps, Load(s).value);
    StepIsSafeIff(Run(s, steps), Load(s).value, step);
  }
}
