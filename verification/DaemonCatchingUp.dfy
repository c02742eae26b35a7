/** When exactly the index catches up with the disk, and that the daemon always comes to rest. */
module DaemonCatchingUp {
  import opened Options
  import opened DebounceBuffer
  import opened Daemon
  import opened DaemonProperties

  lemma {:induction false} RunConcat(w: World, a: seq<Step>, b: seq<Step>)
    ensures Run(w, a + b) == Run(Run(w, a), b)
    decreases |a|
  {
    hide Next;
    if a == [] {
      assert a + b == b;
    } else {
      assert (a + b)[1..] == a[1..] + b;
      RunConcat(Next(w, a[0]), a[1..], b);
    }
  }

  lemma RunOne(w: World, s: Step)
    ensures Run(w, [s]) == Next(w, s)
  {
    assert [s][1..] == [];
  }

  /* ----- coming to rest ----- */

  /** Only deliveries, flushes and passes that end well. */
  predicate Undisturbed(steps: seq<Step>) {
    forall s :: s in steps ==> !s.Edit? && !s.Fail? && !s.Corrupt?
  }

  /** Every project in flight is passed over once. */
  lemma HandleAll(w: World) returns (steps: seq<Step>)
    requires w.scanning.Keys == w.deleting.Keys
    ensures Undisturbed(steps)
    ensures var v := Run(w, steps); v.scanning == map[] && v.deleting == map[] && v.log == w.log && v.queue == w.queue
    decreases w.scanning.Keys
  {
    hide Next, PassIndex;
    if w.scanning.Keys == {} {
      steps := [];
    } else {
      var p :| p in w.scanning;
      UndisturbedPass(w, p, Succeeds);
      var v := Run(w, PassSteps(w, p, Succeeds));
      var rest := HandleAll(v);
      steps := PassSteps(w, p, Succeeds) + rest;
      RunConcat(w, PassSteps(w, p, Succeeds), rest);
    }
  }

  /** Every event on its way reaches the buffer. */
  lemma DeliverAll(w: World) returns (steps: seq<Step>)
    ensures Undisturbed(steps)
    ensures var v := Run(w, steps); v.scanning == w.scanning && v.deleting == w.deleting && v.queue == []
    decreases |w.queue|
  {
    if w.queue == [] {
      steps := [];
    } else {
      var rest := DeliverAll(Next(w, Deliver));
      steps := [Deliver] + rest;
      RunConcat(w, [Deliver], rest);
      RunOne(w, Deliver);
    }
  }

  /** With no further edit and no failure the daemon comes to rest. */
  lemma ComesToRest(w: World) returns (steps: seq<Step>)
    requires w.scanning.Keys == w.deleting.Keys
    ensures Undisturbed(steps) && Quiet(Run(w, steps))
  {
    hide Run;
    var first := HandleAll(w);
    var w1 := Run(w, first);
    var second := DeliverAll(w1);
    var w2 := Run(w1, second);
    var w3 := Next(w2, Flush);
    var last := HandleAll(w3);
    RunOne(w2, Flush);
    RunConcat(w2, [Flush], last);
    RunConcat(w1, second, [Flush] + last);
    RunConcat(w, first, second + ([Flush] + last));
    steps := first + (second + ([Flush] + last));
  }

  lemma {:induction false} DiskStays(w: World, steps: seq<Step>)
    requires Undisturbed(steps)
    ensures Run(w, steps).disk == w.disk
    decreases |steps|
  {
    if steps != [] {
      assert steps[0] in steps;
      DiskStays(Next(w, steps[0]), steps[1..]);
    }
  }

  /* ----- catching up ----- */

  predicate NoFailure(steps: seq<Step>, p: Project) {
    forall s :: s in steps ==> s != Fail(p) && !(s.Corrupt? && s.project == p)
  }

  /** The index is right about the path, or an event or a hand-over is on its way. */
  predicate KeepsUp(w: World, p: Project, r: Path) {
    Agrees(w, p, r) || Announced(w, p, r).Some? || InFlight(w, p, r)
  }

  /** Whatever happens next but a failure of p: when all is quiet the index is right about the path. */
  ghost predicate CatchesUp(w: World, p: Project, r: Path) {
    forall steps :: NoFailure(steps, p) && Quiet(Run(w, steps)) ==> Agrees(Run(w, steps), p, r)
  }

  /** What is touched and what is lost has no influence on a run. */
  lemma {:induction false} SameRun(w: World, steps: seq<Step>, touched: set<Place>, lost: set<Place>)
    ensures var v := Run(w.(touched := touched, lost := lost), steps);
            v == Run(w, steps).(touched := v.touched, lost := v.lost)
    decreases |steps|
  {
    if steps != [] {
      var other := Next(w.(touched := touched, lost := lost), steps[0]);
      SameStep(w, steps[0], touched, lost);
      SameRun(Next(w, steps[0]), steps[1..], other.touched, other.lost);
    }
  }

  lemma SameStep(w: World, s: Step, touched: set<Place>, lost: set<Place>)
    ensures var v := Next(w.(touched := touched, lost := lost), s);
            v == Next(w, s).(touched := v.touched, lost := v.lost)
  {
    SameEnabled(w, s, touched, lost);
    hide Reindexed, ToScan, ToDelete, Projects, Enabled, Places, FilesOf, Paths;
  }

  lemma SameEnabled(w: World, s: Step, touched: set<Place>, lost: set<Place>)
    ensures Enabled(w.(touched := touched, lost := lost), s) <==> Enabled(w, s)
    ensures forall p :: Places(w.(touched := touched, lost := lost), p) == Places(w, p)
  {
  }

  lemma {:induction false} TouchedStays(w: World, steps: seq<Step>, x: Place)
    requires x in w.touched
    ensures x in Run(w, steps).touched
    decreases |steps|
  {
    if steps != [] {
      TouchedStays(Next(w, steps[0]), steps[1..], x);
    }
  }

  /** The world in which the path counts as touched and not lost. */
  function Watched(w: World, p: Project, r: Path): World {
    w.(touched := w.touched + {Place(p, r)}, lost := w.lost - {Place(p, r)})
  }

  lemma WatchedInv(w: World, p: Project, r: Path)
    requires Inv(w) && KeepsUp(w, p, r)
    ensures Inv(Watched(w, p, r))
  {
    hide LastEvent;
    forall q, x
      ensures NewsIsTrue(Watched(w, p, r), q, x) && Tracked(Watched(w, p, r), q, x)
    {
      assert NewsIsTrue(w, q, x) && Tracked(w, q, x);
    }
  }

  lemma KeepingUpCatchesUp(w: World, p: Project, r: Path, steps: seq<Step>)
    requires Inv(w) && p !in w.quarantined && KeepsUp(w, p, r)
    requires NoFailure(steps, p) && Quiet(Run(w, steps))
    ensures Agrees(Run(w, steps), p, r)
  {
    hide Run;
    var u := Watched(w, p, r);
    WatchedInv(w, p, r);
    RunKeepsInv(u, steps);
    OnlyFailuresLose(u, steps, p, r);
    TouchedStays(u, steps, Place(p, r));
    SameRun(w, steps, u.touched, u.lost);
    assert Tracked(Run(u, steps), p, r);
    QuietHasNoFlight(w, steps, u);
  }

  lemma QuietHasNoFlight(w: World, steps: seq<Step>, u: World)
    requires Quiet(Run(w, steps)) && Inv(Run(u, steps))
    requires Run(u, steps) == Run(w, steps).(touched := Run(u, steps).touched, lost := Run(u, steps).lost)
    ensures forall p, r :: Announced(Run(u, steps), p, r).None? && !InFlight(Run(u, steps), p, r)
  {
    hide Run;
  }

  /** In any reachable world: the index will be right about a path of a healthy project exactly if it keeps up now. */
  lemma CatchesUpIff(w: World, p: Project, r: Path)
    requires Inv(w) && p !in w.quarantined
    ensures CatchesUp(w, p, r) <==> KeepsUp(w, p, r)
  {
    hide Run, Inv;
    if KeepsUp(w, p, r) {
      forall steps | NoFailure(steps, p) && Quiet(Run(w, steps))
        ensures Agrees(Run(w, steps), p, r)
      {
        KeepingUpCatchesUp(w, p, r, steps);
      }
    } else {
      SameKeys(w);
      var steps := ComesToRest(w);
      LostUntilNextEdit(w, steps, p, r);
      DiskStays(w, steps);
      assert NoFailure(steps, p) && !Agrees(Run(w, steps), p, r);
    }
  }

  lemma SameKeys(w: World)
    requires Inv(w)
    ensures w.scanning.Keys == w.deleting.Keys
  {
  }

  lemma FailDrops(w: World, p: Project, r: Path)
    requires Enabled(w, Fail(p)) && w.scanning.Keys == w.deleting.Keys
    ensures var v := Next(w, Fail(p));
            && p !in v.quarantined && !InFlight(v, p, r)
            && Announced(v, p, r) == Announced(w, p, r)
            && (Agrees(v, p, r) <==> Agrees(w, p, r))
  {
    hide LastEvent, Places;
  }

  /**
   * A failed pass is harmless to a path exactly if the index was right about it already, or an event for it is on its
   * way: otherwise the index stays behind until the next edit, however many passes follow.
   */
  lemma FailureIsHarmlessIff(disk: map<Project, Files>, index: map<Project, Files>, steps: seq<Step>, p: Project, r: Path)
    requires Enabled(Run(Initial(disk, index), steps), Fail(p))
    ensures var w := Run(Initial(disk, index), steps);
            CatchesUp(Next(w, Fail(p)), p, r) <==> Agrees(w, p, r) || Announced(w, p, r).Some?
  {
    hide Run, Next;
    var w := Run(Initial(disk, index), steps);
    InitialInv(disk, index);
    RunKeepsInv(Initial(disk, index), steps);
    StepKeepsInv(w, Fail(p));
    SameKeys(w);
    FailDrops(w, p, r);
    CatchesUpIff(Next(w, Fail(p)), p, r);
  }

  lemma InitialInv(disk: map<Project, Files>, index: map<Project, Files>)
    ensures Inv(Initial(disk, index))
  {
  }
}
