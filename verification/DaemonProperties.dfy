/**
 * Whole runs of the daemon: edits on disk, the delivery of their events, flushes and passes interleave freely.
 * A pass handles its paths in any number of parts, so edits may fall in the middle of it.
 */
module DaemonProperties {
  import opened Options
  import opened DebounceBuffer
  import opened Daemon

  datatype World = World(
    disk: map<Project, Files>,
    index: map<Project, Files>,
    /** Events that happened on disk and have not reached the buffer. */
    queue: seq<Event>,
    /** Events in the buffer since the last flush. */
    log: seq<Event>,
    /** What the last flush handed over and no pass has handled yet. */
    scanning: map<Project, set<Path>>,
    deleting: map<Project, set<Path>>,
    quarantined: set<Project>,
    touched: set<Place>,
    /** Places whose last hand-over ended in a failed pass. */
    lost: set<Place>)

  datatype Place = Place(project: Project, path: Path)

  datatype Step =
    | Edit(project: Project, path: Path, content: Option<Content>)
    | Deliver
    | Flush
    | Part(project: Project, modified: set<Path>, deleted: set<Path>)
    | Finish(project: Project)
    | Fail(project: Project)
    | Corrupt(project: Project, left: Files)
    | Skip(project: Project)

  function Paths(m: map<Project, set<Path>>, p: Project): set<Path> {
    if p in m then m[p] else {}
  }

  function Places(w: World, p: Project): set<Place> {
    set r | r in Paths(w.scanning, p) + Paths(w.deleting, p) :: Place(p, r)
  }

  predicate Enabled(w: World, s: Step) {
    match s
    case Edit(p, r, content) => content.Some? || r in FilesOf(w.disk, p)
    case Deliver => w.queue != []
    case Flush => w.scanning == map[] && w.deleting == map[]
    case Part(p, modified, deleted) =>
      p in w.scanning && p !in w.quarantined && modified <= w.scanning[p] && deleted <= Paths(w.deleting, p)
    case Finish(p) => p in w.scanning && Places(w, p) == {}
    case Fail(p) => p in w.scanning && p !in w.quarantined
    case Corrupt(p, left) => p in w.scanning && p !in w.quarantined
    case Skip(p) => p in w.scanning && p in w.quarantined
  }

  /** Takes p out of what is in flight; its unhandled places are lost. */
  function Dropped(w: World, p: Project): World {
    w.(scanning := w.scanning - {p}, deleting := w.deleting - {p}, lost := w.lost + Places(w, p))
  }

  /** A step that is not enabled does nothing. */
  function Next(w: World, s: Step): World {
    if !Enabled(w, s) then w
    else
      match s
      case Edit(p, r, Some(c)) =>
        var kind := if r in FilesOf(w.disk, p) then Modified else Created;
        w.(disk := w.disk[p := FilesOf(w.disk, p)[r := c]], queue := w.queue + [Event(p, r, kind)],
           touched := w.touched + {Place(p, r)})
      case Edit(p, r, None) =>
        w.(disk := w.disk[p := FilesOf(w.disk, p) - {r}], queue := w.queue + [Event(p, r, Deleted)],
           touched := w.touched + {Place(p, r)})
      case Deliver => w.(queue := w.queue[1..], log := w.log + [w.queue[0]])
      case Flush =>
        w.(log := [], scanning := map p | p in Projects(w.log) :: ToScan(w.log, p),
           deleting := map p | p in Projects(w.log) :: ToDelete(w.log, p))
      case Part(p, modified, deleted) =>
        w.(index := w.index[p := Reindexed(FilesOf(w.index, p), FilesOf(w.disk, p), modified, deleted)],
           scanning := w.scanning[p := w.scanning[p] - modified],
           deleting := w.deleting[p := Paths(w.deleting, p) - deleted],
           lost := w.lost - set r | r in modified + deleted :: Place(p, r))
      case Finish(p) => Dropped(w, p)
      case Fail(p) => Dropped(w, p)
      case Corrupt(p, left) =>
        Dropped(w, p).(index := w.index[p := left], quarantined := w.quarantined + {p})
      case Skip(p) => Dropped(w, p)
  }

  function Run(w: World, steps: seq<Step>): World
    decreases |steps|
  {
    if steps == [] then w else Run(Next(w, steps[0]), steps[1..])
  }

  function Initial(disk: map<Project, Files>, index: map<Project, Files>): World {
    World(disk, index, [], [], map[], map[], {}, {}, {})
  }

  /** The index has the path's present content, or no entry where there is no file. */
  predicate Agrees(w: World, p: Project, r: Path) {
    var disk, index := FilesOf(w.disk, p), FilesOf(w.index, p);
    (r in index <==> r in disk) && (r in disk ==> index[r] == disk[r])
  }

  function Announced(w: World, p: Project, r: Path): Option<EventType> {
    LastEvent(w.log + w.queue, p, r)
  }

  predicate InFlight(w: World, p: Project, r: Path) {
    r in Paths(w.scanning, p) || r in Paths(w.deleting, p)
  }

  /** The last event on its way says whether the file exists; a hand-over does too, unless an event follows it. */
  predicate NewsIsTrue(w: World, p: Project, r: Path) {
    var onDisk := r in FilesOf(w.disk, p);
    && (Announced(w, p, r).Some? ==> (onDisk <==> Announced(w, p, r).value != Deleted))
    && (Announced(w, p, r).None? && r in Paths(w.scanning, p) ==> onDisk)
    && (Announced(w, p, r).None? && r in Paths(w.deleting, p) ==> !onDisk)
  }

  predicate Tracked(w: World, p: Project, r: Path) {
    Place(p, r) in w.touched && p !in w.quarantined && Place(p, r) !in w.lost ==>
      Agrees(w, p, r) || Announced(w, p, r).Some? || InFlight(w, p, r)
  }

  ghost predicate Inv(w: World) {
    && w.scanning.Keys == w.deleting.Keys
    && forall p, r :: NewsIsTrue(w, p, r) && Tracked(w, p, r)
  }

  lemma {:induction false} LastEventConcat(a: seq<Event>, b: seq<Event>, p: Project, r: Path)
    ensures LastEvent(a + b, p, r) == if LastEvent(b, p, r).Some? then LastEvent(b, p, r) else LastEvent(a, p, r)
  {
    if b == [] {
      assert a + b == a;
    } else {
      assert (a + b)[..|a + b| - 1] == a + b[..|b| - 1];
      LastEventConcat(a, b[..|b| - 1], p, r);
    }
  }

  lemma EditKeepsInv(w: World, s: Step)
    requires Inv(w) && s.Edit? && Enabled(w, s)
    ensures Inv(Next(w, s))
  {
    hide LastEvent, Next, Announced, Enabled;
    EditKeepsKeys(w, s);
    forall p, r
      ensures NewsIsTrue(Next(w, s), p, r) && Tracked(Next(w, s), p, r)
    {
      assert NewsIsTrue(w, p, r) && Tracked(w, p, r);
      if s.project == p && s.path == r {
        EditIsNews(w, s);
      } else {
        EditAnnounces(w, s, p, r);
        EditTouchesNoOther(w, s, p, r);
      }
    }
  }

  lemma EditKeepsKeys(w: World, s: Step)
    requires s.Edit?
    ensures Next(w, s).scanning.Keys == w.scanning.Keys && Next(w, s).deleting.Keys == w.deleting.Keys
  {
  }

  lemma EditIsNews(w: World, s: Step)
    requires s.Edit? && Enabled(w, s)
    ensures NewsIsTrue(Next(w, s), s.project, s.path) && Tracked(Next(w, s), s.project, s.path)
  {
    hide LastEvent;
    var v := Next(w, s);
    var e := v.queue[|v.queue| - 1];
    assert v.log + v.queue == (w.log + w.queue) + [e];
    LastEventAppend(w.log + w.queue, e, s.project, s.path);
  }

  lemma EditTouchesNoOther(w: World, s: Step, p: Project, r: Path)
    requires s.Edit? && Enabled(w, s) && !(s.project == p && s.path == r)
    ensures var v := Next(w, s);
            && (r in FilesOf(v.disk, p) <==> r in FilesOf(w.disk, p))
            && (r in FilesOf(w.disk, p) ==> FilesOf(v.disk, p)[r] == FilesOf(w.disk, p)[r])
            && v.index == w.index && v.scanning == w.scanning && v.deleting == w.deleting
            && v.quarantined == w.quarantined && v.lost == w.lost
            && (Place(p, r) in v.touched <==> Place(p, r) in w.touched)
  {
  }

  lemma FlushKeepsInv(w: World)
    requires Inv(w) && Enabled(w, Flush)
    ensures Inv(Next(w, Flush))
  {
    hide LastEvent, ToScan, ToDelete, Projects;
    var v := Next(w, Flush);
    assert v.log + v.queue == w.queue;
    forall p, r
      ensures NewsIsTrue(v, p, r) && Tracked(v, p, r)
    {
      LastEventConcat(w.log, w.queue, p, r);
      Classification(w.log, p, r);
      NoEventsForStranger(w.log, p);
      assert NewsIsTrue(w, p, r) && Tracked(w, p, r);
    }
  }

  lemma PassKeepsInv(w: World, s: Step)
    requires Inv(w) && Enabled(w, s) && !s.Edit? && !s.Deliver? && !s.Flush?
    ensures Inv(Next(w, s))
  {
    hide LastEvent, Projects, ToScan, ToDelete;
    var v := Next(w, s);
    forall p, r
      ensures NewsIsTrue(v, p, r) && Tracked(v, p, r)
    {
      assert NewsIsTrue(w, p, r) && Tracked(w, p, r);
      if p == s.project && r in Paths(w.scanning, p) + Paths(w.deleting, p) {
        assert Place(p, r) in Places(w, p);
      }
    }
  }

  lemma StepKeepsInv(w: World, s: Step)
    requires Inv(w)
    ensures Inv(Next(w, s))
  {
    hide LastEvent;
    if Enabled(w, s) {
      if s.Edit? {
        EditKeepsInv(w, s);
      } else if s.Flush? {
        FlushKeepsInv(w);
      } else if s.Deliver? {
        var v := Next(w, s);
        assert v.log + v.queue == w.log + w.queue;
        forall p, r
          ensures NewsIsTrue(v, p, r) && Tracked(v, p, r)
        {
          assert NewsIsTrue(w, p, r) && Tracked(w, p, r);
        }
      } else {
        PassKeepsInv(w, s);
      }
    }
  }

  lemma {:induction false} RunKeepsInv(w: World, steps: seq<Step>)
    requires Inv(w)
    ensures Inv(Run(w, steps))
    decreases |steps|
  {
    if steps != [] {
      StepKeepsInv(w, steps[0]);
      RunKeepsInv(Next(w, steps[0]), steps[1..]);
    }
  }

  predicate Quiet(w: World) {
    w.queue == [] && w.log == [] && w.scanning == map[]
  }

  /** Nothing on its way: the index agrees with the disk wherever something happened and no pass failed on it. */
  lemma QuietIndexAgrees(disk: map<Project, Files>, index: map<Project, Files>, steps: seq<Step>, p: Project, r: Path)
    requires var w := Run(Initial(disk, index), steps); Quiet(w) && Place(p, r) in w.touched && p !in w.quarantined && Place(p, r) !in w.lost
    ensures Agrees(Run(Initial(disk, index), steps), p, r)
  {
    RunKeepsInv(Initial(disk, index), steps);
    var w := Run(Initial(disk, index), steps);
    assert Tracked(w, p, r);
  }

  /** A project without a failed pass in the run has nothing lost and is not in quarantine. */
  lemma {:induction false} OnlyFailuresLose(w: World, steps: seq<Step>, p: Project, r: Path)
    requires p !in w.quarantined && Place(p, r) !in w.lost
    requires forall s :: s in steps ==> s != Fail(p) && !(s.Corrupt? && s.project == p)
    ensures p !in Run(w, steps).quarantined && Place(p, r) !in Run(w, steps).lost
    decreases |steps|
  {
    if steps != [] {
      assert steps[0] in steps;
      OnlyFailuresLose(Next(w, steps[0]), steps[1..], p, r);
    }
  }

  /** The daemon's promise: no failed pass of p, nothing on its way, so every touched path of p is indexed as it is. */
  lemma IndexCatchesUp(disk: map<Project, Files>, index: map<Project, Files>, steps: seq<Step>, p: Project)
    requires Quiet(Run(Initial(disk, index), steps))
    requires forall s :: s in steps ==> s != Fail(p) && !(s.Corrupt? && s.project == p)
    ensures forall r :: Place(p, r) in Run(Initial(disk, index), steps).touched ==> Agrees(Run(Initial(disk, index), steps), p, r)
  {
    var w := Run(Initial(disk, index), steps);
    forall r | Place(p, r) in w.touched
      ensures Agrees(w, p, r)
    {
      OnlyFailuresLose(Initial(disk, index), steps, p, r);
      QuietIndexAgrees(disk, index, steps, p, r);
    }
  }

  /** Once in quarantine, always in quarantine, and no run changes the project's index again. */
  lemma {:induction false} QuarantineIsForGood(w: World, steps: seq<Step>, p: Project)
    requires p in w.quarantined
    ensures p in Run(w, steps).quarantined && FilesOf(Run(w, steps).index, p) == FilesOf(w.index, p)
    decreases |steps|
  {
    hide Next;
    if steps != [] {
      QuarantineStep(w, steps[0], p);
      QuarantineIsForGood(Next(w, steps[0]), steps[1..], p);
    }
  }

  lemma QuarantineStep(w: World, s: Step, p: Project)
    requires p in w.quarantined
    ensures p in Next(w, s).quarantined && FilesOf(Next(w, s).index, p) == FilesOf(w.index, p)
  {
    hide Projects, ToScan, ToDelete, Places, Reindexed;
  }

  /** A step on one project changes no other project's index, hand-over, quarantine or losses. */
  lemma ProjectsAreIndependent(w: World, s: Step, q: Project)
    requires !s.Deliver? && !s.Flush? && s.project != q
    ensures var v := Next(w, s);
            && FilesOf(v.index, q) == FilesOf(w.index, q)
            && FilesOf(v.disk, q) == FilesOf(w.disk, q)
            && Paths(v.scanning, q) == Paths(w.scanning, q) && Paths(v.deleting, q) == Paths(w.deleting, q)
            && (q in v.quarantined <==> q in w.quarantined)
            && forall r :: (Place(q, r) in v.lost <==> Place(q, r) in w.lost)
  {
    hide Reindexed, Places;
    if Enabled(w, s) {
      PlacesAreOf(w, s.project);
    }
  }

  lemma PlacesAreOf(w: World, p: Project)
    ensures forall x :: x in Places(w, p) ==> x.project == p
  {
  }

  /** A lost path is not retried: with no edit of it, its index entry stays as the failed pass left it. */
  lemma {:induction false} LostUntilNextEdit(w: World, steps: seq<Step>, p: Project, r: Path)
    requires Announced(w, p, r).None? && !InFlight(w, p, r)
    requires forall s :: s in steps ==> !(s.Edit? && s.project == p && s.path == r) && !(s.Corrupt? && s.project == p)
    ensures var v := Run(w, steps);
            && (r in FilesOf(v.index, p) <==> r in FilesOf(w.index, p))
            && (r in FilesOf(w.index, p) ==> FilesOf(v.index, p)[r] == FilesOf(w.index, p)[r])
    decreases |steps|
  {
    hide Next, Announced, InFlight;
    if steps != [] {
      assert steps[0] in steps;
      StaysUnannounced(w, steps[0], p, r);
      IndexEntryStays(w, steps[0], p, r);
      LostUntilNextEdit(Next(w, steps[0]), steps[1..], p, r);
    }
  }

  lemma IndexEntryStays(w: World, s: Step, p: Project, r: Path)
    requires !InFlight(w, p, r) && !(s.Corrupt? && s.project == p)
    ensures var before, after := FilesOf(w.index, p), FilesOf(Next(w, s).index, p);
            (r in after <==> r in before) && (r in before ==> after[r] == before[r])
  {
    hide Projects, ToScan, ToDelete, Places;
  }

  lemma StaysUnannounced(w: World, s: Step, p: Project, r: Path)
    requires Announced(w, p, r).None? && !InFlight(w, p, r)
    requires !(s.Edit? && s.project == p && s.path == r)
    ensures Announced(Next(w, s), p, r).None? && !InFlight(Next(w, s), p, r)
  {
    hide LastEvent, ToScan, ToDelete, Projects, Places;
    if s.Edit? && Enabled(w, s) {
      EditAnnounces(w, s, p, r);
    } else if s.Flush? && Enabled(w, s) {
      var v := Next(w, s);
      assert v.log + v.queue == w.queue;
      LastEventConcat(w.log, w.queue, p, r);
      Classification(w.log, p, r);
    } else if s.Deliver? && Enabled(w, s) {
      var v := Next(w, s);
      assert v.log + v.queue == w.log + w.queue;
    }
  }

  lemma EditAnnounces(w: World, s: Step, p: Project, r: Path)
    requires s.Edit? && Enabled(w, s) && !(s.project == p && s.path == r)
    ensures Announced(Next(w, s), p, r) == Announced(w, p, r)
    ensures InFlight(Next(w, s), p, r) <==> InFlight(w, p, r)
  {
    hide LastEvent;
    var v := Next(w, s);
    var e := v.queue[|v.queue| - 1];
    assert v.log + v.queue == (w.log + w.queue) + [e];
    LastEventAppend(w.log + w.queue, e, p, r);
  }

  lemma RunPair(w: World, a: Step, b: Step, rest: seq<Step>)
    ensures Run(w, [a, b] + rest) == Run(Next(Next(w, a), b), rest)
  {
    hide Next;
    assert ([a, b] + rest)[1..] == [b] + rest;
    assert ([b] + rest)[1..] == rest;
  }

  /** The steps of one undisturbed pass over p. */
  function PassSteps(w: World, p: Project, outcome: Outcome): seq<Step> {
    if p in w.quarantined then [Skip(p)]
    else if outcome.CacheCorrupt? then [Corrupt(p, outcome.left)]
    else
      var modified, deleted := Paths(w.scanning, p), Paths(w.deleting, p);
      [Part(p, Scanned(modified, deleted, outcome), Removed(deleted, outcome)), if outcome.Fails? then Fail(p) else Finish(p)]
  }

  /** World v is w after project p has been handled, with that index. */
  predicate PassedOver(w: World, v: World, p: Project, left: Files) {
    && v.scanning == w.scanning - {p} && v.deleting == w.deleting - {p}
    && v.disk == w.disk && v.queue == w.queue && v.log == w.log
    && v.index == w.index[p := left]
  }

  /** However a pass ends, it is such a run: it gives p the index and the quarantine that ProcessProject gives it. */
  lemma UndisturbedPass(w: World, p: Project, outcome: Outcome)
    requires p in w.scanning && p in w.deleting
    ensures var v := Run(w, PassSteps(w, p, outcome));
            && v.scanning == w.scanning - {p} && v.deleting == w.deleting - {p}
            && v.disk == w.disk && v.queue == w.queue && v.log == w.log
            && v.quarantined == w.quarantined + (if p !in w.quarantined && outcome.CacheCorrupt? then {p} else {})
            && FilesOf(v.index, p) == (if p in w.quarantined then FilesOf(w.index, p)
                                       else PassIndex(FilesOf(w.index, p), FilesOf(w.disk, p), w.scanning[p], w.deleting[p], outcome))
            && forall q :: q != p ==> FilesOf(v.index, q) == FilesOf(w.index, q)
  {
    if p in w.quarantined {
      assert Run(w, [Skip(p)]) == Run(Next(w, Skip(p)), []);
    } else if outcome.CacheCorrupt? {
      assert Run(w, [Corrupt(p, outcome.left)]) == Run(Next(w, Corrupt(p, outcome.left)), []);
    } else {
      PartThenEnd(w, p, outcome);
    }
  }

  lemma PartThenEnd(w: World, p: Project, outcome: Outcome)
    requires p in w.scanning && p in w.deleting && p !in w.quarantined && !outcome.CacheCorrupt?
    ensures var v := Run(w, PassSteps(w, p, outcome));
            && v.quarantined == w.quarantined
            && PassedOver(w, v, p, PassIndex(FilesOf(w.index, p), FilesOf(w.disk, p), w.scanning[p], w.deleting[p], outcome))
  {
    hide Reindexed, Scanned, Removed;
    var modified, deleted := Scanned(w.scanning[p], w.deleting[p], outcome), Removed(w.deleting[p], outcome);
    var s, end := Part(p, modified, deleted), if outcome.Fails? then Fail(p) else Finish(p);
    PartsAreInFlight(w.scanning[p], w.deleting[p], outcome);
    var u := Next(w, s);
    RunPair(w, s, end, []);
    assert [s, end] + [] == [s, end];
    assert outcome.Succeeds? ==> Places(u, p) == {};
    assert u.scanning - {p} == w.scanning - {p} && u.deleting - {p} == w.deleting - {p};
  }

  lemma PartsAreInFlight(modified: set<Path>, deleted: set<Path>, outcome: Outcome)
    ensures Scanned(modified, deleted, outcome) <= modified && Removed(deleted, outcome) <= deleted
    ensures !outcome.Fails? ==> Scanned(modified, deleted, outcome) == modified && Removed(deleted, outcome) == deleted
  {
  }
}
