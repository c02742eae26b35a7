/** The debounce buffer (apps/agent/handler.py): pending paths, classified by their last event. */
module DebounceBuffer {
  import opened Options

  type Project = string
  type Path = string

  datatype EventType = Created | Modified | Deleted

  datatype Event = Event(project: Project, path: Path, kind: EventType)

  /** Kind of the last event for a path, if there is one. */
  function LastEvent(log: seq<Event>, project: Project, path: Path): Option<EventType> {
    if log == [] then None
    else
      var e := log[|log| - 1];
      if e.project == project && e.path == path then Some(e.kind) else LastEvent(log[..|log| - 1], project, path)
  }

  /** The paths of a project that a log leaves to be scanned, and to be deleted. */
  function ToScan(log: seq<Event>, project: Project): set<Path> {
    set e | e in log && e.project == project && LastEvent(log, project, e.path) !in {None, Some(Deleted)} :: e.path
  }

  function ToDelete(log: seq<Event>, project: Project): set<Path> {
    set e | e in log && e.project == project && LastEvent(log, project, e.path) == Some(Deleted) :: e.path
  }

  lemma {:induction false} LastEventIsLogged(log: seq<Event>, project: Project, path: Path)
    ensures LastEvent(log, project, path).Some? <==> exists e :: e in log && e.project == project && e.path == path
  {
    if log != [] {
      var e := log[|log| - 1];
      LastEventIsLogged(log[..|log| - 1], project, path);
      assert log == log[..|log| - 1] + [e];
    }
  }

  /** Membership in the two sets is decided by the last event; they are disjoint. */
  lemma Classification(log: seq<Event>, project: Project, path: Path)
    ensures path in ToScan(log, project) <==> LastEvent(log, project, path).Some? && LastEvent(log, project, path).value != Deleted
    ensures path in ToDelete(log, project) <==> LastEvent(log, project, path) == Some(Deleted)
    ensures ToScan(log, project) !! ToDelete(log, project)
  {
    LastEventIsLogged(log, project, path);
  }

  lemma LastEventAppend(log: seq<Event>, e: Event, project: Project, path: Path)
    ensures LastEvent(log + [e], project, path)
         == if e.project == project && e.path == path then Some(e.kind) else LastEvent(log, project, path)
  {
    assert (log + [e])[..|log|] == log;
  }

  lemma AppendEvent(log: seq<Event>, e: Event, project: Project)
    ensures ToScan(log + [e], project) ==
            if e.project != project then ToScan(log, project)
            else if e.kind == Deleted then ToScan(log, project) - {e.path}
            else ToScan(log, project) + {e.path}
    ensures ToDelete(log + [e], project) ==
            if e.project != project then ToDelete(log, project)
            else if e.kind == Deleted then ToDelete(log, project) + {e.path}
            else ToDelete(log, project) - {e.path}
  {
    hide ToScan, ToDelete, LastEvent;
    var all := log + [e];
    forall path
      ensures path in ToScan(all, project) <==>
              if e.project == project && e.path == path then e.kind != Deleted else path in ToScan(log, project)
      ensures path in ToDelete(all, project) <==>
              if e.project == project && e.path == path then e.kind == Deleted else path in ToDelete(log, project)
    {
      Classification(log, project, path);
      Classification(all, project, path);
      LastEventAppend(log, e, project, path);
    }
  }

  lemma AppendElsewhere(log: seq<Event>, e: Event)
    ensures forall p :: p != e.project ==> ToScan(log + [e], p) == ToScan(log, p) && ToDelete(log + [e], p) == ToDelete(log, p)
  {
    hide ToScan, ToDelete;
    forall p | p != e.project
      ensures ToScan(log + [e], p) == ToScan(log, p) && ToDelete(log + [e], p) == ToDelete(log, p)
    {
      AppendEvent(log, e, p);
    }
  }

  function Projects(log: seq<Event>): set<Project> {
    set e | e in log :: e.project
  }

  class Buffer {
    var modified: map<Project, set<Path>>
    var deleted: map<Project, set<Path>>
    /** Events since the last flush. */
    ghost var log: seq<Event>

    ghost predicate Valid()
      reads this
    {
      && modified.Keys == deleted.Keys == Projects(log)
      && forall p :: p in modified ==> modified[p] == ToScan(log, p) && deleted[p] == ToDelete(log, p)
    }

    constructor ()
      ensures Valid() && log == []
    {
      modified, deleted, log := map[], map[], [];
    }

    static function Get(m: map<Project, set<Path>>, p: Project): set<Path> {
      if p in m then m[p] else {}
    }

    method Add(project: Project, path: Path, kind: EventType)
      requires Valid()
      modifies this
      ensures Valid() && log == old(log) + [Event(project, path, kind)]
    {
      hide ToScan, ToDelete, LastEvent, Projects;
      ghost var e := Event(project, path, kind);
      NoEventsForStranger(log, project);
      AppendEvent(log, e, project);
      AppendElsewhere(log, e);
      ProjectsAppend(log, e);
      if kind == Deleted {
        deleted := deleted[project := Get(deleted, project) + {path}];
        modified := modified[project := Get(modified, project) - {path}];
      } else {
        modified := modified[project := Get(modified, project) + {path}];
        deleted := deleted[project := Get(deleted, project) - {path}];
      }
      log := log + [e];
    }

    /** Hands over everything pending and empties the buffer. */
    method FlushAll() returns (flushed: map<Project, (set<Path>, set<Path>)>)
      requires Valid()
      modifies this
      ensures Valid() && log == []
      ensures flushed.Keys == Projects(old(log))
      ensures forall p :: p in flushed ==> flushed[p] == (ToScan(old(log), p), ToDelete(old(log), p))
    {
      var all := modified.Keys + deleted.Keys;
      flushed := map p | p in all :: (Get(modified, p), Get(deleted, p));
      modified, deleted := map[], map[];
      log := [];
    }

    method HasPending() returns (pending: bool)
      requires Valid()
      ensures pending <==> log != []
    {
      pending := modified != map[] || deleted != map[];
      if log != [] {
        assert log[0].project in modified;
      }
    }
  }

  lemma ProjectsAppend(log: seq<Event>, e: Event)
    ensures Projects(log + [e]) == Projects(log) + {e.project}
  {
  }

  lemma NoEventsForStranger(log: seq<Event>, p: Project)
    ensures p !in Projects(log) ==> ToScan(log, p) == {} && ToDelete(log, p) == {}
  {
  }
}
