/**
 * One pass of the daemon over the pending events (apps/agent/daemon.py). Scanning indexes what is on disk for the
 * given paths and leaves paths that are not on disk as they are (libs/scanning/scanner.py).
 */
module Daemon {
  import opened Options
  import opened DebounceBuffer

  type Content = string
  type Files = map<Path, Content>

  /**
   * How processing one project ends. A failure comes after some of the deletions and, when those are through, some of
   * the scanning; what it has done by then is committed. A corrupt cache may hold anything.
   */
  datatype Outcome = Succeeds | CacheCorrupt(left: Files) | Fails(removed: set<Path>, scanned: set<Path>)

  function Removed(deleted: set<Path>, outcome: Outcome): set<Path> {
    if outcome.Fails? then deleted * outcome.removed else deleted
  }

  function Scanned(modified: set<Path>, deleted: set<Path>, outcome: Outcome): set<Path> {
    if !outcome.Fails? then modified
    else if deleted <= outcome.removed then modified * outcome.scanned
    else {}
  }

  /** Index of a project after deleting some paths and then scanning others. */
  function Reindexed(index: Files, disk: Files, modified: set<Path>, deleted: set<Path>): Files {
    (index - deleted) + (map r | r in modified && r in disk :: disk[r])
  }

  /** Files whose content differs from the index are reparsed. */
  function Outdated(index: Files, disk: Files, modified: set<Path>): (paths: set<Path>)
    ensures paths <= modified
  {
    set r | r in modified && r in disk && (r !in index || index[r] != disk[r])
  }

  function Reparsed(index: Files, disk: Files, modified: set<Path>): nat {
    |Outdated(index, disk, modified)|
  }

  function FilesOf(m: map<Project, Files>, p: Project): Files {
    if p in m then m[p] else map[]
  }

  function OutcomeOf(outcomes: map<Project, Outcome>, p: Project): Outcome {
    if p in outcomes then outcomes[p] else Succeeds
  }

  /** Index of p after a pass that has (modified, deleted) pending for it. */
  function PassIndex(index: Files, disk: Files, modified: set<Path>, deleted: set<Path>, outcome: Outcome): Files {
    if outcome.CacheCorrupt? then outcome.left
    else Reindexed(index, disk, Scanned(modified, deleted, outcome), Removed(deleted, outcome))
  }

  lemma NothingModified(index: Files, disk: Files, modified: set<Path>)
    ensures modified == {} ==> Reparsed(index, disk, modified) == 0
    ensures modified == {} ==> index + (map r | r in modified && r in disk :: disk[r]) == index
  {
    hide Outdated;
    assert Outdated(index, disk, modified) <= modified;
  }

  class Agent {
    const buffer: Buffer
    var index: map<Project, Files>
    var quarantined: set<Project>

    constructor (b: Buffer)
      ensures buffer == b && quarantined == {} && index == map[]
    {
      buffer, index, quarantined := b, map[], {};
    }

    /** Processes one project that is not quarantined; a corrupt cache puts it into quarantine. */
    method ProcessProject(p: Project, modified: set<Path>, deleted: set<Path>, disk: Files, outcome: Outcome)
      returns (reparsed: Option<nat>)
      modifies this
      ensures FilesOf(index, p) == PassIndex(old(FilesOf(index, p)), disk, modified, deleted, outcome)
      ensures forall q :: q != p ==> FilesOf(index, q) == old(FilesOf(index, q))
      ensures quarantined == old(quarantined) + if outcome.CacheCorrupt? then {p} else {}
      ensures reparsed == if outcome.Succeeds? then Some(Reparsed(old(FilesOf(index, p)) - deleted, disk, modified)) else None
    {
      hide Reparsed;
      var files := FilesOf(index, p);
      reparsed := None;
      if outcome.CacheCorrupt? {
        files := outcome.left;
        quarantined := quarantined + {p};
      } else {
        var gone := Removed(deleted, outcome);
        var todo := gone;
        while todo != {}
          invariant todo <= gone
          invariant files == old(FilesOf(index, p)) - (gone - todo)
          decreases todo
        {
          var rel :| rel in todo;
          files := files - {rel};
          todo := todo - {rel};
        }
        assert gone - todo == gone;
        // a scan without paths reparses nothing
        var found := Scanned(modified, deleted, outcome);
        NothingModified(files, disk, found);
        if found != {} {
          reparsed := Some(Reparsed(files, disk, found));
          files := files + (map r | r in found && r in disk :: disk[r]);
        } else {
          reparsed := Some(0);
        }
        if outcome.Fails? {
          reparsed := None;
        }
      }
      index := index[p := files];
    }

    /** Flushes the buffer and processes each project, in any order; quarantined projects are skipped. */
    method ProcessPendingEvents(disk: map<Project, Files>, outcomes: map<Project, Outcome>)
      returns (results: map<Project, nat>)
      requires buffer.Valid()
      modifies this, buffer
      ensures buffer.Valid() && buffer.log == []
      ensures forall p :: (FilesOf(index, p) ==
        if p in Projects(old(buffer.log)) && p !in old(quarantined) then
          PassIndex(old(FilesOf(index, p)), FilesOf(disk, p), ToScan(old(buffer.log), p), ToDelete(old(buffer.log), p),
                    OutcomeOf(outcomes, p))
        else old(FilesOf(index, p)))
      ensures forall p :: p in quarantined <==>
        p in old(quarantined) || (p in Projects(old(buffer.log)) && OutcomeOf(outcomes, p).CacheCorrupt?)
      ensures forall p :: p in results <==>
        p in Projects(old(buffer.log)) && p !in old(quarantined) && OutcomeOf(outcomes, p).Succeeds?
      ensures forall p :: p in results ==>
        results[p] == Reparsed(old(FilesOf(index, p)) - ToDelete(old(buffer.log), p), FilesOf(disk, p),
                               ToScan(old(buffer.log), p))
    {
      hide ToScan, ToDelete, Projects, PassIndex, Reparsed, FilesOf, OutcomeOf, Handled;
      ghost var was, shut := index, quarantined;
      var pending := buffer.FlushAll();
      results := map[];
      var todo := pending.Keys;
      HandledNone(was, shut, pending, disk, outcomes);
      assert pending.Keys - todo == {};
      while todo != {}
        invariant todo <= pending.Keys
        invariant buffer.Valid() && buffer.log == []
        invariant Handled(was, shut, pending, disk, outcomes, pending.Keys - todo, index, quarantined, results)
        decreases todo
      {
        var p :| p in todo;
        ghost var index0, quarantined0, results0 := index, quarantined, results;
        var skip := p in quarantined;
        if !skip {
          var (modified, deleted) := pending[p];
          var reparsed := ProcessProject(p, modified, deleted, FilesOf(disk, p), OutcomeOf(outcomes, p));
          if reparsed.Some? {
            results := results[p := reparsed.value];
          }
        }
        HandledOneMore(was, shut, pending, disk, outcomes, pending.Keys - todo, index0, quarantined0, results0, p,
                       index, quarantined, results);
        assert pending.Keys - todo + {p} == pending.Keys - (todo - {p});
        todo := todo - {p};
      }
      assert pending.Keys - todo == pending.Keys;
      HandledAll(was, shut, pending, disk, outcomes, index, quarantined, results);
    }
  }

  /** What a pass has done after handling some of the pending projects. */
  ghost predicate Handled(was: map<Project, Files>, shut: set<Project>, pending: map<Project, (set<Path>, set<Path>)>,
                          disk: map<Project, Files>, outcomes: map<Project, Outcome>, done: set<Project>,
                          index: map<Project, Files>, quarantined: set<Project>, results: map<Project, nat>)
  {
    && done <= pending.Keys
    && (forall p :: (FilesOf(index, p) ==
          if p in done && p !in shut then
            PassIndex(FilesOf(was, p), FilesOf(disk, p), pending[p].0, pending[p].1, OutcomeOf(outcomes, p))
          else FilesOf(was, p)))
    && (forall p :: p in quarantined <==> p in shut || (p in done && OutcomeOf(outcomes, p).CacheCorrupt?))
    && (forall p :: p in results <==> p in done && p !in shut && OutcomeOf(outcomes, p).Succeeds?)
    && (forall p :: p in results ==>
          results[p] == Reparsed(FilesOf(was, p) - pending[p].1, FilesOf(disk, p), pending[p].0))
  }

  lemma HandledNone(was: map<Project, Files>, shut: set<Project>, pending: map<Project, (set<Path>, set<Path>)>,
                    disk: map<Project, Files>, outcomes: map<Project, Outcome>)
    ensures Handled(was, shut, pending, disk, outcomes, {}, was, shut, map[])
  {
  }

  lemma HandledOneMore(was: map<Project, Files>, shut: set<Project>, pending: map<Project, (set<Path>, set<Path>)>,
                       disk: map<Project, Files>, outcomes: map<Project, Outcome>, done: set<Project>,
                       index0: map<Project, Files>, quarantined0: set<Project>, results0: map<Project, nat>, p: Project,
                       index: map<Project, Files>, quarantined: set<Project>, results: map<Project, nat>)
    requires Handled(was, shut, pending, disk, outcomes, done, index0, quarantined0, results0)
    requires p in pending && p !in done
    requires p in quarantined0 ==> index == index0 && quarantined == quarantined0 && results == results0
    requires p !in quarantined0 ==>
               && FilesOf(index, p)
                  == PassIndex(FilesOf(index0, p), FilesOf(disk, p), pending[p].0, pending[p].1, OutcomeOf(outcomes, p))
               && (forall q :: q != p ==> FilesOf(index, q) == FilesOf(index0, q))
               && quarantined == quarantined0 + (if OutcomeOf(outcomes, p).CacheCorrupt? then {p} else {})
               && results == (if OutcomeOf(outcomes, p).Succeeds?
                              then results0[p := Reparsed(FilesOf(index0, p) - pending[p].1, FilesOf(disk, p), pending[p].0)]
                              else results0)
    ensures Handled(was, shut, pending, disk, outcomes, done + {p}, index, quarantined, results)
  {
    hide FilesOf, PassIndex, OutcomeOf, Reparsed;
  }

  lemma HandledAll(was: map<Project, Files>, shut: set<Project>, pending: map<Project, (set<Path>, set<Path>)>,
                   disk: map<Project, Files>, outcomes: map<Project, Outcome>,
                   index: map<Project, Files>, quarantined: set<Project>, results: map<Project, nat>)
    requires Handled(was, shut, pending, disk, outcomes, pending.Keys, index, quarantined, results)
    ensures forall p :: (FilesOf(index, p) ==
              if p in pending && p !in shut then
                PassIndex(FilesOf(was, p), FilesOf(disk, p), pending[p].0, pending[p].1, OutcomeOf(outcomes, p))
              else FilesOf(was, p))
    ensures forall p :: p in quarantined <==> p in shut || (p in pending && OutcomeOf(outcomes, p).CacheCorrupt?)
    ensures forall p :: p in results <==> p in pending && p !in shut && OutcomeOf(outcomes, p).Succeeds?
    ensures forall p :: p in results ==>
              results[p] == Reparsed(FilesOf(was, p) - pending[p].1, FilesOf(disk, p), pending[p].0)
  {
    hide FilesOf, PassIndex, OutcomeOf, Reparsed;
  }

  /** The number of reparsed files is the number of entries that scanning adds or changes. */
  lemma ReparsedCountsChanges(index: Files, disk: Files, modified: set<Path>)
    ensures var after := Reindexed(index, disk, modified, {});
            Reparsed(index, disk, modified) == |set r | r in after && (r !in index || index[r] != after[r])|
  {
    var after := Reindexed(index, disk, modified, {});
    assert Outdated(index, disk, modified) == set r | r in after && (r !in index || index[r] != after[r]);
  }

  /** A pass leaves every path as it is on disk if it was scanned, without entry if it was deleted, else as it was. */
  lemma PassAt(index: Files, disk: Files, modified: set<Path>, deleted: set<Path>, r: Path)
    requires modified !! deleted
    ensures var after := PassIndex(index, disk, modified, deleted, Succeeds);
            && (r in modified && r in disk ==> r in after && after[r] == disk[r])
            && (r in deleted ==> r !in after)
            && (r !in deleted && !(r in modified && r in disk) ==>
                  (r in after <==> r in index) && (r in index ==> after[r] == index[r]))
  {
  }
}
