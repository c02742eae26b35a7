/**
 * Static impact analysis (libs/impact/analyzer.py): file-level dependency maps built from typed relations, and
 * the dependents of a target file up to a depth.
 */
module ImpactAnalyzer {
  import opened Options
  import opened Entities
  import opened Digraphs
  import opened Reachability
  import Text

  datatype ImpactReport = ImpactReport(
    target: Node,
    directDependents: set<Node>,
    transitiveDependents: set<Node>,
    affectedTests: set<Node>,
    riskScore: real)

  /* ----- what the relations say ----- */

  predicate IsDefinition(r: Relation, sym: Node) {
    r.relationType == Defines && r.srcType == "file" && r.dstRef == sym
  }

  predicate IsImport(r: Relation, sym: Node, file: Node) {
    r.relationType == Imports && r.srcType == "file" && r.dstRef == sym && r.srcRef == file
  }

  /** file is the last one that defines sym. */
  ghost predicate DefinedBy(rels: seq<Relation>, sym: Node, file: Node) {
    exists i :: 0 <= i < |rels| && IsDefinition(rels[i], sym) && rels[i].srcRef == file &&
                forall j :: i < j < |rels| ==> !IsDefinition(rels[j], sym)
  }

  ghost predicate ImportedBy(rels: seq<Relation>, sym: Node, file: Node) {
    exists r :: r in rels && IsImport(r, sym, file)
  }

  /** File b uses a symbol of file a. */
  ghost predicate DependsOn(rels: seq<Relation>, b: Node, a: Node) {
    a != b && exists sym :: DefinedBy(rels, sym, a) && ImportedBy(rels, sym, b)
  }

  /** There is a chain of at most k dependencies from f down to target. */
  ghost predicate DependsWithin(rels: seq<Relation>, f: Node, target: Node, k: nat) {
    exists p: seq<Node> ::
      0 < |p| <= k + 1 && p[0] == target && p[|p| - 1] == f && forall i :: 0 < i < |p| ==> DependsOn(rels, p[i], p[i - 1])
  }

  /** A dependents map that holds exactly the dependency relation. */
  ghost predicate IsDependentsMap(rels: seq<Relation>, deps: Adjacency) {
    forall a, b :: b in Succ(deps, a) <==> DependsOn(rels, b, a)
  }

  /** An imports map; a definer with an empty path is not recorded. */
  ghost predicate IsImportsMap(rels: seq<Relation>, imports: Adjacency) {
    forall a, b :: a in Succ(imports, b) <==> DependsOn(rels, b, a) && a != ""
  }

  /** The two maps are converse to each other, except that the empty path is missing from one of them. */
  lemma MapsAreConverseUpToEmptyPath(rels: seq<Relation>, deps: Adjacency, imports: Adjacency, a: Node, b: Node)
    requires IsDependentsMap(rels, deps) && IsImportsMap(rels, imports)
    ensures a in Succ(imports, b) <==> b in Succ(deps, a) && a != ""
  {
  }

  /* ----- tables filled from the relations ----- */

  ghost predicate IsDefinerTable(rels: seq<Relation>, definer: map<Node, Node>) {
    forall sym, f :: sym in definer && definer[sym] == f <==> DefinedBy(rels, sym, f)
  }

  lemma AppendDefinition(rels: seq<Relation>, r: Relation, sym: Node, f: Node)
    ensures DefinedBy(rels + [r], sym, f)
       <==> if IsDefinition(r, sym) then r.srcRef == f else DefinedBy(rels, sym, f)
  {
    var all := rels + [r];
    if IsDefinition(r, sym) {
      assert all[|rels|] == r;
    } else if DefinedBy(rels, sym, f) {
      var i :| 0 <= i < |rels| && IsDefinition(rels[i], sym) && rels[i].srcRef == f &&
               forall j :: i < j < |rels| ==> !IsDefinition(rels[j], sym);
      assert all[i] == rels[i];
    } else if DefinedBy(all, sym, f) {
      var i :| 0 <= i < |all| && IsDefinition(all[i], sym) && all[i].srcRef == f &&
               forall j :: i < j < |all| ==> !IsDefinition(all[j], sym);
      forall j | i < j < |rels|
        ensures !IsDefinition(rels[j], sym)
      {
        assert all[j] == rels[j];
      }
      assert false;
    }
  }

  lemma AppendImport(rels: seq<Relation>, r: Relation, sym: Node, f: Node)
    ensures ImportedBy(rels + [r], sym, f) <==> IsImport(r, sym, f) || ImportedBy(rels, sym, f)
  {
  }

  lemma DefinerTableStep(rels: seq<Relation>, r: Relation, definer: map<Node, Node>)
    requires IsDefinerTable(rels, definer)
    ensures IsDefinerTable(rels + [r],
              if r.relationType == Defines && r.srcType == "file" then definer[r.dstRef := r.srcRef] else definer)
  {
    forall sym, f {
      AppendDefinition(rels, r, sym, f);
    }
  }

  /** dict-of-sets update: adds x under key. */
  function Insert(m: Adjacency, key: Node, x: Node): (r: Adjacency)
    ensures forall k, y {:trigger y in Succ(r, k)} :: y in Succ(r, k) <==> y in Succ(m, k) || (k == key && y == x)
  {
    m[key := Succ(m, key) + {x}]
  }

  method BuildFileDepMap(relations: seq<Relation>) returns (dependents: Adjacency)
    ensures IsDependentsMap(relations, dependents)
  {
    var definer: map<Node, Node>, importers: Adjacency := map[], map[];
    for i := 0 to |relations|
      invariant IsDefinerTable(relations[..i], definer)
      invariant forall sym, f :: f in Succ(importers, sym) <==> ImportedBy(relations[..i], sym, f)
    {
      hide DefinedBy, ImportedBy;
      var rel := relations[i];
      assert relations[..i + 1] == relations[..i] + [rel];
      DefinerTableStep(relations[..i], rel, definer);
      forall sym, f {
        AppendImport(relations[..i], rel, sym, f);
      }
      if rel.relationType == Defines && rel.srcType == "file" {
        definer := definer[rel.dstRef := rel.srcRef];
      } else if rel.relationType == Imports && rel.srcType == "file" {
        importers := Insert(importers, rel.dstRef, rel.srcRef);
      }
    }
    assert relations[..|relations|] == relations;

    dependents := map[];
    var todo := definer.Keys;
    while todo != {}
      invariant todo <= definer.Keys
      invariant forall a, b {:trigger b in Succ(dependents, a)} ::
        b in Succ(dependents, a) <==> a != b && Linked(definer, importers, definer.Keys - todo, a, b)
      decreases todo
    {
      var sym :| sym in todo;
      var before := definer.Keys - todo;
      forall a, b {
        LinkedStep(definer, importers, before, sym, a, b);
      }
      dependents := AddAll(dependents, definer[sym], Succ(importers, sym));
      todo := todo - {sym};
      assert definer.Keys - todo == before + {sym};
    }
    forall a, b
      ensures Linked(definer, importers, definer.Keys, a, b) <==>
              exists sym :: DefinedBy(relations, sym, a) && ImportedBy(relations, sym, b)
    {
      TablesDescribeDependency(relations, definer, importers, a, b);
    }
  }

  /** Some symbol among syms is defined by a and imported by b, according to the tables. */
  ghost predicate Linked(definer: map<Node, Node>, importers: Adjacency, syms: set<Node>, a: Node, b: Node) {
    exists sym :: sym in syms && sym in definer && definer[sym] == a && b in Succ(importers, sym)
  }

  lemma LinkedStep(definer: map<Node, Node>, importers: Adjacency, syms: set<Node>, sym: Node, a: Node, b: Node)
    requires sym in definer
    ensures Linked(definer, importers, syms + {sym}, a, b)
       <==> Linked(definer, importers, syms, a, b) || (definer[sym] == a && b in Succ(importers, sym))
  {
  }

  lemma TablesDescribeDependency(rels: seq<Relation>, definer: map<Node, Node>, importers: Adjacency, a: Node, b: Node)
    requires IsDefinerTable(rels, definer)
    requires forall sym, f :: f in Succ(importers, sym) <==> ImportedBy(rels, sym, f)
    ensures Linked(definer, importers, definer.Keys, a, b)
       <==> exists sym :: DefinedBy(rels, sym, a) && ImportedBy(rels, sym, b)
  {
    hide DefinedBy, ImportedBy;
    if Linked(definer, importers, definer.Keys, a, b) {
      var sym :| sym in definer && definer[sym] == a && b in Succ(importers, sym);
      assert DefinedBy(rels, sym, a) && ImportedBy(rels, sym, b);
    }
    if exists sym :: DefinedBy(rels, sym, a) && ImportedBy(rels, sym, b) {
      var sym :| DefinedBy(rels, sym, a) && ImportedBy(rels, sym, b);
      assert sym in definer && definer[sym] == a;
    }
  }

  /** Records every importer but the definer itself. */
  method AddAll(dependents: Adjacency, definer: Node, importers: set<Node>) returns (r: Adjacency)
    ensures forall a, b {:trigger b in Succ(r, a)} ::
      b in Succ(r, a) <==> b in Succ(dependents, a) || (a == definer && b != a && b in importers)
  {
    r := dependents;
    var todo := importers;
    while todo != {}
      invariant todo <= importers
      invariant forall a, b {:trigger b in Succ(r, a)} ::
        b in Succ(r, a) <==> b in Succ(dependents, a) || (a == definer && b != a && b in importers - todo)
      decreases todo
    {
      var importer :| importer in todo;
      if importer != definer {
        r := Insert(r, definer, importer);
      }
      todo := todo - {importer};
    }
  }

  method BuildImportsMap(relations: seq<Relation>) returns (imports: Adjacency)
    ensures IsImportsMap(relations, imports)
  {
    var definer: map<Node, Node>, imported: Adjacency := map[], map[];
    for i := 0 to |relations|
      invariant IsDefinerTable(relations[..i], definer)
      invariant forall sym, f :: sym in Succ(imported, f) <==> ImportedBy(relations[..i], sym, f)
    {
      hide DefinedBy, ImportedBy;
      var rel := relations[i];
      assert relations[..i + 1] == relations[..i] + [rel];
      DefinerTableStep(relations[..i], rel, definer);
      forall sym, f {
        AppendImport(relations[..i], rel, sym, f);
      }
      if rel.relationType == Defines && rel.srcType == "file" {
        definer := definer[rel.dstRef := rel.srcRef];
      } else if rel.relationType == Imports && rel.srcType == "file" {
        imported := Insert(imported, rel.srcRef, rel.dstRef);
      }
    }
    assert relations[..|relations|] == relations;

    imports := map[];
    var todo := imported.Keys;
    while todo != {}
      invariant todo <= imported.Keys
      invariant forall a, b :: a in Succ(imports, b) <==>
        b !in todo && a != b && a != "" &&
        exists sym :: sym in Succ(imported, b) && sym in definer && definer[sym] == a
      decreases todo
    {
      var file :| file in todo;
      imports := AddDefiners(imports, file, imported[file], definer);
      todo := todo - {file};
    }
    forall a, b
      ensures a in Succ(imports, b) <==> DependsOn(relations, b, a) && a != ""
    {
      ImportsDescribeDependency(relations, definer, imported, a, b);
    }
  }

  lemma ImportsDescribeDependency(rels: seq<Relation>, definer: map<Node, Node>, imported: Adjacency, a: Node, b: Node)
    requires IsDefinerTable(rels, definer)
    requires forall sym, f :: sym in Succ(imported, f) <==> ImportedBy(rels, sym, f)
    ensures (exists sym :: sym in Succ(imported, b) && sym in definer && definer[sym] == a)
       <==> exists sym :: DefinedBy(rels, sym, a) && ImportedBy(rels, sym, b)
  {
    hide DefinedBy, ImportedBy;
    if exists sym :: DefinedBy(rels, sym, a) && ImportedBy(rels, sym, b) {
      var sym :| DefinedBy(rels, sym, a) && ImportedBy(rels, sym, b);
      assert sym in definer && definer[sym] == a;
    }
  }

  /** Records the definers of the imported symbols, skipping unknown symbols, empty paths and the file itself. */
  method AddDefiners(imports: Adjacency, file: Node, syms: set<Node>, definer: map<Node, Node>) returns (r: Adjacency)
    ensures forall a, b :: a in Succ(r, b) <==>
      a in Succ(imports, b) ||
      (b == file && a != b && a != "" && exists sym :: sym in syms && sym in definer && definer[sym] == a)
  {
    r := imports;
    var todo := syms;
    while todo != {}
      invariant todo <= syms
      invariant forall a, b :: a in Succ(r, b) <==>
        a in Succ(imports, b) ||
        (b == file && a != b && a != "" && exists sym :: sym in syms - todo && sym in definer && definer[sym] == a)
      decreases todo
    {
      var sym :| sym in todo;
      if sym in definer && definer[sym] != "" && definer[sym] != file {
        r := Insert(r, file, definer[sym]);
      }
      todo := todo - {sym};
    }
  }

  /* ----- the analysis ----- */

  function Max(a: int, b: int): int {
    if a < b then b else a
  }

  function Risk(fanIn: nat, fanOut: nat, gitChurn: int): real {
    (fanIn * Max(1, fanOut)) as real * (1.0 + gitChurn as real / 10.0)
  }

  /** Without churn a score is the number of dependents for each import, one import at least counting. */
  predicate ReflectsDependents(score: real, fanIn: nat, fanOut: nat, gitChurn: int) {
    gitChurn == 0 ==>
      score >= fanIn as real && (if fanOut <= 1 then score == fanIn as real else score == (fanIn * fanOut) as real)
  }

  /** Churn scales the score. */
  lemma RiskGrows(fanIn: nat, fanOut: nat, gitChurn: int)
    ensures ReflectsDependents(Risk(fanIn, fanOut, gitChurn), fanIn, fanOut, gitChurn)
    ensures 10.0 * Risk(fanIn, fanOut, gitChurn) == Risk(fanIn, fanOut, 0) * (10 + gitChurn) as real
  {
    var x, c := (fanIn * Max(1, fanOut)) as real, gitChurn as real;
    assert 10.0 * (x * (1.0 + c / 10.0)) == x * (10.0 + c);
    assert Max(1, fanOut) >= 1 && fanIn * Max(1, fanOut) >= fanIn;
  }

  /** Tests have the role, a directory or file name that begins with "test", or begin with it themselves. */
  lemma TestFileIff(f: Node, roles: map<Node, string>)
    ensures IsTestFile(f, roles) <==>
            || (f in roles && roles[f] == "test") || "test" <= f
            || exists i: nat {:trigger f[i..]} :: i <= |f| && "/test" <= f[i..]
  {
    forall i: nat | i <= |f|
      ensures Text.OccursAt(f, "/test", i) <==> "/test" <= f[i..]
    {
      if i + 5 <= |f| {
        assert f[i..][..5] == f[i..i + 5];
      }
    }
  }

  predicate IsTestFile(f: Node, roles: map<Node, string>) {
    (f in roles && roles[f] == "test") || Text.Contains(f, "/test") || "test" <= f
  }

  /** A chain of dependencies is a path of the dependents map. */
  lemma DependsWithinIsPathWithin(rels: seq<Relation>, deps: Adjacency, target: Node, f: Node, k: nat)
    requires IsDependentsMap(rels, deps)
    ensures DependsWithin(rels, f, target, k) <==> PathWithin(deps, target, f, k)
  {
    hide DependsOn;
    if DependsWithin(rels, f, target, k) {
      var p: seq<Node> :| 0 < |p| <= k + 1 && p[0] == target && p[|p| - 1] == f &&
                          forall i :: 0 < i < |p| ==> DependsOn(rels, p[i], p[i - 1]);
      assert IsPath(deps, p);
    }
    if PathWithin(deps, target, f, k) {
      var p: seq<Node> :| IsPath(deps, p) && p[0] == target && p[|p| - 1] == f && |p| <= k + 1;
      assert forall i :: 0 < i < |p| ==> DependsOn(rels, p[i], p[i - 1]);
    }
  }

  /** One step from a node leads to its successors. */
  lemma WithinOne(adj: Adjacency, seed: Node, n: Node)
    ensures PathWithin(adj, seed, n, 1) <==> n == seed || n in Succ(adj, seed)
  {
    WithinIffPath(adj, seed, n, 1);
    assert Within(adj, seed, n, 0) <==> n == seed;
    if n in Succ(adj, seed) {
      assert Within(adj, seed, seed, 0);
    }
  }

  /** All entries are direct dependents, at depth one. */
  predicate FirstLevel(direct: set<Node>, queue: Queue) {
    forall i :: 0 <= i < |queue| ==> queue[i].node in direct && queue[i].dist == 1
  }

  lemma FirstLevelStarts(direct: set<Node>)
    ensures FirstLevel(direct, [])
  {
  }

  lemma FirstLevelGrows(direct: set<Node>, queue: Queue, d: Node)
    requires FirstLevel(direct, queue) && d in direct
    ensures FirstLevel(direct, queue + [Entry(d, 1)])
  {
  }

  /** The first level of the search, entered with the direct dependents. */
  method EnqueueDirect(deps: Adjacency, target: Node, maxDepth: int, direct: set<Node>)
    returns (frontier: Queue, ghost tags: map<Node, nat>)
    requires 1 < maxDepth && direct == Succ(deps, target) && target !in direct
    ensures Searching(deps, target, maxDepth, tags, frontier)
    ensures tags.Keys == {target} + direct <= Universe(deps, target)
    ensures FirstLevel(direct, frontier)
  {
    hide Searching, Scanning, Universe, FirstLevel, Succ;
    frontier := [];
    tags := map[target := 0];
    var todo := direct;
    SearchStarts(deps, target, maxDepth);
    ScanStarts(deps, target, maxDepth, tags, [Entry(target, 0)]);
    SeedInUniverse(deps, target);
    SuccInUniverse(deps, target, target);
    assert [Entry(target, 0)][1..] == frontier;
    FirstLevelStarts(direct);
    while todo != {}
      invariant todo <= direct
      invariant tags.Keys == {target} + (direct - todo)
      invariant FirstLevel(direct, frontier)
      invariant Scanning(deps, target, maxDepth, tags, frontier, target, 0, todo)
      decreases todo
    {
      var d :| d in todo;
      VisitKeepsScanning(deps, target, maxDepth, tags, frontier, target, 0, todo, d);
      tags := tags[d := 1];
      assert Scanning(deps, target, maxDepth, tags, frontier + [Entry(d, 1)], target, 0, todo - {d});
      FirstLevelGrows(direct, frontier, d);
      frontier := frontier + [Entry(d, 1)];
      todo := todo - {d};
    }
    ScanEnds(deps, target, maxDepth, tags, frontier, target, 0);
  }

  /** Files the target uses, by non-empty path. */
  ghost function Uses(rels: seq<Relation>, target: Node): set<Node> {
    set r | r in rels && DependsOn(rels, target, r.srcRef) && r.srcRef != "" :: r.srcRef
  }

  lemma ImportsAreUses(rels: seq<Relation>, imports: Adjacency, target: Node)
    requires IsImportsMap(rels, imports)
    ensures Succ(imports, target) == Uses(rels, target)
  {
    forall a | DependsOn(rels, target, a)
      ensures exists r :: r in rels && r.srcRef == a
    {
      var sym :| DefinedBy(rels, sym, a) && ImportedBy(rels, sym, target);
      var i :| 0 <= i < |rels| && IsDefinition(rels[i], sym) && rels[i].srcRef == a;
      assert rels[i] in rels;
    }
  }

  method AnalyzeImpact(target: Node, relations: Option<seq<Relation>>, roles: map<Node, string>, maxDepth: int, gitChurn: int)
    returns (report: ImpactReport)
    ensures report.target == target
    ensures report.directDependents !! report.transitiveDependents
    ensures target !in report.directDependents + report.transitiveDependents
    ensures var rels := if relations.Some? then relations.value else [];
            && (forall f :: f in report.directDependents <==> DependsOn(rels, f, target))
            && (forall f :: f in {target} + report.directDependents + report.transitiveDependents <==>
                  DependsWithin(rels, f, target, Max(1, maxDepth)))
            && report.riskScore == Risk(|report.directDependents|, |Uses(rels, target)|, gitChurn)
            && ReflectsDependents(report.riskScore, |report.directDependents|, |Uses(rels, target)|, gitChurn)
    ensures forall f :: f in report.affectedTests <==>
              f in report.directDependents + report.transitiveDependents && IsTestFile(f, roles)
  {
    hide IsDependentsMap, IsImportsMap, DependsOn, DependsWithin, PathWithin, Searching, Universe, AtDistance, IsTestFile, Risk, Uses, ReflectsDependents;
    var deps: Adjacency, imports: Adjacency := map[], map[];
    ghost var rels := if relations.Some? then relations.value else [];
    if relations.Some? {
      deps := BuildFileDepMap(relations.value);
      imports := BuildImportsMap(relations.value);
    } else {
      NoRelations();
    }
    var direct := Succ(deps, target);
    DirectDependents(rels, deps, target);
    var transitive: set<Node> := {};
    if maxDepth > 1 {
      var frontier;
      ghost var tags, allTags;
      frontier, tags := EnqueueDirect(deps, target, maxDepth, direct);
      var visited;
      visited, transitive, allTags := Drain(deps, target, maxDepth, {target} + direct, frontier, tags);
    } else {
      forall f {
        WithinOne(deps, target, f);
      }
    }
    assert forall f :: f in {target} + direct + transitive <==> PathWithin(deps, target, f, Max(1, maxDepth));
    forall f
      ensures f in {target} + direct + transitive <==> DependsWithin(rels, f, target, Max(1, maxDepth))
    {
      DependsWithinIsPathWithin(rels, deps, target, f, Max(1, maxDepth));
    }
    ImportsAreUses(rels, imports, target);
    var dependents := direct + transitive;
    var tests := set f | f in dependents && IsTestFile(f, roles);
    RiskGrows(|direct|, |Succ(imports, target)|, gitChurn);
    report := ImpactReport(target, direct, transitive, tests,
                           Risk(|direct|, |Succ(imports, target)|, gitChurn));
  }

  lemma NoRelations()
    ensures IsDependentsMap([], map[]) && IsImportsMap([], map[])
  {
  }

  lemma DirectDependents(rels: seq<Relation>, deps: Adjacency, target: Node)
    requires IsDependentsMap(rels, deps)
    ensures target !in Succ(deps, target)
    ensures forall f :: f in Succ(deps, target) <==> DependsOn(rels, f, target)
  {
  }
}
