/**
 * The project registry: the read side (libs/core/projects_config.py) and the operations on it (apps/agent/config.py).
 * A root is the sequence of parts of a resolved path; everything that is not a project entry is one opaque value.
 */
module Registry {
  import opened Options

  type Root = seq<string>

  datatype Entry = Entry(root: Root, registeredAt: string, lastScanAt: Option<string>, lastScanStatus: string)

  datatype Config = Config(projects: seq<Entry>, settings: string)

  const DEFAULT_CONFIG := Config([], "")

  datatype Op =
    | Add(root: Root, allowTransient: bool, now: string)
    | Remove(root: Root)
    | UpdateScan(root: Root, status: string, now: string)

  predicate Transient(root: Root) {
    || (exists i :: 0 <= i < |root| - 1 && root[i] == ".claude" && root[i + 1] == "worktrees")
    || (root != [] && root[|root| - 1] == "sample_repo")
  }

  method IsTransient(root: Root) returns (transient: bool)
    ensures transient <==> Transient(root)
  {
    var i := 0;
    while i + 1 < |root|
      invariant forall j :: 0 <= j < i && j + 1 < |root| ==> root[j] != ".claude" || root[j + 1] != "worktrees"
    {
      if root[i] == ".claude" && root[i + 1] == "worktrees" {
        return true;
      }
      i := i + 1;
    }
    return root != [] && root[|root| - 1] == "sample_repo";
  }

  /** The roots of a list of entries, in order. */
  function Roots(entries: seq<Entry>): (roots: seq<Root>)
    ensures |roots| == |entries|
    ensures forall i :: 0 <= i < |entries| ==> roots[i] == entries[i].root
  {
    if entries == [] then [] else [entries[0].root] + Roots(entries[1..])
  }

  predicate Registered(c: Config, root: Root) {
    root in Roots(c.projects)
  }

  predicate Distinct(c: Config) {
    forall i, j :: 0 <= i < j < |c.projects| ==> c.projects[i].root != c.projects[j].root
  }

  function Without(entries: seq<Entry>, root: Root): seq<Entry> {
    if entries == [] then []
    else (if entries[0].root == root then [] else [entries[0]]) + Without(entries[1..], root)
  }

  /** The first entry with the root gets the scan result. */
  function Scanned(entries: seq<Entry>, root: Root, status: string, now: string): seq<Entry> {
    if entries == [] then []
    else if entries[0].root == root then
      [entries[0].(lastScanAt := Some(now), lastScanStatus := status)] + entries[1..]
    else [entries[0]] + Scanned(entries[1..], root, status, now)
  }

  /** What an operation saves, or None when it returns without saving. */
  function Saved(op: Op, c: Config): Option<Config> {
    match op
    case Add(root, allowTransient, now) =>
      if (!allowTransient && Transient(root)) || Registered(c, root) then None
      else Some(c.(projects := c.projects + [Entry(root, now, None, "pending")]))
    case Remove(root) => Some(c.(projects := Without(c.projects, root)))
    case UpdateScan(root, status, now) =>
      if Registered(c, root) then Some(c.(projects := Scanned(c.projects, root, status, now))) else None
  }

  function Apply(op: Op, c: Config): Config {
    if Saved(op, c).Some? then Saved(op, c).value else c
  }

  /** Runs operations one after the other. */
  function Replay(c: Config, ops: seq<Op>): Config {
    if ops == [] then c else Apply(ops[|ops| - 1], Replay(c, ops[..|ops| - 1]))
  }

  /** The configuration file as its users see it between operations; RegistryStore opens up one save. */
  class ConfigFile {
    var config: Config

    constructor (c: Config)
      ensures config == c
    {
      config := c;
    }

    method AddProject(root: Root, allowTransient: bool, now: string)
      modifies this
      ensures config == Apply(Add(root, allowTransient, now), old(config))
    {
      var transient := IsTransient(root);
      if !allowTransient && transient {
        return;
      }
      for i := 0 to |config.projects|
        invariant config == old(config)
        invariant forall j :: 0 <= j < i ==> config.projects[j].root != root
      {
        if config.projects[i].root == root {
          assert Roots(config.projects)[i] == root;
          return;
        }
      }
      config := config.(projects := config.projects + [Entry(root, now, None, "pending")]);
    }

    method RemoveProject(root: Root)
      modifies this
      ensures config == Apply(Remove(root), old(config))
    {
      var entries := config.projects;
      var kept: seq<Entry> := [];
      for i := 0 to |entries|
        invariant config == old(config)
        invariant kept == Without(entries[..i], root)
      {
        assert entries[..i + 1] == entries[..i] + [entries[i]];
        WithoutAppend(entries[..i], [entries[i]], root);
        if entries[i].root != root {
          kept := kept + [entries[i]];
        }
      }
      assert entries[..|entries|] == entries;
      config := config.(projects := kept);
    }

    method UpdateLastScan(root: Root, status: string, now: string)
      modifies this
      ensures config == Apply(UpdateScan(root, status, now), old(config))
    {
      hide Without, Scanned, Transient, Roots;
      var entries := config.projects;
      for i := 0 to |entries|
        invariant config == old(config)
        invariant forall j :: 0 <= j < i ==> entries[j].root != root
      {
        if entries[i].root == root {
          assert Registered(config, root) by {
            assert Roots(entries)[i] == root;
          }
          var e := entries[i].(lastScanAt := Some(now), lastScanStatus := status);
          FirstIsScanned(entries, root, status, now, i);
          config := config.(projects := entries[..i] + [e] + entries[i + 1..]);
          return;
        }
      }
      NotRegistered(config, root);
    }
  }

  lemma NotRegistered(c: Config, root: Root)
    requires forall j :: 0 <= j < |c.projects| ==> c.projects[j].root != root
    ensures !Registered(c, root)
  {
  }

  lemma FirstIsScanned(entries: seq<Entry>, root: Root, status: string, now: string, i: nat)
    requires i < |entries| && entries[i].root == root && forall j :: 0 <= j < i ==> entries[j].root != root
    ensures Scanned(entries, root, status, now)
         == entries[..i] + [entries[i].(lastScanAt := Some(now), lastScanStatus := status)] + entries[i + 1..]
  {
    NotRegistered(Config(entries[..i], ""), root);
    ScannedAt(entries, root, status, now, i);
  }

  lemma {:induction false} WithoutRoots(entries: seq<Entry>, root: Root)
    ensures forall r :: r in Roots(Without(entries, root)) <==> r in Roots(entries) && r != root
    ensures root !in Roots(entries) ==> Without(entries, root) == entries
    ensures forall e :: e in Without(entries, root) <==> e in entries && e.root != root
  {
    if entries != [] {
      var head := if entries[0].root == root then [] else [entries[0]];
      var tail := Without(entries[1..], root);
      WithoutRoots(entries[1..], root);
      assert Roots(head + tail) == Roots(head) + Roots(tail);
    }
  }

  lemma {:induction false} WithoutAppend(a: seq<Entry>, b: seq<Entry>, root: Root)
    ensures Without(a + b, root) == Without(a, root) + Without(b, root)
  {
    if a == [] {
      assert a + b == b;
    } else {
      assert (a + b)[1..] == a[1..] + b;
      WithoutAppend(a[1..], b, root);
    }
  }

  lemma {:induction false} WithoutKeepsDistinct(c: Config, root: Root)
    requires Distinct(c)
    ensures Distinct(c.(projects := Without(c.projects, root)))
    decreases |c.projects|
  {
    var entries := c.projects;
    if entries != [] {
      var rest := c.(projects := entries[1..]);
      assert Distinct(rest);
      WithoutKeepsDistinct(rest, root);
      WithoutRoots(entries[1..], root);
      forall j | 0 <= j < |Without(entries[1..], root)|
        ensures Without(entries[1..], root)[j].root != entries[0].root
      {
        assert Without(entries[1..], root)[j] in entries[1..];
      }
    }
  }

  lemma {:induction false} ScannedRoots(entries: seq<Entry>, root: Root, status: string, now: string)
    ensures Roots(Scanned(entries, root, status, now)) == Roots(entries)
  {
    if entries != [] {
      ScannedRoots(entries[1..], root, status, now);
    }
  }

  /** A scan result lands in the first entry of its root and changes no other entry and no other field. */
  lemma {:induction false} ScannedAt(entries: seq<Entry>, root: Root, status: string, now: string, k: nat)
    requires k < |entries| && entries[k].root == root && root !in Roots(entries[..k])
    ensures Scanned(entries, root, status, now)
         == entries[k := Entry(root, entries[k].registeredAt, Some(now), status)]
  {
    if k > 0 {
      assert entries[..k][0] == entries[0] && entries[..k][1..] == entries[1..][..k - 1];
      assert root != entries[0].root by {
        assert Roots(entries[..k])[0] == entries[0].root;
      }
      ScannedAt(entries[1..], root, status, now, k - 1);
    }
  }

  /** The roots an operation leaves registered. */
  lemma RootsAfter(op: Op, c: Config, root: Root)
    ensures Registered(Apply(op, c), root) <==>
            if op.Add? && op.root == root then Registered(c, root) || op.allowTransient || !Transient(root)
            else Registered(c, root) && op != Remove(root)
  {
    match op
    case Add(r, _, now) =>
      var e := Entry(r, now, None, "pending");
      assert Roots(c.projects + [e]) == Roots(c.projects) + [r];
    case Remove(r) => WithoutRoots(c.projects, r);
    case UpdateScan(r, status, now) => ScannedRoots(c.projects, r, status, now);
  }

  /** No operation registers a root twice or touches the other settings. */
  lemma OpKeepsDistinct(op: Op, c: Config)
    requires Distinct(c)
    ensures Distinct(Apply(op, c)) && Apply(op, c).settings == c.settings
  {
    match op
    case Add(r, _, _) =>
      if Saved(op, c).Some? {
        forall i | 0 <= i < |c.projects|
          ensures c.projects[i].root != r
        {
          assert Roots(c.projects)[i] == c.projects[i].root;
        }
      }
    case Remove(r) => WithoutKeepsDistinct(c, r);
    case UpdateScan(r, status, now) =>
      var after := Scanned(c.projects, r, status, now);
      ScannedRoots(c.projects, r, status, now);
      if Saved(op, c).Some? {
        forall i | 0 <= i < |after|
          ensures after[i].root == c.projects[i].root
        {
          assert Roots(after)[i] == Roots(c.projects)[i];
        }
      }
  }

  /** Adding and then removing a project that was not registered gives back the configuration. */
  lemma RemoveUndoesAdd(c: Config, root: Root, allowTransient: bool, now: string)
    ensures Apply(Remove(root), Apply(Add(root, allowTransient, now), c)) == Apply(Remove(root), c)
    ensures !Registered(c, root) ==> Apply(Remove(root), Apply(Add(root, allowTransient, now), c)) == c
  {
    WithoutAppend(c.projects, [Entry(root, now, None, "pending")], root);
    WithoutRoots(c.projects, root);
  }

  /** Whether the operations leave a root registered: the last operation that adds or removes it decides. */
  function LastSay(ops: seq<Op>, root: Root, before: bool): bool {
    if ops == [] then before
    else
      var op, earlier := ops[|ops| - 1], ops[..|ops| - 1];
      if op == Remove(root) then false
      else if op.Add? && op.root == root && (op.allowTransient || !Transient(root)) then true
      else LastSay(earlier, root, before)
  }

  /** After any operations every root is registered at most once, exactly when the last say says so. */
  lemma {:induction false} ReplayRegisters(c: Config, ops: seq<Op>, root: Root)
    ensures Registered(Replay(c, ops), root) == LastSay(ops, root, Registered(c, root))
    ensures Distinct(c) ==> Distinct(Replay(c, ops))
    ensures Distinct(c) ==> Replay(c, ops).settings == c.settings
  {
    if ops != [] {
      var op, earlier := ops[|ops| - 1], ops[..|ops| - 1];
      ReplayRegisters(c, earlier, root);
      RootsAfter(op, Replay(c, earlier), root);
      if Distinct(c) {
        OpKeepsDistinct(op, Replay(c, earlier));
      }
    }
  }

  /* ----- the entries ----- */

  /** A new project goes to the end, registered now and not scanned yet; everything before it stays. */
  lemma AddedAtEnd(c: Config, root: Root, allowTransient: bool, now: string)
    ensures var after := Apply(Add(root, allowTransient, now), c);
            if (allowTransient || !Transient(root)) && forall e :: e in c.projects ==> e.root != root then
              |after.projects| == |c.projects| + 1 && c.projects <= after.projects
              && after.projects[|c.projects|] == Entry(root, now, None, "pending")
            else after == c
  {
    RegisteredIff(c.projects, root);
  }

  lemma {:induction false} RegisteredIff(entries: seq<Entry>, root: Root)
    ensures root in Roots(entries) <==> exists e :: e in entries && e.root == root
  {
    if entries != [] {
      RegisteredIff(entries[1..], root);
    }
  }

  /** Removing a project keeps exactly the other entries, in their order: those at increasing positions. */
  lemma {:induction false} RemoveKeepsOthers(entries: seq<Entry>, root: Root) returns (at: seq<nat>)
    ensures |at| == |Without(entries, root)|
    ensures forall i :: 0 <= i < |at| ==> at[i] < |entries| && entries[at[i]] == Without(entries, root)[i]
    ensures forall i, j :: 0 <= i < j < |at| ==> at[i] < at[j]
    ensures forall k: nat :: k < |entries| ==> (k in at <==> entries[k].root != root)
  {
    at := [];
    if entries != [] {
      var last := |entries| - 1;
      var init := entries[..last];
      assert entries == init + [entries[last]];
      WithoutAppend(init, [entries[last]], root);
      at := RemoveKeepsOthers(init, root);
      assert forall k: nat :: k < last ==> entries[k] == init[k];
      if entries[last].root != root {
        at := at + [last];
      }
    }
  }

  /** Transient are roots below a worktree directory of an agent, and sample repositories. */
  lemma TransientIff(root: Root)
    ensures Transient(root) <==>
            || (exists pre: Root, post: Root :: root == pre + [".claude", "worktrees"] + post)
            || (exists pre: Root :: root == pre + ["sample_repo"])
  {
    if i :| 0 <= i < |root| - 1 && root[i] == ".claude" && root[i + 1] == "worktrees" {
      assert root == root[..i] + [".claude", "worktrees"] + root[i + 2..];
    }
    if pre: Root, post: Root :| root == pre + [".claude", "worktrees"] + post {
      assert root[|pre|] == ".claude" && root[|pre| + 1] == "worktrees";
    }
    if root != [] && root[|root| - 1] == "sample_repo" {
      assert root == root[..|root| - 1] + ["sample_repo"];
    }
  }
}
