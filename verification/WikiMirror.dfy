/**
 * The mirror of a project's wiki in an Obsidian vault (libs/obsidian/publisher.py): a write pass over the source
 * pages, then a cleanup of every other markdown page. Paths are sequences of names below the two wiki directories.
 */
module WikiMirror {
  import opened Options
  import opened Wikilinks

  type FilePath = seq<string>

  /**
   * What reading a page of the source gives: its text, an error of the file system (so for a directory named like a
   * module article), or a text that cannot be decoded, an error the pass does not catch.
   */
  datatype Page = Text(text: string) | Unreadable | Garbled

  /** The source tree, and the order in which its module articles are listed. */
  datatype Source = Source(files: map<FilePath, Page>, listing: seq<FilePath>)

  /** Pages of the vault that cannot be written, or not removed. */
  datatype Faults = Faults(unwritable: set<FilePath>, stuck: set<FilePath>)

  /** Counters of a pass, and whether it went through to its end. */
  datatype Report = Report(written: nat, deleted: nat, errors: nat, complete: bool)

  const INDEX_PAGE: FilePath := ["INDEX.md"]
  const ARCHITECTURE_PAGE: FilePath := ["architecture.md"]

  predicate EndsWith(s: string, suffix: string) {
    |s| >= |suffix| && s[|s| - |suffix|..] == suffix
  }

  predicate IsMarkdown(p: FilePath) {
    p != [] && EndsWith(p[|p| - 1], ".md")
  }

  predicate IsArticle(p: FilePath) {
    |p| == 2 && p[0] == "modules" && EndsWith(p[1], ".md")
  }

  function TmpName(p: FilePath): (t: FilePath)
    ensures !IsMarkdown(t)
  {
    if p == [] then []
    else
      var name := p[|p| - 1] + ".tmp";
      assert name[|name| - 1] == 'p' && ".md"[2] == 'd';
      p[..|p| - 1] + [name]
  }

  /** First part of an article's stem when it has a dash. */
  function ShortModule(stem: string): Option<string> {
    if '-' in stem then Some(UpToDash(stem)) else None
  }

  function UpToDash(s: string): string {
    if s == "" || s[0] == '-' then "" else [s[0]] + UpToDash(s[1..])
  }

  function Header(project: string): string {
    "> Navigation: [[Projects/" + project + "/Home|Project home]] \U{B7} [[Projects/" + project + "/Modules|Modules]] \U{B7} [[Projects/"
    + project + "/Recent Changes|Recent changes]]\n\n"
  }

  /** An empty short name adds no line. */
  function Footer(project: string, short: Option<string>): string {
    "\n---\n\n## See also\n\n- [[Projects/" + project + "/Home|Project home]]\n- [[Projects/" + project + "/Wiki/INDEX|Wiki index]]\n"
    + if short.Some? && short.value != "" then
        "- [[Projects/" + project + "/Modules/" + short.value + "|Module stats: " + short.value + "]]\n"
      else ""
  }

  function Stem(name: string): string {
    if EndsWith(name, ".md") && |name| > 3 then name[..|name| - 3] else name
  }

  /** The vault's copy of a source page. */
  function Rendered(project: string, p: FilePath, text: string): string {
    if p == INDEX_PAGE then Header(project) + Convert(text)
    else Convert(text) + Footer(project, if IsArticle(p) then ShortModule(Stem(p[1])) else None)
  }

  ghost predicate IsListing(src: Source) {
    && (forall p :: p in src.listing <==> p in src.files && IsArticle(p))
    && (forall i, j :: 0 <= i < j < |src.listing| ==> src.listing[i] != src.listing[j])
  }

  /** One of the two single pages, if the source has it. */
  function IfPresent(src: Source, p: FilePath): seq<FilePath> {
    if p in src.files then [p] else []
  }

  /** The pages in the order in which the write pass tries them. */
  function Order(src: Source): seq<FilePath> {
    IfPresent(src, INDEX_PAGE) + IfPresent(src, ARCHITECTURE_PAGE) + src.listing
  }

  /** The first of these pages that cannot be decoded, or their number. */
  function FirstGarbled(src: Source, order: seq<FilePath>): (n: nat)
    ensures n <= |order| && forall i :: 0 <= i < n ==> !Garbles(src, order[i])
    ensures n < |order| ==> Garbles(src, order[n])
  {
    if order == [] || Garbles(src, order[0]) then 0 else 1 + FirstGarbled(src, order[1..])
  }

  predicate Garbles(src: Source, p: FilePath) {
    p in src.files && src.files[p].Garbled?
  }

  /** The write pass goes through all pages. */
  predicate Complete(src: Source) {
    FirstGarbled(src, Order(src)) == |Order(src)|
  }

  /** The pages the write pass deals with before it ends or breaks off. */
  function Tried(src: Source): seq<FilePath> {
    Order(src)[..FirstGarbled(src, Order(src))]
  }

  predicate IsSibling(src: Source, q: FilePath) {
    exists p :: p in Order(src) && q == TmpName(p)
  }

  predicate Writable(src: Source, faults: Faults, p: FilePath) {
    p in src.files && src.files[p].Text? && p !in faults.unwritable
  }

  /** A page of the vault holds the converted text of its source, the index at its end, the others at their beginning. */
  predicate IsCopy(p: FilePath, text: string, page: string) {
    var converted := Convert(text);
    |converted| <= |page| && if p == ["INDEX.md"] then page[|page| - |converted|..] == converted else page[..|converted|] == converted
  }

  lemma RenderedIsCopy(project: string, p: FilePath, text: string)
    ensures IsCopy(p, text, Rendered(project, p, text))
  {
    hide Convert, Header, Footer;
    if p == INDEX_PAGE {
      assert (Header(project) + Convert(text))[|Header(project)|..] == Convert(text);
    }
  }

  function PageOf(project: string, src: Source, p: FilePath): Option<string> {
    if p in src.files && src.files[p].Text? then Some(Rendered(project, p, src.files[p].text)) else None
  }

  /** The page is among those dealt with, and can be read and written. */
  predicate Publishable(src: Source, faults: Faults, p: FilePath) {
    p in Tried(src) && Writable(src, faults, p)
  }

  function PublishedOf(src: Source, faults: Faults, pages: seq<FilePath>): set<FilePath> {
    set p | p in pages && Writable(src, faults, p)
  }

  function Published(src: Source, faults: Faults): set<FilePath> {
    PublishedOf(src, faults, Tried(src))
  }

  /** The pages dealt with that cannot be read or written. */
  function Failed(src: Source, faults: Faults, pages: seq<FilePath>): set<FilePath> {
    set p | p in pages && !Writable(src, faults, p)
  }

  /** The pages the cleanup finds. */
  function Others(vault: map<FilePath, string>, kept: set<FilePath>): set<FilePath> {
    set p | p in vault && IsMarkdown(p) && p !in kept
  }

  function LookUp(files: map<FilePath, string>, p: FilePath): Option<string> {
    if p in files then Some(files[p]) else None
  }

  /** A markdown page of the vault after the mirror. */
  function PageAfter(project: string, src: Source, faults: Faults, p: FilePath, before: Option<string>): Option<string> {
    if Publishable(src, faults, p) then PageOf(project, src, p)
    else if !Complete(src) || p in faults.stuck then before
    else None
  }

  function LookUpExcept(files: map<FilePath, string>, removed: set<FilePath>, p: FilePath): Option<string> {
    if p in removed then None else LookUp(files, p)
  }

  /** The kept pages have their new text, and of the others only siblings may differ. */
  ghost predicate Holds(now: map<FilePath, string>, was: map<FilePath, string>, kept: set<FilePath>, project: string, src: Source) {
    && (forall q :: q in kept ==> LookUp(now, q) == PageOf(project, src, q))
    && (forall q :: q !in kept && !IsSibling(src, q) ==> LookUp(now, q) == LookUp(was, q))
  }

  /** Page p has changed to what is given, and only siblings have changed besides. */
  ghost predicate OnlyPage(now: map<FilePath, string>, was: map<FilePath, string>, src: Source, p: FilePath, page: Option<string>) {
    && LookUp(now, p) == page
    && (forall q :: q != p && !IsSibling(src, q) ==> LookUp(now, q) == LookUp(was, q))
  }

  class Vault {
    var files: map<FilePath, string>

    constructor (existing: map<FilePath, string>)
      ensures files == existing
    {
      files := existing;
    }

    /** Writes a sibling file and renames it; when that fails the sibling may stay. */
    method AtomicWrite(p: FilePath, content: string, fails: bool) returns (ok: bool)
      requires p != []
      modifies this
      ensures ok == !fails
      ensures forall q :: q != TmpName(p) && q != p ==> LookUp(files, q) == LookUp(old(files), q)
      ensures IsMarkdown(p) ==> LookUp(files, p) == if ok then Some(content) else LookUp(old(files), p)
    {
      hide IsMarkdown;
      if fails {
        files := files[TmpName(p) := content];
        return false;
      }
      files := (files - {TmpName(p)})[p := content];
      return true;
    }

    /** Reads, converts and writes one page. */
    method PublishPage(project: string, src: Source, faults: Faults, p: FilePath) returns (ok: bool)
      requires p in Order(src) && IsListing(src) && !Garbles(src, p)
      modifies this
      ensures ok == Writable(src, faults, p)
      ensures OnlyPage(files, old(files), src, p, if ok then PageOf(project, src, p) else LookUp(old(files), p))
    {
      hide Rendered, IsMarkdown, TmpName, LookUp;
      PageIsMarkdown(src, p);
      if src.files[p].Unreadable? {
        return false;
      }
      ok := AtomicWrite(p, Rendered(project, p, src.files[p].text), p in faults.unwritable);
    }

    /** The write pass; a page that cannot be decoded ends it at once. */
    method WritePages(project: string, src: Source, faults: Faults) returns (kept: set<FilePath>, errors: nat, complete: bool)
      requires IsListing(src)
      modifies this
      ensures kept == Published(src, faults) && errors == |Failed(src, faults, Tried(src))| && complete == Complete(src)
      ensures Holds(files, old(files), kept, project, src)
    {
      hide PageOf, IsMarkdown, IsArticle, TmpName, LookUp, IsSibling, Holds, OnlyPage, Order, IsListing, Writable, PublishedOf, Failed, FirstGarbled, Garbles;
      ghost var was := files;
      var order := Order(src);
      kept, errors := {}, 0;
      NothingTried(src, faults, order);
      HoldsAtFirst(files, project, src);
      for i := 0 to |order|
        invariant i <= FirstGarbled(src, order)
        invariant kept == PublishedOf(src, faults, order[..i]) && errors == |Failed(src, faults, order[..i])|
        invariant Holds(files, was, kept, project, src)
      {
        GarbledAt(src, order, i);
        if Garbles(src, order[i]) {
          return kept, errors, false;
        }
        ghost var before := files;
        OneMore(src, faults, i);
        var ok := PublishPage(project, src, faults, order[i]);
        HoldsAfter(files, before, was, kept, project, src, order[i], ok);
        if ok {
          kept := kept + {order[i]};
        } else {
          errors := errors + 1;
        }
      }
      complete := true;
    }

    /** Drift cleanup: removes the markdown pages that were not just written. */
    method CleanUp(kept: set<FilePath>, stuck: set<FilePath>) returns (deleted: nat, errors: nat)
      modifies this
      ensures forall q :: LookUp(files, q) == LookUpExcept(old(files), Others(old(files), kept) - stuck, q)
      ensures deleted == |Others(old(files), kept) - stuck| && errors == |Others(old(files), kept) * stuck|
    {
      hide Others, LookUp, Split;
      var stale := Others(files, kept);
      ghost var gone: set<FilePath>, failed: set<FilePath> := {}, {};
      deleted, errors := 0, 0;
      var todo := stale;
      SplitStart(stale);
      while todo != {}
        invariant Split(stale, todo, gone, failed)
        invariant gone !! stuck && failed <= stuck
        invariant deleted == |gone| && errors == |failed|
        invariant forall q :: LookUp(files, q) == LookUpExcept(old(files), gone, q)
        decreases todo
      {
        var p :| p in todo;
        MoveOne(stale, todo, gone, failed, p);
        todo := todo - {p};
        if p in stuck {
          errors, failed := errors + 1, failed + {p};
        } else {
          RemoveOne(files, p);
          files := files - {p};
          deleted, gone := deleted + 1, gone + {p};
        }
      }
      SplitDone(stale, gone, failed, stuck);
    }

    method MirrorWiki(project: string, src: Source, faults: Faults) returns (report: Report)
      requires IsListing(src)
      modifies this
      ensures report.complete <==> forall p :: p in Order(src) ==> !Garbles(src, p)
      ensures forall q :: IsMarkdown(q) ==>
        LookUp(files, q) == PageAfter(project, src, faults, q, LookUp(old(files), q))
      ensures forall q :: !IsMarkdown(q) && !IsSibling(src, q) ==>
        LookUp(files, q) == LookUp(old(files), q)
      ensures forall q :: q in Published(src, faults) ==>
        q in files && q in src.files && src.files[q].Text? && IsCopy(q, src.files[q].text, files[q])
      ensures report.written == |Published(src, faults)|
      ensures report.deleted ==
        if report.complete then |Others(old(files), Published(src, faults)) - faults.stuck| else 0
      ensures report.errors == |Failed(src, faults, Tried(src))|
        + if report.complete then |Others(old(files), Published(src, faults)) * faults.stuck| else 0
    {
      hide PageOf, IsMarkdown, TmpName, Order, Published, Failed, IsSibling, Publishable, LookUp, Others, Garbles, IsListing, FirstGarbled;
      var kept, unpublished, complete := WritePages(project, src, faults);
      CompleteIff(src);
      PublishedIff(src, faults);
      PublishedAreCopies(project, src, faults);
      Siblings(src);
      if !complete {
        return Report(|kept|, 0, unpublished, false);
      }
      SameOthers(old(files), files, kept);
      var deleted, undeleted := CleanUp(kept, faults.stuck);
      report := Report(|kept|, deleted, unpublished + undeleted, true);
      OthersIff(old(files), kept);
    }
  }

  /** A loop over a set: what is left of it, and the two parts it has been sorted into. */
  predicate Split(all: set<FilePath>, todo: set<FilePath>, a: set<FilePath>, b: set<FilePath>) {
    all == todo + a + b && todo !! a !! b
  }

  lemma MoveOne(all: set<FilePath>, todo: set<FilePath>, a: set<FilePath>, b: set<FilePath>, p: FilePath)
    requires Split(all, todo, a, b) && p in todo
    ensures p in all && p !in a && p !in b
    ensures Split(all, todo - {p}, a + {p}, b) && Split(all, todo - {p}, a, b + {p})
  {
  }

  lemma SplitStart(all: set<FilePath>)
    ensures Split(all, all, {}, {})
  {
  }

  lemma SplitDone(all: set<FilePath>, a: set<FilePath>, b: set<FilePath>, inB: set<FilePath>)
    requires Split(all, {}, a, b) || Split(all, {}, b, a)
    requires a !! inB && b <= inB
    ensures a == all - inB && b == all * inB
  {
  }

  lemma RemoveOne(files: map<FilePath, string>, p: FilePath)
    ensures forall q :: LookUp(files - {p}, q) == LookUpExcept(files, {p}, q)
  {
  }

  lemma Siblings(src: Source)
    requires IsListing(src)
    ensures forall q :: IsSibling(src, q) ==> !IsMarkdown(q)
    ensures forall q :: q in Order(src) ==> IsMarkdown(q) && !IsSibling(src, q)
  {
    forall q | q in Order(src)
      ensures IsMarkdown(q)
    {
      PageIsMarkdown(src, q);
    }
  }

  lemma OthersIff(vault: map<FilePath, string>, kept: set<FilePath>)
    ensures forall q :: q in Others(vault, kept) <==> LookUp(vault, q).Some? && IsMarkdown(q) && q !in kept
  {
  }

  lemma PagesAreNotSiblings(src: Source)
    requires IsListing(src)
    ensures forall q :: q in Order(src) ==> !IsSibling(src, q)
  {
    hide IsMarkdown, Order;
    Siblings(src);
  }

  lemma HoldsAtFirst(files: map<FilePath, string>, project: string, src: Source)
    ensures Holds(files, files, {}, project, src)
  {
  }

  lemma HoldsAfter(now: map<FilePath, string>, before: map<FilePath, string>, was: map<FilePath, string>, kept: set<FilePath>,
                   project: string, src: Source, p: FilePath, ok: bool)
    requires IsListing(src) && p in Order(src) && p !in kept && Holds(before, was, kept, project, src)
    requires forall q :: q in kept ==> q in Order(src)
    requires OnlyPage(now, before, src, p, if ok then PageOf(project, src, p) else LookUp(before, p))
    ensures Holds(now, was, if ok then kept + {p} else kept, project, src)
  {
    hide LookUp, PageOf, IsSibling, Order;
    PagesAreNotSiblings(src);
  }

  lemma SameOthers(a: map<FilePath, string>, b: map<FilePath, string>, kept: set<FilePath>)
    requires forall q :: IsMarkdown(q) && q !in kept ==> LookUp(a, q) == LookUp(b, q)
    ensures Others(a, kept) == Others(b, kept)
  {
    forall q | IsMarkdown(q) && q !in kept
      ensures q in a <==> q in b
    {
      assert LookUp(a, q) == LookUp(b, q);
    }
  }

  lemma PageIsMarkdown(src: Source, p: FilePath)
    requires IsListing(src) && p in Order(src)
    ensures p != [] && IsMarkdown(p) && p in src.files
  {
  }

  lemma OrderIsDistinct(src: Source)
    requires IsListing(src)
    ensures forall i, j :: 0 <= i < j < |Order(src)| ==> Order(src)[i] != Order(src)[j]
  {
  }

  lemma NothingTried(src: Source, faults: Faults, order: seq<FilePath>)
    ensures PublishedOf(src, faults, order[..0]) == {} && Failed(src, faults, order[..0]) == {}
  {
  }

  lemma GarbledAt(src: Source, order: seq<FilePath>, i: nat)
    requires i < |order| && i <= FirstGarbled(src, order)
    ensures Garbles(src, order[i]) <==> i == FirstGarbled(src, order)
  {
    hide FirstGarbled;
  }

  /** The next page goes to the published or to the failed ones. */
  lemma OneMore(src: Source, faults: Faults, i: nat)
    requires IsListing(src) && i < |Order(src)|
    ensures var order := Order(src);
            var kept, failed := PublishedOf(src, faults, order[..i]), Failed(src, faults, order[..i]);
            && order[i] !in kept && order[i] !in failed
            && (forall q :: q in kept ==> q in order)
            && PublishedOf(src, faults, order[..i + 1]) == (if Writable(src, faults, order[i]) then kept + {order[i]} else kept)
            && Failed(src, faults, order[..i + 1]) == (if Writable(src, faults, order[i]) then failed else failed + {order[i]})
  {
    OrderIsDistinct(src);
    hide Order, Writable;
    var order := Order(src);
    assert order[..i + 1] == order[..i] + [order[i]];
  }

  lemma CompleteIff(src: Source)
    ensures Complete(src) <==> forall p :: p in Order(src) ==> !Garbles(src, p)
  {
    hide Order, FirstGarbled, Garbles;
  }

  lemma PublishedIff(src: Source, faults: Faults)
    ensures forall p :: p in Published(src, faults) <==> Publishable(src, faults, p)
    ensures forall p :: Publishable(src, faults, p) ==> p in Order(src) && p in src.files && src.files[p].Text?
  {
    hide Order, FirstGarbled;
  }

  lemma PublishedAreCopies(project: string, src: Source, faults: Faults)
    requires IsListing(src)
    ensures forall q, files :: q in Published(src, faults) && LookUp(files, q) == PageOf(project, src, q) ==>
              && IsMarkdown(q) && q in files
              && q in src.files && src.files[q].Text? && IsCopy(q, src.files[q].text, files[q])
  {
    hide Rendered, Convert, Order, FirstGarbled, IsMarkdown, IsCopy;
    PublishedIff(src, faults);
    forall q, files: map<FilePath, string> | q in Published(src, faults) && LookUp(files, q) == PageOf(project, src, q)
      ensures IsMarkdown(q) && q in files && q in src.files && src.files[q].Text? && IsCopy(q, src.files[q].text, files[q])
    {
      PageIsMarkdown(src, q);
      RenderedIsCopy(project, q, src.files[q].text);
    }
  }

  /** A sequence of mirrors of successive states of the wiki, each with its own faults, seen at one page. */
  function PageAfterAll(project: string, runs: seq<(Source, Faults)>, p: FilePath, before: Option<string>): Option<string> {
    if runs == [] then before
    else
      var (src, faults) := runs[|runs| - 1];
      PageAfter(project, src, faults, p, PageAfterAll(project, runs[..|runs| - 1], p, before))
  }

  /** Position of the last mirror that could change the page, counted from one. */
  function LastEffective(runs: seq<(Source, Faults)>, p: FilePath): (n: nat)
    ensures n <= |runs|
  {
    if runs == [] then 0
    else
      var (src, faults) := runs[|runs| - 1];
      if Publishable(src, faults, p) || (Complete(src) && p !in faults.stuck) then |runs| else LastEffective(runs[..|runs| - 1], p)
  }

  /**
   * The vault depends on the last effective mirror only: it holds that source page, rendered, or no page. In
   * particular after a complete mirror without faults it is a function of the source tree, whatever it held before.
   */
  lemma {:induction false} VaultFollowsSource(project: string, runs: seq<(Source, Faults)>, p: FilePath, before: Option<string>)
    ensures var n, page := LastEffective(runs, p), PageAfterAll(project, runs, p, before);
            if n == 0 then page == before
            else if Publishable(runs[n - 1].0, runs[n - 1].1, p) then page == PageOf(project, runs[n - 1].0, p) && page.Some?
            else page.None?
  {
    hide Rendered, Order, FirstGarbled, Complete, IsArticle, Publishable;
    if runs != [] {
      var (src, faults) := runs[|runs| - 1];
      var init := runs[..|runs| - 1];
      VaultFollowsSource(project, init, p, before);
      PublishedIff(src, faults);
      assert forall i :: 0 <= i < |init| ==> init[i] == runs[i];
    }
  }

  /**
   * A copy that was there before a mirror is gone after it exactly if its page was not published, for whatever reason
   * (no longer in the source, unreadable, unwritable), could be removed, and all pages of the source could be decoded.
   */
  lemma CopyIsLostIff(project: string, src: Source, faults: Faults, p: FilePath, copy: string)
    ensures PageAfter(project, src, faults, p, Some(copy)).None? <==> !Publishable(src, faults, p) && p !in faults.stuck && Complete(src)
  {
    hide Rendered;
    PublishedIff(src, faults);
  }

  /** Over any sequence of mirrors a copy is there at the end exactly as the last effective mirror decides. */
  lemma CopyIsThereIff(project: string, runs: seq<(Source, Faults)>, p: FilePath, before: Option<string>)
    ensures var n := LastEffective(runs, p);
            PageAfterAll(project, runs, p, before).Some? <==>
              if n == 0 then before.Some? else Publishable(runs[n - 1].0, runs[n - 1].1, p)
  {
    hide Rendered, Order, FirstGarbled;
    VaultFollowsSource(project, runs, p, before);
  }

  /** A page that the source no longer has stays in the vault exactly as long as no mirror gets to remove it. */
  lemma {:induction false} StalePageStaysIff(project: string, runs: seq<(Source, Faults)>, p: FilePath, copy: string)
    requires forall i :: 0 <= i < |runs| ==> p !in Order(runs[i].0)
    ensures var page := PageAfterAll(project, runs, p, Some(copy));
            if forall i :: 0 <= i < |runs| ==> !Complete(runs[i].0) || p in runs[i].1.stuck then page == Some(copy) else page.None?
  {
    hide Rendered, Order, FirstGarbled;
    if runs != [] {
      var last, init := runs[|runs| - 1], runs[..|runs| - 1];
      assert p !in Order(last.0);
      assert forall i :: 0 <= i < |init| ==> init[i] == runs[i];
      StalePageStaysIff(project, init, p, copy);
      PublishedIff(last.0, last.1);
    }
  }

  /** The pages are the index, the architecture page and the articles, those directly in the module directory. */
  lemma PagesIff(src: Source, p: FilePath)
    requires IsListing(src)
    ensures p in Order(src) <==>
            p in src.files
            && (p == ["INDEX.md"] || p == ["architecture.md"] || exists name :: p == ["modules", name + ".md"])
  {
    if p in src.files && IsArticle(p) {
      var name := p[1];
      assert name == name[..|name| - 3] + ".md";
      assert p == ["modules", name[..|name| - 3] + ".md"];
    }
    if name :| p == ["modules", name + ".md"] {
      assert (name + ".md")[|name|..] == ".md";
    }
  }
}
