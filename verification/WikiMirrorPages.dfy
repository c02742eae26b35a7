/** The text of the vault's pages: the converted source page, and the navigation around it. */
module WikiMirrorPages {
  import opened Options
  import opened Text
  import opened Wikilinks
  import opened WikiMirror

  /** The navigation that every page but the index ends with. */
  function SeeAlso(project: string): string {
    "\n---\n\n## See also\n\n- [[Projects/" + project + "/Home|Project home]]\n- [[Projects/" + project + "/Wiki/INDEX|Wiki index]]\n"
  }

  /** The line that leads from an article to the page of its module. */
  function ModuleLine(project: string, short: string): string {
    "- [[Projects/" + project + "/Modules/" + short + "|Module stats: " + short + "]]\n"
  }

  /** The index page, after a mirror that published it. */
  lemma IndexPage(project: string, src: Source, faults: Faults, before: Option<string>)
    requires Publishable(src, faults, ["INDEX.md"])
    ensures PageAfter(project, src, faults, ["INDEX.md"], before) == Some(
              "> Navigation: [[Projects/" + project + "/Home|Project home]] \U{B7} [[Projects/" + project
              + "/Modules|Modules]] \U{B7} [[Projects/" + project + "/Recent Changes|Recent changes]]\n\n"
              + Convert(src.files[["INDEX.md"]].text))
  {
    hide Convert, Order;
  }

  lemma FooterText(project: string, short: Option<string>)
    ensures Footer(project, short)
         == SeeAlso(project) + if short.Some? && short.value != "" then ModuleLine(project, short.value) else ""
  {
  }

  /** A page other than the index is its converted text and the footer. */
  lemma OtherPage(project: string, src: Source, faults: Faults, p: FilePath, before: Option<string>)
    requires Publishable(src, faults, p) && p != ["INDEX.md"]
    ensures PageAfter(project, src, faults, p, before) ==
            Some(Convert(src.files[p].text) + Footer(project, if IsArticle(p) then ShortModule(Stem(p[1])) else None))
  {
    hide Convert, Order, Footer, IsArticle, Tried;
  }

  lemma StemOf(name: string)
    ensures name != "" ==> Stem(name + ".md") == name
    ensures Stem(".md") == ".md"
    ensures EndsWith(name + ".md", ".md")
  {
    assert (name + ".md")[|name|..] == ".md";
    assert (name + ".md")[..|name|] == name;
  }

  lemma {:induction false} BeforeDash(a: string, b: string)
    requires '-' !in a
    ensures UpToDash(a + ("-" + b)) == a
  {
    if a == "" {
      assert a + ("-" + b) == "-" + b;
    } else {
      assert (a + ("-" + b))[1..] == a[1..] + ("-" + b);
      BeforeDash(a[1..], b);
    }
  }

  /** The architecture page has no link to a module. */
  lemma ArchitecturePage(project: string, src: Source, faults: Faults, before: Option<string>)
    requires Publishable(src, faults, ["architecture.md"])
    ensures PageAfter(project, src, faults, ["architecture.md"], before)
         == Some(Convert(src.files[["architecture.md"]].text) + SeeAlso(project))
  {
    hide Convert, Order, Footer, Tried, SeeAlso, PageAfter;
    assert ["architecture.md"][0][0] != ["INDEX.md"][0][0];
    OtherPage(project, src, faults, ["architecture.md"], before);
    FooterText(project, None);
    assert SeeAlso(project) + "" == SeeAlso(project);
  }

  /** An article leads to the page of the part of its name before the first dash. */
  lemma ArticlePage(project: string, src: Source, faults: Faults, a: string, b: string, before: Option<string>)
    requires '-' !in a
    requires Publishable(src, faults, ["modules", a + ("-" + b) + ".md"])
    ensures PageAfter(project, src, faults, ["modules", a + ("-" + b) + ".md"], before)
         == Some(Convert(src.files[["modules", a + ("-" + b) + ".md"]].text)
                 + (SeeAlso(project) + if a == "" then "" else ModuleLine(project, a)))
  {
    hide Convert, Order, Footer, Tried, SeeAlso, ModuleLine, PageAfter, Stem, EndsWith, Publishable;
    var name := a + ("-" + b);
    OtherPage(project, src, faults, ["modules", name + ".md"], before);
    StemOf(name);
    BeforeDash(a, b);
    assert name[|a|] == '-';
    FooterText(project, Some(a));
  }

  /** An article whose name has no dash leads to none. */
  lemma PlainArticlePage(project: string, src: Source, faults: Faults, a: string, before: Option<string>)
    requires '-' !in a
    requires Publishable(src, faults, ["modules", a + ".md"])
    ensures PageAfter(project, src, faults, ["modules", a + ".md"], before)
         == Some(Convert(src.files[["modules", a + ".md"]].text) + SeeAlso(project))
  {
    hide Convert, Order, Footer, Tried, SeeAlso, PageAfter, Stem, EndsWith, Publishable;
    OtherPage(project, src, faults, ["modules", a + ".md"], before);
    StemOf(a);
    assert a == "" ==> a + ".md" == ".md";
    FooterText(project, None);
    assert SeeAlso(project) + "" == SeeAlso(project);
  }

  /** The cleanup looks at markdown files in any directory; the temporary sibling of a page is not one of them. */
  lemma MarkdownIff(p: FilePath)
    ensures IsMarkdown(p) <==> exists dir: FilePath, name: string :: p == dir + [name + ".md"]
  {
    if IsMarkdown(p) {
      var last := p[|p| - 1];
      assert last == last[..|last| - 3] + ".md";
      assert p == p[..|p| - 1] + [last[..|last| - 3] + ".md"];
    }
    if dir: FilePath, name: string :| p == dir + [name + ".md"] {
      assert p[|p| - 1] == name + ".md";
      assert (name + ".md")[|name|..] == ".md";
    }
  }

  lemma SiblingName(dir: FilePath, name: string)
    ensures TmpName(dir + [name]) == dir + [name + ".tmp"]
  {
  }
}
