/**
 * The managed section of CLAUDE.md: written by install (libs/mcp_ops/install.py), removed by uninstall
 * (libs/mcp_ops/uninstall.py). The section is found by the first occurrence of its markers.
 */
module ManagedSection {
  import opened Options
  import opened Text

  const START := "<!-- LV_DCP-managed-section:start:v1 -->"
  const END := "<!-- LV_DCP-managed-section:end:v1 -->"

  /** The line that carries the version number, before and after it. */
  const VERSION_LINE := "<!-- lvdcp-managed-version: "
  const COMMENT_CLOSE := " -->"

  /** First occurrence of t in s from position i on. */
  function IndexFrom(s: string, t: string, i: nat): (r: Option<nat>)
    ensures r.Some? ==> i <= r.value && OccursAt(s, t, r.value) && forall k :: i <= k < r.value ==> !OccursAt(s, t, k)
    ensures r.None? ==> forall k :: i <= k ==> !OccursAt(s, t, k)
    decreases |s| + 1 - i
  {
    if OccursAt(s, t, i) then Some(i)
    else if i >= |s| then None
    else IndexFrom(s, t, i + 1)
  }

  /** The block without its end marker; guide is the text after the version line. */
  function Opening(version: string, guide: string): string {
    START + "\n" + (VERSION_LINE + (version + COMMENT_CLOSE)) + "\n" + guide
  }

  function Block(version: string, guide: string): string {
    Opening(version, guide) + END
  }

  /** End of the section that starts at start: behind its end marker, or the end of the text when that is missing. */
  function SectionEnd(s: string, start: nat): (end: nat)
    ensures start <= |s| ==> start <= end <= |s|
  {
    match IndexFrom(s, END, start)
    case Some(e) => e + |END|
    case None => |s|
  }

  /** Content with the section of the given version. */
  function Written(content: string, version: string, guide: string): string {
    match IndexFrom(content, START, 0)
    case Some(start) =>
      content[..start] + Block(version, guide) + content[SectionEnd(content, start)..]
    case None =>
      content + (if content != "" && content[|content| - 1] != '\n' then "\n" else "") + "\n" + Block(version, guide) + "\n"
  }

  function TrimRight(s: string): string {
    if s != "" && s[|s| - 1] == '\n' then TrimRight(s[..|s| - 1]) else s
  }

  function TrimLeft(s: string): string {
    if s != "" && s[0] == '\n' then TrimLeft(s[1..]) else s
  }

  /** Content without the section; a text that is blank then is emptied. */
  function Stripped(content: string): string {
    match IndexFrom(content, START, 0)
    case Some(start) =>
      var rest := TrimRight(content[..start]) + "\n" + TrimLeft(content[SectionEnd(content, start)..]);
      if Blank(rest) then "" else rest
    case None => content
  }

  lemma TrimLeftStep(text: string, end: nat)
    requires end < |text| && text[end] == '\n'
    ensures TrimLeft(text[end..]) == TrimLeft(text[end + 1..])
  {
    assert text[end..][1..] == text[end + 1..];
  }

  lemma TrimRightStep(text: string, start: nat)
    requires 0 < start <= |text| && text[start - 1] == '\n'
    ensures TrimRight(text[..start]) == TrimRight(text[..start - 1])
  {
    assert text[..start][..start - 1] == text[..start - 1];
  }

  lemma NothingToTrim(s: string)
    ensures s == "" || s[0] != '\n' ==> TrimLeft(s) == s
  {
  }

  /* ----- the two commands on the file ----- */

  class ClaudeMd {
    var content: Option<string>

    method WriteManagedSection(version: string, guide: string)
      modifies this
      ensures content == Some(Written(if old(content).Some? then old(content).value else "", version, guide))
    {
      var text := if content.Some? then content.value else "";
      var newBlock := Block(version, guide);
      var at := IndexFrom(text, START, 0);
      var newContent;
      if at.Some? {
        var start := at.value;
        var close := IndexFrom(text, END, start);
        var end := |text|;
        if close.Some? {
          end := close.value + |END|;
        }
        newContent := text[..start] + newBlock + text[end..];
      } else {
        if text != "" && text[|text| - 1] != '\n' {
          newContent := text + "\n" + "\n" + newBlock + "\n";
        } else {
          assert text + "" == text;
          newContent := text + "\n" + newBlock + "\n";
        }
      }
      content := Some(newContent);
    }

    method StripManagedSection()
      modifies this
      ensures content == if old(content).Some? then Some(Stripped(old(content).value)) else None
    {
      hide IndexFrom, Blank, START, END, TrimLeft, TrimRight;
      if content.None? {
        return;
      }
      var text := content.value;
      var at := IndexFrom(text, START, 0);
      if at.None? {
        return;
      }
      var start := at.value;
      var close := IndexFrom(text, END, start);
      var end := if close.Some? then close.value + |END| else |text|;
      ghost var start0, end0 := start, end;
      while end < |text| && text[end] == '\n'
        invariant end0 <= end <= |text|
        invariant TrimLeft(text[end..]) == TrimLeft(text[end0..])
      {
        TrimLeftStep(text, end);
        end := end + 1;
      }
      while start > 0 && text[start - 1] == '\n'
        invariant 0 <= start <= start0
        invariant TrimRight(text[..start]) == TrimRight(text[..start0])
      {
        TrimRightStep(text, start);
        start := start - 1;
      }
      NothingToTrim(text[end..]);
      var newContent := TrimRight(text[..start]) + "\n" + text[end..];
      if Blank(newContent) {
        newContent := "";
      }
      content := Some(newContent);
    }
  }
}
