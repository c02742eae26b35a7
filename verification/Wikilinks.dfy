/**
 * The markdown-to-wikilink converter (libs/obsidian/wikilinks.py). The link pattern is deterministic: the text
 * ends at the first closing bracket, the target at the first parenthesis or white space. A line is scanned from
 * the left; bang says whether the character before the scanned rest is an exclamation mark.
 */
module Wikilinks {
  import opened Options
  import opened Text

  /** Offsets of a link at the start of a text: "[" text "](" target ")". */
  datatype Link = Link(close: nat, end: nat)

  /** First position of a closing bracket, or the length. */
  function BracketEnd(s: string): (j: nat)
    ensures j <= |s| && (j < |s| ==> s[j] == ']') && forall i :: 0 <= i < j ==> s[i] != ']'
  {
    if s == "" || s[0] == ']' then 0 else 1 + BracketEnd(s[1..])
  }

  predicate EndsTarget(c: char) {
    c == ')' || IsSpace(c)
  }

  /** First position of a closing parenthesis or white space, or the length. */
  function TargetEnd(s: string): (k: nat)
    ensures k <= |s| && (k < |s| ==> EndsTarget(s[k])) && forall i :: 0 <= i < k ==> !EndsTarget(s[i])
  {
    if s == "" || EndsTarget(s[0]) then 0 else 1 + TargetEnd(s[1..])
  }

  /** What follows "](" is a target: some characters, then a closing parenthesis. */
  predicate HasTarget(s: string, started: bool) {
    TargetEnd(s) < |s| && s[TargetEnd(s)] == ')' && (started || TargetEnd(s) > 0)
  }

  /** What follows "[" completes a link; started tells that some text has been seen already. */
  predicate HasLink(s: string, started: bool) {
    var j := BracketEnd(s);
    (started || j > 0) && j + 1 < |s| && s[j + 1] == '(' && HasTarget(s[j + 2..], false)
  }

  /** The link pattern, tried at the start of s. */
  function Match(bang: bool, s: string): (m: Option<Link>)
    ensures m.Some? ==> 1 < m.value.close < m.value.end < |s| && m.value.end > m.value.close + 2
  {
    if s != "" && s[0] == '[' && !bang && HasLink(s[1..], false) then
      var j := 1 + BracketEnd(s[1..]);
      Some(Link(j, j + 2 + TargetEnd(s[j + 2..])))
    else None
  }

  function LinkText(s: string, m: Link): string
    requires 1 <= m.close <= |s|
  {
    s[1..m.close]
  }

  function LinkTarget(s: string, m: Link): string
    requires m.close + 2 <= m.end <= |s|
  {
    s[m.close + 2..m.end]
  }

  /* ----- targets ----- */

  /** Case folding as re.IGNORECASE sees the letters of the external-target pattern. */
  function Fold(c: char): char {
    if 'A' <= c <= 'Z' then c - 'A' + 'a'
    else if c == '\U{130}' || c == '\U{131}' then 'i'
    else if c == '\U{17F}' then 's'
    else if c == '\U{212A}' then 'k'
    else c
  }

  function FoldAll(s: string): string {
    seq(|s|, i requires 0 <= i < |s| => Fold(s[i]))
  }

  predicate IsSchemeChar(c: char) {
    'a' <= Fold(c) <= 'z' || '0' <= c <= '9' || c == '+' || c == '.' || c == '-'
  }

  /** Scheme characters, then "://". */
  predicate SchemeRest(s: string) {
    s != "" && if IsSchemeChar(s[0]) then SchemeRest(s[1..]) else "://" <= s
  }

  /** Absolute URLs, mailto:, tel: and in-page anchors. */
  predicate IsExternal(target: string) {
    || (target != "" && 'a' <= Fold(target[0]) <= 'z' && SchemeRest(target[1..]))
    || "mailto:" <= FoldAll(target)
    || "tel:" <= FoldAll(target)
    || "#" <= target
  }

  /** Drops a trailing ".md" in any case. */
  function StripMdExtension(path: string): string {
    var n := |path|;
    if n >= 3 && path[n - 3] == '.' && path[n - 2] in {'m', 'M'} && path[n - 1] in {'d', 'D'} then path[..n - 3] else path
  }

  /** First position of '#', or the length. */
  function HashAt(s: string): (h: nat)
    ensures h <= |s|
  {
    if s == "" || s[0] == '#' then 0 else 1 + HashAt(s[1..])
  }

  function WikiTarget(target: string): string {
    var h := HashAt(target);
    StripMdExtension(target[..h]) + target[h..]
  }

  /** The replacement for one link. */
  function Rewrite(s: string, m: Link): string
    requires 1 < m.close < m.end < |s| && m.end > m.close + 2
  {
    if IsExternal(LinkTarget(s, m)) then s[..m.end + 1]
    else "[[" + WikiTarget(LinkTarget(s, m)) + "|" + LinkText(s, m) + "]]"
  }

  /** Leftmost, non-overlapping substitution. */
  function Substitute(bang: bool, s: string): string
    decreases |s|
  {
    if s == "" then ""
    else
      match Match(bang, s)
      case Some(m) => Rewrite(s, m) + Substitute(false, s[m.end + 1..])
      case None => [s[0]] + Substitute(s[0] == '!', s[1..])
  }

  function ConvertLine(line: string): string {
    Substitute(false, line)
  }

  /* ----- documents ----- */

  /** White space, then three backticks or three tildes. */
  predicate IsFence(line: string) {
    line != "" && if IsSpace(line[0]) then IsFence(line[1..]) else "```" <= line || "~~~" <= line
  }

  /** Whether line i starts inside a fence. */
  function InFence(lines: seq<string>, i: nat): bool
    requires i <= |lines|
  {
    if i == 0 then false else InFence(lines, i - 1) != IsFence(lines[i - 1])
  }

  function ConvertAt(lines: seq<string>, i: nat): string
    requires i < |lines|
  {
    if IsFence(lines[i]) || InFence(lines, i) then lines[i] else ConvertLine(lines[i])
  }

  function ConvertLines(lines: seq<string>): (out: seq<string>)
    ensures |out| == |lines|
  {
    seq(|lines|, i requires 0 <= i < |lines| => ConvertAt(lines, i))
  }

  function Convert(content: string): string {
    Join(ConvertLines(SplitLines(content)))
  }

  lemma NothingToConvert()
    ensures Convert("") == ""
  {
  }

  method ConvertMdLinksToWikilinks(content: string) returns (r: string)
    ensures r == Convert(content)
  {
    hide IsFence, ConvertLine, SplitLines;
    NothingToConvert();
    if content == "" {
      return content;
    }
    var lines := SplitLines(content);
    var out: seq<string>, inFence := [], false;
    for i := 0 to |lines|
      invariant |out| == i && inFence == InFence(lines, i)
      invariant forall k :: 0 <= k < i ==> out[k] == ConvertAt(lines, k)
    {
      if IsFence(lines[i]) {
        inFence := !inFence;
        out := out + [lines[i]];
        continue;
      }
      if inFence {
        out := out + [lines[i]];
        continue;
      }
      out := out + [ConvertLine(lines[i])];
    }
    assert out == ConvertLines(lines);
    r := Join(out);
  }
}
