/** Which links are rewritten and to what: targets by their spelling, in any surrounding text. */
module WikilinksTargets {
  import opened Options
  import opened Text
  import opened Lines
  import opened Wikilinks
  import opened WikilinksProperties
  import opened WikilinksDocuments
  import opened WikilinksImages

  /* ----- the extension ----- */

  const SPELLINGS := [".md", ".mD", ".Md", ".MD"]

  lemma {:induction false} HashAfter(path: string, rest: string)
    requires forall i :: 0 <= i < |path| ==> path[i] != '#'
    requires rest == "" || rest[0] == '#'
    ensures HashAt(path + rest) == |path|
  {
    if path == "" {
      assert path + rest == rest;
    } else {
      assert (path + rest)[1..] == path[1..] + rest;
      HashAfter(path[1..], rest);
    }
  }

  lemma StripsExactly(path: string)
    ensures StripMdExtension(path) == if |path| >= 3 && path[|path| - 3..] in SPELLINGS then path[..|path| - 3] else path
  {
    if |path| >= 3 {
      var x := path[|path| - 3..];
      assert x == [x[0], x[1], x[2]];
    }
  }

  /** The extension goes, in any spelling, in front of a fragment or at the end. */
  lemma ExtensionIsDropped(path: string, extension: string, fragment: string)
    requires extension in SPELLINGS && forall i :: 0 <= i < |path| ==> path[i] != '#'
    ensures WikiTarget(path + extension) == path
    ensures WikiTarget(path + extension + "#" + fragment) == path + "#" + fragment
  {
    hide StripMdExtension, HashAt;
    var name := path + extension;
    assert forall i :: 0 <= i < |name| ==> name[i] != '#';
    assert name[..|name|] == name && name[|name| - 3..] == extension && name[..|name| - 3] == path;
    StripsExactly(name);
    HashAfter(name, "");
    assert name + "" == name;
    var rest := "#" + fragment;
    HashAfter(name, rest);
    assert name + "#" + fragment == name + rest;
    assert (name + rest)[..|name|] == name && (name + rest)[|name|..] == rest;
  }

  /** A target without the extension in front of its fragment stays. */
  lemma OtherTargetsStay(path: string, fragment: string)
    requires forall i :: 0 <= i < |path| ==> path[i] != '#'
    requires |path| >= 3 ==> path[|path| - 3..] !in SPELLINGS
    ensures WikiTarget(path) == path && WikiTarget(path + "#" + fragment) == path + "#" + fragment
  {
    hide StripMdExtension, HashAt;
    StripsExactly(path);
    HashAfter(path, "");
    assert path + "" == path && path[..|path|] == path;
    var rest := "#" + fragment;
    HashAfter(path, rest);
    assert path + "#" + fragment == path + rest;
    assert (path + rest)[..|path|] == path && (path + rest)[|path|..] == rest;
  }

  /* ----- external targets ----- */

  /** Letters as the pattern sees them: those of the alphabet, and the four characters that fold to one. */
  predicate IsLetter(c: char) {
    'a' <= c <= 'z' || 'A' <= c <= 'Z' || c in "\U{130}\U{131}\U{17F}\U{212A}"
  }

  /** How far the characters of a scheme go. */
  function SchemeEnd(s: string): (n: nat)
    ensures n <= |s|
    ensures forall i :: 0 <= i < n ==> IsLetter(s[i]) || '0' <= s[i] <= '9' || s[i] in "+.-"
    ensures n < |s| ==> !(IsLetter(s[n]) || '0' <= s[n] <= '9' || s[n] in "+.-")
  {
    if s == "" || !IsSchemeChar(s[0]) then 0 else 1 + SchemeEnd(s[1..])
  }

  lemma {:induction false} SchemeRestIff(s: string)
    ensures SchemeRest(s) <==> "://" <= s[SchemeEnd(s)..]
  {
    if s != "" && IsSchemeChar(s[0]) {
      SchemeRestIff(s[1..]);
      assert s[1..][SchemeEnd(s[1..])..] == s[SchemeEnd(s)..];
    } else {
      assert s[0..] == s;
    }
  }

  /** s starts with a word of letters, in any case. */
  predicate StartsWith(s: string, word: string) {
    |s| >= |word| && forall i :: 0 <= i < |word| ==> Fold(s[i]) == word[i]
  }

  /** External are: a scheme that begins with a letter, followed by "://"; "mailto:" and "tel:" in any case; "#". */
  lemma ExternalIff(target: string)
    ensures IsExternal(target) <==>
            || (target != "" && IsLetter(target[0]) && "://" <= target[SchemeEnd(target)..])
            || StartsWith(target, "mailto:") || StartsWith(target, "tel:") || (target != "" && target[0] == '#')
  {
    hide SchemeRest, SchemeEnd, FoldAll, StartsWith;
    FoldedPrefix(target, "mailto:");
    FoldedPrefix(target, "tel:");
    SchemeIff(target);
    assert "#" <= target <==> target != "" && target[0] == '#';
  }

  lemma SchemeIff(target: string)
    ensures target != "" && 'a' <= Fold(target[0]) <= 'z' && SchemeRest(target[1..]) <==>
            target != "" && IsLetter(target[0]) && "://" <= target[SchemeEnd(target)..]
  {
    hide Fold, IsLetter, SchemeRest, SchemeEnd;
    if target != "" {
      SchemeRestIff(target[1..]);
      LetterIff(target[0]);
      if IsLetter(target[0]) {
        AfterLetter(target);
      }
    }
  }

  lemma LetterIff(c: char)
    ensures 'a' <= Fold(c) <= 'z' <==> IsLetter(c)
  {
  }

  lemma AfterLetter(s: string)
    requires s != "" && IsLetter(s[0])
    ensures s[1..][SchemeEnd(s[1..])..] == s[SchemeEnd(s)..]
  {
    LetterIff(s[0]);
    hide Fold, IsLetter;
  }

  lemma FoldedPrefix(s: string, word: string)
    ensures word <= FoldAll(s) <==> StartsWith(s, word)
  {
    if StartsWith(s, word) {
      assert FoldAll(s)[..|word|] == word;
    }
  }

  /* ----- links in text ----- */

  function LinkOf(text: string, target: string): string {
    "[" + text + "](" + target + ")"
  }

  /** "[" text "](" target ")" is a link: there is a text, up to its bracket, and a target without space. */
  predicate IsLink(text: string, target: string) {
    && text != "" && target != ""
    && (forall i :: 0 <= i < |text| ==> text[i] != ']')
    && (forall i :: 0 <= i < |target| ==> !IsSpace(target[i]) && target[i] != ')')
  }

  /** A link is found at the beginning of a text exactly if it reads like one and no exclamation mark comes before it. */
  lemma MatchIff(bang: bool, s: string)
    ensures Match(bang, s).Some? <==>
            !bang && exists text, target, rest: string :: IsLink(text, target) && s == LinkOf(text, target) + rest
  {
    if Match(bang, s).Some? {
      var m := Match(bang, s).value;
      MatchFacts(bang, s, m);
      LinkReads(s, m);
    }
    if text, target, rest: string :| IsLink(text, target) && s == LinkOf(text, target) + rest {
      hide Match;
      assert s == "[" + text + "](" + target + ")" + rest;
      LinkParts(s, text, target, rest);
      SameMatch(bang, s);
    }
  }

  lemma SameMatch(bang: bool, s: string)
    ensures !bang ==> Match(bang, s) == Match(false, s)
    ensures bang ==> Match(bang, s).None?
  {
  }

  lemma LinkReads(s: string, m: Link)
    requires 1 < m.close < m.end < |s| && m.end > m.close + 2
    requires s[0] == '[' && s[m.close] == ']' && s[m.close + 1] == '(' && s[m.end] == ')'
    requires forall i :: 1 <= i < m.close ==> s[i] != ']'
    requires forall i :: m.close + 2 <= i < m.end ==> !EndsTarget(s[i])
    ensures IsLink(LinkText(s, m), LinkTarget(s, m))
    ensures s == LinkOf(LinkText(s, m), LinkTarget(s, m)) + s[m.end + 1..]
  {
    hide IsSpace;
    var text, target := LinkText(s, m), LinkTarget(s, m);
    assert forall i :: 0 <= i < |text| ==> text[i] == s[i + 1];
    assert forall i :: 0 <= i < |target| ==> target[i] == s[i + m.close + 2];
    FivePieces(s, m.close, m.end);
  }

  lemma FivePieces(s: string, c: nat, e: nat)
    requires 1 <= c && c + 2 <= e < |s| && s[0] == '[' && s[c] == ']' && s[c + 1] == '(' && s[e] == ')'
    ensures s == "[" + s[1..c] + "](" + s[c + 2..e] + ")" + s[e + 1..]
  {
    assert s[..c] == "[" + s[1..c];
    assert s[..c + 2] == s[..c] + "](";
    assert s[..e] == s[..c + 2] + s[c + 2..e];
    assert s[..e + 1] == s[..e] + ")";
    assert s == s[..e + 1] + s[e + 1..];
  }

  lemma LinkSlices(text: string, target: string, rest: string)
    ensures var line, c, e := LinkOf(text, target) + rest, 1 + |text|, 3 + |text| + |target|;
            && line[1..c] == text && line[c + 2..e] == target && line[e + 1..] == rest && line[..e + 1] == LinkOf(text, target)
  {
  }

  /** In settled text that does not end with an exclamation mark a link is rewritten by itself. */
  lemma LinkIsRewritten(pre: string, text: string, target: string, rest: string)
    requires Settled(false, pre) && (pre != "" ==> pre[|pre| - 1] != '!')
    requires IsLink(text, target)
    ensures ConvertLine(pre + (LinkOf(text, target) + rest))
         == ConvertLine(pre)
            + ((if IsExternal(target) then LinkOf(text, target) else "[[" + WikiTarget(target) + "|" + text + "]]")
               + ConvertLine(rest))
  {
    hide Substitute, Settled, IsExternal, WikiTarget, LinkOf, IsLink;
    SubstituteSettled(false, pre, LinkOf(text, target) + rest);
    FirstLink(text, target, rest);
  }

  lemma FirstLink(text: string, target: string, rest: string)
    requires IsLink(text, target)
    ensures Substitute(false, LinkOf(text, target) + rest)
         == (if IsExternal(target) then LinkOf(text, target) else "[[" + WikiTarget(target) + "|" + text + "]]")
            + Substitute(false, rest)
  {
    hide Substitute, Match, IsExternal, WikiTarget;
    var line := LinkOf(text, target) + rest;
    assert line == "[" + text + "](" + target + ")" + rest;
    LinkParts(line, text, target, rest);
    LinkSlices(text, target, rest);
    SubstituteLink(false, line, Link(1 + |text|, 3 + |text| + |target|));
  }

  /** A link to a page, with or without extension and fragment, becomes a wikilink to it. */
  lemma PageLinkIsRewritten(pre: string, text: string, path: string, extension: string, fragment: string, rest: string)
    requires Settled(false, pre) && (pre != "" ==> pre[|pre| - 1] != '!')
    requires extension in SPELLINGS + [""] && (fragment == "" || fragment[0] == '#')
    requires forall i :: 0 <= i < |path| ==> path[i] != '#'
    requires extension == "" && |path| >= 3 ==> path[|path| - 3..] !in SPELLINGS
    requires IsLink(text, path + extension + fragment) && !IsExternal(path + extension + fragment)
    ensures ConvertLine(pre + (LinkOf(text, path + extension + fragment) + rest))
         == ConvertLine(pre) + (("[[" + (path + fragment) + "|" + text + "]]") + ConvertLine(rest))
  {
    hide ConvertLine, IsExternal, WikiTarget, Settled, IsLink, LinkOf;
    LinkIsRewritten(pre, text, path + extension + fragment, rest);
    PageTarget(path, extension, fragment);
  }

  lemma PageTarget(path: string, extension: string, fragment: string)
    requires extension in SPELLINGS + [""] && (fragment == "" || fragment[0] == '#')
    requires forall i :: 0 <= i < |path| ==> path[i] != '#'
    requires extension == "" && |path| >= 3 ==> path[|path| - 3..] !in SPELLINGS
    ensures WikiTarget(path + extension + fragment) == path + fragment
  {
    hide WikiTarget;
    var after := if fragment == "" then "" else fragment[1..];
    if extension == "" {
      OtherTargetsStay(path, after);
      assert path + extension == path;
    } else {
      ExtensionIsDropped(path, extension, after);
    }
    if fragment == "" {
      assert path + extension + fragment == path + extension && path + fragment == path;
    } else {
      assert fragment == "#" + after;
      assert path + extension + fragment == path + extension + "#" + after;
      assert path + fragment == path + "#" + after;
    }
  }

  /* ----- fences ----- */

  /** How far the white space at the beginning of a line goes. */
  function Indent(line: string): (n: nat)
    ensures n <= |line| && (forall i :: 0 <= i < n ==> IsSpace(line[i])) && (n < |line| ==> !IsSpace(line[n]))
  {
    if line == "" || !IsSpace(line[0]) then 0 else 1 + Indent(line[1..])
  }

  /** A fence marker: white space, then three backticks or three tildes. */
  lemma {:induction false} FenceIff(line: string)
    ensures IsFence(line) <==> var body := line[Indent(line)..]; "```" <= body || "~~~" <= body
  {
    if line != "" && IsSpace(line[0]) {
      FenceIff(line[1..]);
      assert line[1..][Indent(line[1..])..] == line[Indent(line)..];
    } else {
      assert line[0..] == line;
    }
  }

  /** The fence markers among the first i lines. */
  function Markers(lines: seq<string>, i: nat): set<nat>
    requires i <= |lines|
  {
    set k: nat | k < i && IsFence(lines[k])
  }

  /** A line is inside a fence exactly if the number of markers before it is odd. */
  lemma {:induction false} InFenceIff(lines: seq<string>, i: nat)
    requires i <= |lines|
    ensures InFence(lines, i) <==> |Markers(lines, i)| % 2 == 1
  {
    hide IsFence, Markers;
    if i == 0 {
      NoMarkers(lines);
    } else {
      InFenceIff(lines, i - 1);
      OneMoreLine(lines, i);
    }
  }

  lemma NoMarkers(lines: seq<string>)
    ensures Markers(lines, 0) == {}
  {
  }

  lemma OneMoreLine(lines: seq<string>, i: nat)
    requires 0 < i <= |lines|
    ensures |Markers(lines, i)| == |Markers(lines, i - 1)| + if IsFence(lines[i - 1]) then 1 else 0
  {
    hide IsFence;
    var before := Markers(lines, i - 1);
    assert Markers(lines, i) == if IsFence(lines[i - 1]) then before + {i - 1} else before;
  }

  /** The converted document, line by line: markers and what is inside fences stay, other lines are converted. */
  lemma DocumentLines(content: string)
    ensures var lines, out := SplitLines(content), SplitLines(Convert(content));
            && |out| == |lines|
            && forall i :: 0 <= i < |lines| ==>
                 out[i] == if IsFence(lines[i]) || |Markers(lines, i)| % 2 == 1 then lines[i]
                           else ConvertLine(lines[i])
  {
    hide IsFence, ConvertLine, SplitLines, Convert, InFence, Markers;
    ConvertKeepsStructure(content);
    forall i | 0 <= i < |SplitLines(content)|
      ensures InFence(SplitLines(content), i) <==> |Markers(SplitLines(content), i)| % 2 == 1
    {
      InFenceIff(SplitLines(content), i);
    }
  }
}
