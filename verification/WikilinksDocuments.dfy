/** The converter on whole documents: lines, fences, idempotence, what is left alone. */
module WikilinksDocuments {
  import opened Options
  import opened Text
  import opened Lines
  import opened Wikilinks
  import opened WikilinksProperties
  import opened WikilinksChanges

  /* ----- line endings take no part in links ----- */

  lemma TerminatorCharacters(t: string)
    requires IsTerminator(t)
    ensures forall i :: 0 <= i < |t| ==> IsSpace(t[i]) && t[i] != '[' && t[i] != ']' && t[i] != '(' && t[i] != ')' && t[i] != '!'
  {
  }

  lemma TargetBeforeTerminator(s: string, t: string, started: bool)
    requires IsTerminator(t)
    ensures HasTarget(s + t, started) <==> HasTarget(s, started)
    ensures TargetEnd(s) < |s| ==> TargetEnd(s + t) == TargetEnd(s)
  {
    TerminatorCharacters(t);
    hide IsSpace, TargetEnd;
    var k := TargetEnd(s);
    assert forall i :: 0 <= i < |s| ==> (s + t)[i] == s[i];
    if k < |s| {
      TargetEndIs(s + t, k);
    } else if t != "" {
      assert (s + t)[|s|] == t[0];
      TargetEndIs(s + t, |s|);
    } else {
      assert s + t == s;
    }
  }

  lemma LinkAfterBracket(s: string, t: string, j: nat)
    requires IsTerminator(t) && j + 1 < |s| && j == BracketEnd(s) == BracketEnd(s + t)
    ensures HasTarget((s + t)[j + 2..], false) <==> HasTarget(s[j + 2..], false)
    ensures (s + t)[j + 1] == s[j + 1]
  {
    hide HasTarget, BracketEnd;
    TargetBeforeTerminator(s[j + 2..], t, false);
    assert (s + t)[j + 2..] == s[j + 2..] + t;
  }

  lemma LinkBeforeTerminator(s: string, t: string, started: bool)
    requires IsTerminator(t)
    ensures HasLink(s + t, started) <==> HasLink(s, started)
    ensures BracketEnd(s) < |s| ==> BracketEnd(s + t) == BracketEnd(s)
  {
    TerminatorCharacters(t);
    hide IsSpace, BracketEnd, HasTarget, IsTerminator;
    var j, u := BracketEnd(s), s + t;
    if j + 1 < |s| {
      BracketEndIs(u, j);
      LinkAfterBracket(s, t, j);
    } else if j < |s| {
      BracketEndIs(u, j);
      assert |t| > 0 ==> u[j + 1] == t[0];
    } else {
      NoBracket(s, t);
    }
  }

  lemma NoBracket(s: string, t: string)
    requires BracketEnd(s) == |s| && forall i :: 0 <= i < |t| ==> t[i] != ']'
    ensures BracketEnd(s + t) == |s + t|
  {
    hide BracketEnd;
    assert forall i :: 0 <= i < |s + t| ==> (s + t)[i] == if i < |s| then s[i] else t[i - |s|];
  }

  lemma MatchBeforeTerminator(bang: bool, s: string, t: string)
    requires IsTerminator(t) && s != ""
    ensures Match(bang, s + t) == Match(bang, s)
  {
    hide HasLink, BracketEnd, TargetEnd, IsSpace;
    assert (s + t)[1..] == s[1..] + t;
    LinkBeforeTerminator(s[1..], t, false);
    if Match(bang, s).Some? {
      var m := Match(bang, s).value;
      var u := s[m.close + 2..];
      MatchFacts(bang, s, m);
      TargetBeforeTerminator(u, t, false);
      assert (s + t)[m.close + 2..] == u + t;
      assert u[m.end - m.close - 2] == s[m.end];
    }
  }

  /** The substitution passes over a line terminator. */
  lemma {:induction false} SubstituteBeforeTerminator(bang: bool, s: string, t: string)
    requires IsTerminator(t)
    ensures Substitute(bang, s + t) == Substitute(bang, s) + t
    decreases |s|
  {
    hide Substitute, IsExternal, WikiTarget, Match;
    if s == "" {
      assert s + t == t;
      NothingHasNoLink(bang, false);
      SubstituteTerminator(bang, t);
    } else {
      MatchBeforeTerminator(bang, s, t);
      if Match(bang, s).Some? {
        var m := Match(bang, s).value;
        SubstituteLink(bang, s, m);
        SubstituteLink(bang, s + t, m);
        SubstituteBeforeTerminator(false, s[m.end + 1..], t);
        assert (s + t)[m.end + 1..] == s[m.end + 1..] + t;
        assert (s + t)[..m.end + 1] == s[..m.end + 1];
        assert LinkTarget(s + t, m) == LinkTarget(s, m) && LinkText(s + t, m) == LinkText(s, m);
      } else {
        SubstituteCharacter(bang, s);
        SubstituteCharacter(bang, s + t);
        SubstituteBeforeTerminator(s[0] == '!', s[1..], t);
        assert (s + t)[1..] == s[1..] + t;
      }
    }
  }

  lemma {:induction false} SubstituteTerminator(bang: bool, t: string)
    requires forall i :: 0 <= i < |t| ==> t[i] != '['
    ensures Substitute(bang, t) == t
    decreases |t|
  {
    if t != "" {
      SubstituteTerminator(t[0] == '!', t[1..]);
    }
  }

  /** No line break is introduced. */
  lemma {:induction false} SubstituteKeepsNoBreaks(bang: bool, s: string)
    requires NoBreaks(s)
    ensures NoBreaks(Substitute(bang, s))
    decreases |s|
  {
    hide Substitute, Match, Rewrite, NoBreaks;
    if s == "" {
      NothingHasNoLink(bang, false);
    } else if Match(bang, s).Some? {
      var m := Match(bang, s).value;
      SubstituteLink(bang, s, m);
      NoBreaksPart(s, m.end + 1, |s|);
      SubstituteKeepsNoBreaks(false, s[m.end + 1..]);
      RewriteKeepsNoBreaks(s, m);
      NoBreaksConcat(Rewrite(s, m), Substitute(false, s[m.end + 1..]));
    } else {
      SubstituteCharacter(bang, s);
      NoBreaksPart(s, 0, 1);
      NoBreaksPart(s, 1, |s|);
      SubstituteKeepsNoBreaks(s[0] == '!', s[1..]);
      NoBreaksConcat([s[0]], Substitute(s[0] == '!', s[1..]));
    }
  }

  lemma NoBreaksConcat(a: string, b: string)
    requires NoBreaks(a) && NoBreaks(b)
    ensures NoBreaks(a + b)
  {
  }

  lemma NoBreaksPart(s: string, i: nat, j: nat)
    requires NoBreaks(s) && i <= j <= |s|
    ensures NoBreaks(s[i..j]) && (j == |s| ==> NoBreaks(s[i..]))
  {
  }

  lemma RewriteKeepsNoBreaks(s: string, m: Link)
    requires NoBreaks(s) && 1 < m.close < m.end < |s| && m.end > m.close + 2
    ensures NoBreaks(Rewrite(s, m))
  {
    NoBreaksPart(s, 0, m.end + 1);
    NoBreaksPart(s, 1, m.close);
    NoBreaksPart(s, m.close + 2, m.end);
    WikiTargetKeepsNoBreaks(LinkTarget(s, m));
    hide WikiTarget, IsExternal;
  }

  lemma WikiTargetKeepsNoBreaks(target: string)
    requires NoBreaks(target)
    ensures NoBreaks(WikiTarget(target))
  {
    var h := HashAt(target);
    assert StripMdExtension(target[..h]) <= target[..h];
  }

  lemma ConvertLineKeepsEnding(line: string)
    requires line != "" && NoBreaks(Body(line))
    ensures var out := ConvertLine(line);
            out != "" && out[0] == line[0] && Terminator(out) == Terminator(line) && NoBreaks(Body(out))
  {
    var body, t := Body(line), Terminator(line);
    BodyAndTerminator(line);
    SubstituteBeforeTerminator(false, body, t);
    SubstituteKeepsNoBreaks(false, body);
    BodyOf(Substitute(false, body), t);
    FirstCharacter(false, line);
  }

  /* ----- fences ----- */

  lemma {:induction false} SubstituteKeepsFence(bang: bool, s: string)
    ensures IsFence(Substitute(bang, s)) <==> IsFence(s)
    decreases |s|
  {
    hide Substitute, HasLink, IsSpace;
    NothingHasNoLink(bang, false);
    if s != "" && IsSpace(s[0]) {
      PlainCharacters();
      SubstituteCharacter(bang, s);
      SubstituteKeepsFence(s[0] == '!', s[1..]);
    } else if s != "" {
      SubstituteKeepsMarker(bang, s);
    }
  }

  /** A run of three equal characters other than a bracket stays where it is. */
  lemma SubstituteKeepsMarker(bang: bool, s: string)
    requires s != ""
    ensures Substitute(bang, s) != "" && Substitute(bang, s)[0] == s[0]
    ensures "```" <= Substitute(bang, s) <==> "```" <= s
    ensures "~~~" <= Substitute(bang, s) <==> "~~~" <= s
  {
    hide Substitute, HasLink;
    FirstCharacter(bang, s);
    NothingHasNoLink(false, false);
    if s[0] != '[' {
      SubstituteCharacter(bang, s);
      if |s| > 1 {
        FirstCharacter(s[0] == '!', s[1..]);
        if s[1] != '[' {
          SubstituteCharacter(s[0] == '!', s[1..]);
          assert s[1..][1..] == s[2..];
          if |s| > 2 {
            FirstCharacter(s[1] == '!', s[2..]);
          } else {
            assert s[2..] == "";
            NothingHasNoLink(s[1] == '!', false);
          }
        }
      } else {
        assert s[1..] == "";
        NothingHasNoLink(s[0] == '!', false);
      }
    }
  }

  lemma {:induction false} FencesAreKept(lines: seq<string>, i: nat)
    requires i <= |lines|
    ensures InFence(ConvertLines(lines), i) == InFence(lines, i)
  {
    hide IsFence, Substitute;
    if i > 0 {
      FencesAreKept(lines, i - 1);
      SubstituteKeepsFence(false, lines[i - 1]);
    }
  }

  lemma ConvertLinesIsWellSplit(lines: seq<string>)
    requires WellSplit(lines)
    ensures WellSplit(ConvertLines(lines))
  {
    hide ConvertLine, IsFence, InFence, NoBreaks, Body, Terminator;
    var out := ConvertLines(lines);
    forall i | 0 <= i < |lines|
      ensures out[i] != "" && out[i][0] == lines[i][0] && Terminator(out[i]) == Terminator(lines[i]) && NoBreaks(Body(out[i]))
    {
      ConvertLineKeepsEnding(lines[i]);
    }
  }

  /**
   * The converted document has the same lines one by one: line boundaries stay, fence markers stay fence markers,
   * the same lines are inside fences, and those, markers included, are unchanged.
   */
  lemma ConvertKeepsStructure(content: string)
    ensures SplitLines(Convert(content)) == ConvertLines(SplitLines(content))
    ensures forall i :: 0 <= i < |SplitLines(content)| ==>
              && IsFence(ConvertLines(SplitLines(content))[i]) == IsFence(SplitLines(content)[i])
              && InFence(ConvertLines(SplitLines(content)), i) == InFence(SplitLines(content), i)
              && (IsFence(SplitLines(content)[i]) || InFence(SplitLines(content), i) ==>
                    ConvertLines(SplitLines(content))[i] == SplitLines(content)[i])
  {
    hide IsFence, InFence, SplitLines, Join, WellSplit, Substitute;
    var lines := SplitLines(content);
    SplitIsWellSplit(content);
    ConvertLinesIsWellSplit(lines);
    SplitOfJoin(ConvertLines(lines));
    forall i | 0 <= i < |lines|
      ensures IsFence(ConvertLines(lines)[i]) == IsFence(lines[i]) && InFence(ConvertLines(lines), i) == InFence(lines, i)
    {
      FencesAreKept(lines, i);
      SubstituteKeepsFence(false, lines[i]);
    }
  }

  /** Every rewritten link of the document has a wiki target without "](". */
  predicate CleanDocument(lines: seq<string>) {
    forall i :: 0 <= i < |lines| && !IsFence(lines[i]) && !InFence(lines, i) ==> Clean(false, lines[i])
  }

  /** The converter is idempotent on every document whose rewritten targets contain no "](". */
  lemma ConvertIsIdempotent(content: string)
    requires CleanDocument(SplitLines(content))
    ensures Convert(Convert(content)) == Convert(content)
  {
    hide IsFence, InFence, Clean, Substitute;
    var lines := SplitLines(content);
    var out := ConvertLines(lines);
    ConvertKeepsStructure(content);
    forall i | 0 <= i < |lines|
      ensures ConvertAt(out, i) == out[i]
    {
      if !IsFence(lines[i]) && !InFence(lines, i) {
        SubstituteIsIdempotent(false, lines[i]);
      }
    }
    assert ConvertLines(out) == out;
  }

  lemma LinkAt(s: string, close: nat, end: nat)
    requires 1 < close && close + 2 < end < |s| && s[0] == '[' && s[close] == ']' && s[close + 1] == '(' && s[end] == ')'
    requires forall i :: 1 <= i < close ==> s[i] != ']'
    requires forall i :: close + 2 <= i < end ==> !EndsTarget(s[i])
    ensures Match(false, s) == Some(Link(close, end))
  {
    hide IsSpace;
    BracketEndIs(s[1..], close - 1);
    TargetEndIs(s[close + 2..], end - close - 2);
    assert s[1..][close + 1..] == s[close + 2..];
  }

  lemma NotExternal(target: string)
    requires |target| >= 2 && (target[0] == 'b' || target[0] == 'c')
    requires !IsSchemeChar(target[1]) && target[1] != ':'
    ensures !IsExternal(target)
  {
    assert target[1..][0] == target[1];
    assert FoldAll(target)[0] == target[0];
    assert "mailto:"[0] == 'm' && "tel:"[0] == 't' && "#"[0] == '#';
  }

  lemma NoHash(s: string)
    requires forall i :: 0 <= i < |s| ==> s[i] != '#'
    ensures HashAt(s) == |s|
  {
  }

  /** A target without fragment and extension stays as it is. */
  lemma PlainTarget(target: string)
    requires forall i :: 0 <= i < |target| ==> target[i] != '#'
    requires |target| >= 3 && target[|target| - 3] != '.'
    ensures WikiTarget(target) == target
  {
    NoHash(target);
    assert target[..|target|] == target && target[|target|..] == "";
  }

  /** A line that starts with a link whose target needs no change. */
  lemma LinkFirst(line: string, text: string, target: string, rest: string)
    requires line == "[" + text + "](" + target + ")" + rest
    requires text != "" && forall i :: 0 <= i < |text| ==> text[i] != ']'
    requires target != "" && forall i :: 0 <= i < |target| ==> !EndsTarget(target[i])
    requires !IsExternal(target) && WikiTarget(target) == target
    ensures ConvertLine(line) == "[[" + target + "|" + text + "]]" + Substitute(false, rest)
  {
    hide Substitute, Match, IsExternal, WikiTarget, EndsTarget;
    var close, end := 1 + |text|, 3 + |text| + |target|;
    assert line[close + 2..end] == target && line[1..close] == text && line[end + 1..] == rest;
    LinkParts(line, text, target, rest);
    SubstituteLink(false, line, Link(close, end));
  }

  lemma LinkParts(line: string, text: string, target: string, rest: string)
    requires line == "[" + text + "](" + target + ")" + rest
    requires text != "" && forall i :: 0 <= i < |text| ==> text[i] != ']'
    requires target != "" && forall i :: 0 <= i < |target| ==> !EndsTarget(target[i])
    ensures Match(false, line) == Some(Link(1 + |text|, 3 + |text| + |target|))
  {
    hide Match, EndsTarget;
    var close, end := 1 + |text|, 3 + |text| + |target|;
    forall i | 1 <= i < close
      ensures line[i] != ']'
    {
      assert line[i] == text[i - 1];
    }
    forall i | close + 2 <= i < end
      ensures !EndsTarget(line[i])
    {
      assert line[i] == target[i - (close + 2)];
    }
    LinkAt(line, close, end);
  }

  lemma FirstPass()
    ensures ConvertLine("[a](b](c))") == "[[b](c|a]])"
  {
    hide ConvertLine, WikiTarget, IsExternal, Substitute;
    NotExternal("b](c");
    PlainTarget("b](c");
    LinkFirst("[a](b](c))", "a", "b](c", ")");
    SubstituteTerminator(false, ")");
  }

  lemma SecondPass()
    ensures |ConvertLine("[[b](c|a]])")| > 2 && ConvertLine("[[b](c|a]])")[2] == 'c'
  {
    hide ConvertLine, WikiTarget, IsExternal, Substitute;
    NotExternal("c|a]]");
    PlainTarget("c|a]]");
    LinkFirst("[[b](c|a]])", "[b", "c|a]]", "");
  }

  /** A document of one line. */
  lemma ConvertOneLine(line: string)
    requires WellSplit([line]) && !IsFence(line)
    ensures Convert(line) == ConvertLine(line) && WellSplit([ConvertLine(line)]) && !IsFence(ConvertLine(line))
  {
    SubstituteKeepsFence(false, line);
    hide IsFence, WellSplit, Substitute;
    SplitOfJoin([line]);
    ConvertLinesIsWellSplit([line]);
    assert Join([line]) == line;
    assert ConvertLines([line]) == [ConvertLine(line)];
    assert Join([ConvertLine(line)]) == ConvertLine(line);
  }

  lemma NoLineBreaks()
    ensures WellSplit(["[a](b](c))"]) && !IsFence("[a](b](c))")
  {
    var line := "[a](b](c))";
    assert line[|line| - 1] == ')' && line[0] == '[';
    assert Terminator(line) == "" && Body(line) == line;
    hide Terminator, Body;
    assert !IsSpace('[');
  }

  /** Without that condition a second pass can rewrite again. */
  lemma SecondPassCanRewrite() returns (content: string)
    ensures ConvertLine(ConvertLine(content)) != ConvertLine(content)
    ensures Convert(Convert(content)) != Convert(content)
  {
    hide ConvertLine, Convert, IsFence, WellSplit;
    content := "[a](b](c))";
    NoLineBreaks();
    FirstPass();
    SecondPass();
    assert "[[b](c|a]])"[2] == 'b';
    ConvertOneLine(content);
    ConvertOneLine(ConvertLine(content));
  }

  /* ----- what is left alone ----- */

  /** Every link met by the scan is external. */
  predicate OnlyExternal(bang: bool, s: string)
    decreases |s|
  {
    if s == "" then true
    else
      match Match(bang, s)
      case Some(m) => IsExternal(LinkTarget(s, m)) && OnlyExternal(false, s[m.end + 1..])
      case None => OnlyExternal(s[0] == '!', s[1..])
  }

  lemma KeptPrefix(s: string, k: nat, rest: string)
    requires k <= |s|
    ensures s[..k] + rest == s <==> rest == s[k..]
  {
    var out := s[..k] + rest;
    assert out[k..] == rest;
    assert s == s[..k] + s[k..];
  }

  lemma ScanUnfolds(bang: bool, s: string)
    ensures s == "" ==> Substitute(bang, s) == "" && OnlyExternal(bang, s)
    ensures s != "" && Match(bang, s).None? ==> (OnlyExternal(bang, s) <==> OnlyExternal(s[0] == '!', s[1..]))
    ensures Match(bang, s).Some? ==>
              var m := Match(bang, s).value;
              Match(false, s) == Some(m)
              && (OnlyExternal(bang, s) <==> IsExternal(LinkTarget(s, m)) && OnlyExternal(false, s[m.end + 1..]))
  {
    hide IsExternal, HasLink, TargetEnd, BracketEnd;
  }

  /** A line comes back unchanged exactly if it has no link but external ones. */
  lemma {:induction false} UnchangedIffOnlyExternal(bang: bool, s: string)
    ensures Substitute(bang, s) == s <==> OnlyExternal(bang, s)
    decreases |s|
  {
    hide Substitute, IsExternal, Match, OnlyExternal;
    ScanUnfolds(bang, s);
    if s == "" {
    } else if Match(bang, s).Some? {
      var m := Match(bang, s).value;
      var rest := Substitute(false, s[m.end + 1..]);
      SubstituteLink(bang, s, m);
      if IsExternal(LinkTarget(s, m)) {
        UnchangedIffOnlyExternal(false, s[m.end + 1..]);
        KeptPrefix(s, m.end + 1, rest);
      } else {
        RewritingChanges(s, m, rest);
      }
    } else {
      SubstituteCharacter(bang, s);
      UnchangedIffOnlyExternal(s[0] == '!', s[1..]);
      KeptPrefix(s, 1, Substitute(s[0] == '!', s[1..]));
      assert s[..1] == [s[0]];
    }
  }

  /** Every link outside of fences is external. */
  predicate OnlyExternalDocument(lines: seq<string>) {
    forall i :: 0 <= i < |lines| && !IsFence(lines[i]) && !InFence(lines, i) ==> OnlyExternal(false, lines[i])
  }

  /** A document comes back unchanged exactly if all links outside of its fences are external. */
  lemma DocumentUnchangedIff(content: string)
    ensures Convert(content) == content <==> OnlyExternalDocument(SplitLines(content))
  {
    hide IsFence, InFence, OnlyExternal, Substitute;
    var lines := SplitLines(content);
    ConvertKeepsStructure(content);
    JoinSplit(content);
    forall i | 0 <= i < |lines|
      ensures !IsFence(lines[i]) && !InFence(lines, i) ==>
                (ConvertLines(lines)[i] == lines[i] <==> OnlyExternal(false, lines[i]))
    {
      UnchangedIffOnlyExternal(false, lines[i]);
    }
    if OnlyExternalDocument(lines) {
      assert ConvertLines(lines) == lines;
    }
  }

  /** So a second conversion is idle exactly if the first one leaves external links only. */
  lemma SecondPassIsIdleIff(content: string)
    ensures Convert(Convert(content)) == Convert(content) <==> OnlyExternalDocument(ConvertLines(SplitLines(content)))
  {
    hide Convert, OnlyExternalDocument, ConvertLines;
    ConvertKeepsStructure(content);
    DocumentUnchangedIff(Convert(content));
  }
}
