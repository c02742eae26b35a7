/** When a second conversion changes nothing, said about the text before the first one. */
module WikilinksIdempotence {
  import opened Options
  import opened Text
  import opened Wikilinks
  import opened WikilinksProperties
  import opened WikilinksDocuments
  import opened WikilinksBlocks

  /* ----- the condition ----- */

  /** A second pass changes nothing in what the first one makes of s. */
  predicate Stable(bang: bool, s: string)
    decreases |s|, 1, 0
  {
    if s == "" then true
    else
      match Match(bang, s)
      case Some(m) =>
        if !IsExternal(LinkTarget(s, m)) && Opening(false, Head(s, m)).Some? && ClosesBehind(s, m) then
          // a link opens in the target of the block and closes behind it
          IsExternal(Head(s, m)[Opening(false, Head(s, m)).value..]) && StableBehind(s, m)
        else Stable(false, s[m.end + 1..])
      case None => Stable(s[0] == '!', s[1..])
  }

  /** Nor behind a target that begins in the block for m and is closed. */
  predicate StableBehind(s: string, m: Link)
    requires 1 < m.close < m.end < |s|
    decreases |s|, 0, 0
  {
    if ClosesInText(s, m) then Stable(false, s[m.end + 1..]) else StableAfterTarget(false, s[m.end + 1..])
  }

  /** Nor behind the first closing parenthesis. */
  predicate StableAfterTarget(bang: bool, s: string)
    decreases |s|, 1, 0
  {
    if s == "" then true
    else
      match Match(bang, s)
      case Some(m) =>
        if !IsExternal(LinkTarget(s, m)) then StableBehind(s, m)
        else if TargetEnd(s) <= m.end then StableLoose(false, s[TargetEnd(s) + 1..m.end + 1], s[m.end + 1..])
        else true
      case None => if EndsTarget(s[0]) then Stable(false, s[1..]) else StableAfterTarget(s[0] == '!', s[1..])
  }

  /** Nor behind the first link that a closing bracket completes, and that link is external. */
  predicate StableAfterLink(bang: bool, s: string)
    decreases |s|, 1, 0
  {
    if s == "" then true
    else
      match Match(bang, s)
      case Some(m) =>
        if IsExternal(LinkTarget(s, m)) then Stable(false, s[m.end + 1..])
        else
          var j := BracketEnd(Head(s, m));
          j + 2 <= |Head(s, m)| && IsExternal(Head(s, m)[j + 2..]) && StableBehind(s, m)
      case None =>
        if s[0] != ']' then StableAfterLink(s[0] == '!', s[1..])
        else |s| > 2 && IsExternal(s[2..][..TargetEnd(s[2..])]) && StableAfterTarget(false, s[2..])
  }

  /** The same for the rest x of an external link, cut off in its text, and s. */
  predicate StableLoose(bang: bool, x: string, s: string)
    decreases |s|, 2, |x|
  {
    if x == "" then Stable(false, s)
    else
      match Match(bang, x)
      case Some(m) => IsExternal(LinkTarget(x, m)) && StableLoose(false, x[m.end + 1..], s)
      case None =>
        if Dangles(bang, x) && Completes(false, s) then StableAfterLink(false, s) else StableLoose(x[0] == '!', x[1..], s)
  }

  /** A bracket opens in front of x and is not closed in x. */
  predicate Dangles(bang: bool, x: string) {
    |x| > 1 && x[0] == '[' && !bang && BracketEnd(x[1..]) == |x| - 1
  }

  /* ----- the condition is what a second scan finds ----- */

  lemma {:induction false} StableIff(bang: bool, s: string)
    ensures OnlyExternal(bang, Substitute(bang, s)) <==> Stable(bang, s)
    decreases |s|, 1, 0
  {
    hide Substitute, IsSpace, HasLink, WikiTarget, IsExternal, OnlyExternal, Match, ClosesBehind, Opening, StableBehind, Tail, EndsTarget;
    var out := Substitute(bang, s);
    ScanUnfolds(bang, out);
    if s == "" {
      NothingHasNoLink(bang, false);
    } else if Match(bang, s).Some? {
      var m := Match(bang, s).value;
      MatchFacts(bang, s, m);
      StableIff(false, s[m.end + 1..]);
      if IsExternal(LinkTarget(s, m)) {
        ExternalIsMet(s, m);
      } else {
        RewrittenBlock(bang, s, m);
        ScanBlock(bang, Head(s, m), Tail(s, m));
        if ClosesBehind(s, m) {
          StableBehindIff(bang, s, m);
        }
      }
    } else {
      StableIff(s[0] == '!', s[1..]);
      SubstituteCharacter(bang, s);
      CharacterStays(bang, s);
    }
  }

  lemma ExternalIsMet(s: string, m: Link)
    requires Match(false, s) == Some(m) && IsExternal(LinkTarget(s, m))
    ensures OnlyExternal(false, Substitute(false, s)) <==> OnlyExternal(false, Substitute(false, s[m.end + 1..]))
  {
    hide Substitute, OnlyExternal, Match, IsExternal;
    var out, rest := Substitute(false, s), Substitute(false, s[m.end + 1..]);
    SubstituteLink(false, s, m);
    MatchPrefix(s, m, rest);
    ScanUnfolds(false, out);
    assert LinkTarget(out, m) == LinkTarget(s, m) && out[m.end + 1..] == rest;
  }

  lemma StableBehindIff(bang: bool, s: string, m: Link)
    requires Match(bang, s) == Some(m) && ClosesBehind(s, m)
    ensures TargetEnd(Tail(s, m)) < |Tail(s, m)|
    ensures OnlyExternal(false, Tail(s, m)[TargetEnd(Tail(s, m)) + 1..]) <==> StableBehind(s, m)
    decreases |s|, 0, 0
  {
    hide Substitute, OnlyExternal, Match, Stable, StableAfterTarget, TargetEnd, Tail, Closes;
    TailAfterTarget(bang, s, m);
    if ClosesInText(s, m) {
      StableIff(false, s[m.end + 1..]);
    } else {
      AfterTargetIff(false, s[m.end + 1..]);
    }
  }

  lemma {:induction false} AfterTargetIff(bang: bool, s: string)
    requires Closes(bang, s)
    ensures var out := Substitute(bang, s);
            TargetEnd(out) < |out| && (OnlyExternal(false, out[TargetEnd(out) + 1..]) <==> StableAfterTarget(bang, s))
    decreases |s|, 1, 0
  {
    hide Substitute, OnlyExternal, Match, Stable, StableBehind, StableLoose, TargetEnd, Tail, ClosesBehind, HasTarget, EndsTarget, IsExternal, WikiTarget;
    var out := Substitute(bang, s);
    ClosesIsHasTarget(bang, s);
    TargetIsThere(out);
    if Match(bang, s).Some? {
      var m := Match(bang, s).value;
      if IsExternal(LinkTarget(s, m)) {
        var x := ExternalAfterTarget(bang, s, m);
        LooseIff(false, x, s[m.end + 1..]);
      } else {
        BlockAfterTarget(bang, s, m);
        StableBehindIff(bang, s, m);
      }
    } else {
      SubstituteCharacter(bang, s);
      TargetAfterCharacter(s[0], Substitute(s[0] == '!', s[1..]));
      if EndsTarget(s[0]) {
        StableIff(false, s[1..]);
      } else {
        AfterTargetIff(s[0] == '!', s[1..]);
      }
    }
  }

  lemma TargetAfterCharacter(c: char, u: string)
    ensures var out := [c] + u;
            if EndsTarget(c) then TargetEnd(out) == 0 && out[1..] == u
            else TargetEnd(out) == 1 + TargetEnd(u) && (TargetEnd(u) < |u| ==> out[TargetEnd(out) + 1..] == u[TargetEnd(u) + 1..])
  {
    hide TargetEnd, EndsTarget;
    OneCharacter(c);
    TargetConcat([c], u);
  }

  lemma BlockAfterTarget(bang: bool, s: string, m: Link)
    requires Match(bang, s) == Some(m) && !IsExternal(LinkTarget(s, m)) && ClosesBehind(s, m)
    ensures var out, T := Substitute(bang, s), Tail(s, m);
            TargetEnd(out) < |out| && TargetEnd(T) < |T| && out[TargetEnd(out) + 1..] == T[TargetEnd(T) + 1..]
  {
    hide Substitute, Match, IsExternal, ClosesBehind, TargetEnd, WikiTarget, HasTarget, EndsTarget, Tail, Head, IsTail;
    var q, T := Head(s, m), Tail(s, m);
    RewrittenBlock(bang, s, m);
    TargetIsThere(T);
    NoStop(q);
    TargetConcat(q, T);
    assert (q + T)[|q| + TargetEnd(T) + 1..] == T[TargetEnd(T) + 1..];
  }

  /** A target that is closed inside an external link leaves the rest of that link. */
  lemma ExternalAfterTarget(bang: bool, s: string, m: Link) returns (x: string)
    requires Match(bang, s) == Some(m) && IsExternal(LinkTarget(s, m))
    ensures TargetEnd(s) <= m.end && x == s[TargetEnd(s) + 1..m.end + 1] && (x == "" || x[|x| - 1] == ')')
    ensures var out := Substitute(bang, s);
            TargetEnd(out) < |out| && out[TargetEnd(out) + 1..] == x + Substitute(false, s[m.end + 1..])
  {
    hide Substitute, Match, IsExternal, TargetEnd, EndsTarget, Rewrite;
    var y, rest := s[..m.end + 1], s[m.end + 1..];
    SubstituteLink(bang, s, m);
    KeptLink(s, m);
    ClosedPrefix(bang, s, m);
    assert s == y + rest;
    ClosedIn(y, rest);
    ClosedIn(y, Substitute(false, rest));
    x := y[TargetEnd(y) + 1..];
    EndsAsLink(bang, s, m, TargetEnd(y) + 1);
  }

  lemma KeptLink(s: string, m: Link)
    requires 1 < m.close < m.end < |s| && m.end > m.close + 2 && IsExternal(LinkTarget(s, m))
    ensures Rewrite(s, m) == s[..m.end + 1]
  {
  }

  lemma ClosedIn(y: string, z: string)
    requires TargetEnd(y) < |y|
    ensures TargetEnd(y + z) == TargetEnd(y) && (y + z)[TargetEnd(y) + 1..] == y[TargetEnd(y) + 1..] + z
  {
    hide TargetEnd;
    TargetConcat(y, z);
  }

  lemma EndsAsLink(bang: bool, s: string, m: Link, e: nat)
    requires Match(bang, s) == Some(m) && e <= m.end + 1
    ensures s[..m.end + 1][e..] == s[e..m.end + 1] && (e <= m.end ==> s[e..m.end + 1][m.end - e] == ')')
  {
    hide Match;
    MatchFacts(bang, s, m);
  }

  lemma {:induction false} AfterLinkIff(bang: bool, s: string)
    requires Completes(bang, s)
    ensures HarmlessAhead(Substitute(bang, s)) <==> StableAfterLink(bang, s)
    decreases |s|, 1, 0
  {
    hide Substitute, OnlyExternal, Match, Stable, StableBehind, StableAfterTarget, TargetEnd, ClosesBehind, HasTarget, EndsTarget, IsExternal, WikiTarget, HarmlessAhead, Opens, Closes;
    var out := Substitute(bang, s);
    if Match(bang, s).Some? {
      var m := Match(bang, s).value;
      if IsExternal(LinkTarget(s, m)) {
        ExternalCompletes(bang, s, m);
        StableIff(false, s[m.end + 1..]);
        HarmlessIff(out, LinkTarget(s, m), Substitute(false, s[m.end + 1..]));
      } else {
        BlockAhead(bang, s, m);
        StableBehindIff(bang, s, m);
      }
    } else {
      SubstituteCharacter(bang, s);
      if s[0] == ']' {
        AfterTargetIff(false, s[2..]);
        BracketAhead(bang, s);
      } else {
        AfterLinkIff(s[0] == '!', s[1..]);
        HarmlessLater(out);
      }
    }
  }

  lemma HarmlessIff(out: string, target: string, rest: string)
    requires LinkAhead(out, target, rest)
    ensures HarmlessAhead(out) <==> IsExternal(target) && OnlyExternal(false, rest)
  {
  }

  lemma BracketAhead(bang: bool, s: string)
    requires |s| > 2 && s[0] == ']' && s[1] == '('
    requires TargetEnd(Substitute(false, s[2..])) < |Substitute(false, s[2..])|
    ensures var u := Substitute(false, s[2..]);
            HarmlessAhead(Substitute(bang, s)) <==>
            IsExternal(s[2..][..TargetEnd(s[2..])]) && OnlyExternal(false, u[TargetEnd(u) + 1..])
  {
    hide Substitute, OnlyExternal, TargetEnd, IsExternal, HarmlessAhead;
    var u := Substitute(false, s[2..]);
    BracketAndParenthesis(bang, s);
    ExternalAhead(false, s[2..]);
    BracketFirst(Substitute(bang, s));
    HarmlessIff(Substitute(bang, s), u[..TargetEnd(u)], u[TargetEnd(u) + 1..]);
  }

  lemma BracketFirst(out: string)
    requires |out| > 1 && out[0] == ']' && TargetEnd(out[2..]) < |out[2..]|
    ensures LinkAhead(out, out[2..][..TargetEnd(out[2..])], out[2..][TargetEnd(out[2..]) + 1..])
  {
  }

  lemma HarmlessLater(out: string)
    requires out != "" && out[0] != ']'
    ensures HarmlessAhead(out) <==> HarmlessAhead(out[1..])
  {
    hide OnlyExternal, IsExternal, TargetEnd;
    var j := BracketEnd(out[1..]);
    if j + 2 < |out| {
      assert out[1..][j + 2..] == out[j + 3..];
    }
  }

  /** The first closing bracket of the block completes a link in its target. */
  lemma BlockAhead(bang: bool, s: string, m: Link)
    requires Match(bang, s) == Some(m) && !IsExternal(LinkTarget(s, m))
    requires Opens("[" + Head(s, m)) && ClosesBehind(s, m)
    ensures var q, T := Head(s, m), Tail(s, m);
            && BracketEnd(q) + 2 <= |q| && TargetEnd(T) < |T|
            && (HarmlessAhead(Substitute(bang, s)) <==>
                IsExternal(q[BracketEnd(q) + 2..]) && OnlyExternal(false, T[TargetEnd(T) + 1..]))
  {
    hide Substitute, Match, IsExternal, ClosesBehind, TargetEnd, BracketEnd, WikiTarget, HasTarget, EndsTarget, Tail, Head, IsTail, OnlyExternal;
    var q, T := Head(s, m), Tail(s, m);
    RewrittenBlock(bang, s, m);
    TargetIsThere(T);
    assert ("[" + q)[1..] == q;
    var j := BracketEnd(q);
    var x, e := q[j + 2..], TargetEnd(T);
    BracketConcat(q, T);
    TargetInBlock(x, T);
    BarFirst(T);
    BlockSlices(q, T, j + 2, e);
    HarmlessIff(q + T, x + ("|" + T[1..e]), T[e + 1..]);
    ExternalBefore(x, '|', T[1..e]);
  }

  lemma BlockSlices(q: string, T: string, k: nat, e: nat)
    requires k <= |q| && 0 < e < |T| && T[..e] == "|" + T[1..e]
    ensures (q + T)[k..] == q[k..] + T
    ensures (q[k..] + T)[..|q| - k + e] == q[k..] + ("|" + T[1..e]) && (q[k..] + T)[|q| - k + e + 1..] == T[e + 1..]
  {
    var x := q[k..];
    assert (x + T)[..|x| + e] == x + T[..e];
  }

  lemma {:induction false} LooseIff(bang: bool, x: string, s: string)
    requires if x == "" then !bang else x[|x| - 1] == ')'
    ensures OnlyExternal(bang, x + Substitute(false, s)) <==> StableLoose(bang, x, s)
    decreases |s|, 2, |x|
  {
    hide Substitute, OnlyExternal, Match, Stable, StableAfterLink, TargetEnd, HasLink, EndsTarget, IsExternal, HarmlessAhead, Completes, Dangles;
    var z := Substitute(false, s);
    if x == "" {
      assert x + z == z;
      StableIff(false, s);
    } else if Match(bang, x).Some? {
      var m := Match(bang, x).value;
      LooseLink(bang, x, m, z);
      LooseIff(false, x[m.end + 1..], s);
    } else {
      CompletesIsHasLink(false, s);
      assert (x + z)[1..] == x[1..] + z;
      if Dangles(bang, x) && Completes(false, s) {
        DanglingLink(bang, x, z);
        AfterLinkIff(false, s);
      } else {
        NoLooseLink(bang, x, z);
        ScanUnfolds(bang, x + z);
        LooseIff(x[0] == '!', x[1..], s);
      }
    }
  }

  lemma LooseLink(bang: bool, x: string, m: Link, z: string)
    requires Match(bang, x) == Some(m) && x[|x| - 1] == ')'
    ensures OnlyExternal(bang, x + z) <==> IsExternal(LinkTarget(x, m)) && OnlyExternal(false, x[m.end + 1..] + z)
    ensures x[m.end + 1..] != "" ==> x[m.end + 1..][|x[m.end + 1..]| - 1] == ')'
  {
    hide Match, OnlyExternal, IsExternal;
    LinkConcat(bang, x, m, z);
    ScanUnfolds(bang, x + z);
    assert LinkTarget(x + z, m) == LinkTarget(x, m);
  }

  lemma NoLooseLink(bang: bool, x: string, z: string)
    requires x != "" && x[|x| - 1] == ')' && Match(bang, x).None?
    requires Dangles(bang, x) ==> !HasLink(z, true)
    ensures Match(bang, x + z).None?
  {
    hide HasTarget, TargetEnd, BracketEnd;
    if Dangles(bang, x) {
      DanglingIff(x[1..], z);
      assert (x + z)[1..] == x[1..] + z;
    } else {
      if x[0] == '[' && !bang {
        RefusedHere(x[1..]);
      }
      CharacterConcat(bang, x, z);
    }
  }

  /** What ends with a parenthesis and holds a closing bracket decides about a bracket in front of it. */
  lemma RefusedHere(y: string)
    requires y != "" && y[|y| - 1] == ')' && BracketEnd(y) < |y| && !HasLink(y, false)
    ensures Refused(y)
  {
    hide TargetEnd, BracketEnd;
    var j := BracketEnd(y);
    if j + 2 < |y| {
      var u := y[j + 2..];
      assert EndsTarget(u[|u| - 1]);
    }
  }

  lemma DanglingIff(y: string, z: string)
    requires y != "" && BracketEnd(y) == |y|
    ensures HasLink(y + z, false) <==> HasLink(z, true)
    ensures BracketEnd(y + z) == |y| + BracketEnd(z)
  {
    hide BracketEnd, HasTarget;
    var j := BracketEnd(z);
    BracketConcat(y, z);
    if j + 1 < |z| {
      assert (y + z)[|y| + j + 2..] == z[j + 2..];
    }
  }

  lemma DanglingLink(bang: bool, x: string, z: string)
    requires Dangles(bang, x) && HasLink(z, true)
    ensures OnlyExternal(bang, x + z) <==> HarmlessAhead(z)
  {
    hide OnlyExternal, IsExternal, TargetEnd, HarmlessAhead, LinkAhead, BracketEnd, HasLink, Match, Dangles;
    var s := x + z;
    DanglingMatch(bang, x, z);
    DanglesToTheEnd(bang, x);
    var m := Match(bang, s).value;
    ScanUnfolds(bang, s);
    MatchIsAhead(s, m);
    HarmlessIff(s, LinkTarget(s, m), s[m.end + 1..]);
    HarmlessBehind(x, z);
  }

  lemma DanglingMatch(bang: bool, x: string, z: string)
    requires Dangles(bang, x) && HasLink(z, true)
    ensures !bang && Match(false, x + z).Some?
  {
    hide TargetEnd, HasLink, BracketEnd;
    DanglingIff(x[1..], z);
    assert (x + z)[1..] == x[1..] + z;
  }

  lemma DanglesToTheEnd(bang: bool, x: string)
    requires Dangles(bang, x)
    ensures BracketEnd(x) == |x|
  {
  }

  lemma HarmlessBehind(x: string, z: string)
    requires BracketEnd(x) == |x|
    ensures HarmlessAhead(x + z) <==> HarmlessAhead(z)
  {
    hide OnlyExternal, IsExternal, TargetEnd, BracketEnd;
    BracketConcat(x, z);
    var j := BracketEnd(z);
    if j + 2 <= |z| {
      assert (x + z)[|x| + j + 2..] == z[j + 2..];
    }
  }

  lemma CharacterStays(bang: bool, s: string)
    requires s != "" && Match(bang, s).None?
    ensures Match(bang, Substitute(bang, s)).None?
  {
    hide Substitute, HasLink;
    SubstituteCharacter(bang, s);
    if s[0] == '[' && !bang {
      LinkStaysMissing(s[0] == '!', s[1..], false);
    }
  }

  /* ----- lines and documents ----- */

  /** A second pass over a line is idle exactly if the line is stable. */
  lemma LineIsIdempotentIff(line: string)
    ensures ConvertLine(ConvertLine(line)) == ConvertLine(line) <==> Stable(false, line)
  {
    hide Substitute, OnlyExternal, Stable;
    StableIff(false, line);
    UnchangedIffOnlyExternal(false, ConvertLine(line));
  }

  predicate StableDocument(lines: seq<string>) {
    forall i :: 0 <= i < |lines| && !IsFence(lines[i]) && !InFence(lines, i) ==> Stable(false, lines[i])
  }

  /** The converter is idempotent on a document exactly if the lines outside of its fences are stable. */
  lemma DocumentIsIdempotentIff(content: string)
    ensures Convert(Convert(content)) == Convert(content) <==> StableDocument(SplitLines(content))
  {
    hide IsFence, InFence, OnlyExternal, Substitute, Stable, SplitLines, Convert;
    var lines := SplitLines(content);
    var out := ConvertLines(lines);
    ConvertKeepsStructure(content);
    SecondPassIsIdleIff(content);
    forall i | 0 <= i < |lines| && !IsFence(lines[i]) && !InFence(lines, i)
      ensures OnlyExternal(false, out[i]) <==> Stable(false, lines[i])
    {
      StableIff(false, lines[i]);
    }
    if StableDocument(lines) {
      assert OnlyExternalDocument(out);
    }
    if OnlyExternalDocument(out) {
      assert StableDocument(lines);
    }
  }

  /* ----- targets without "](" ----- */

  lemma {:induction false} NothingOpens(bang: bool, q: string)
    requires NoOpening(q)
    ensures Opening(bang, q).None?
    decreases |q|
  {
    if q != "" {
      NothingOpens(q[0] == '!', q[1..]);
    }
  }

  /** Where no rewritten target contains "](", all is stable. */
  lemma {:induction false} CleanIsStable(bang: bool, s: string)
    requires Clean(bang, s)
    ensures Stable(bang, s)
    decreases |s|
  {
    hide Match, IsExternal, WikiTarget, Closes, HasTarget, Opening, NoOpening;
    if s == "" {
    } else if Match(bang, s).Some? {
      var m := Match(bang, s).value;
      CleanIsStable(false, s[m.end + 1..]);
      if !IsExternal(LinkTarget(s, m)) {
        BracketsInFront(WikiTarget(LinkTarget(s, m)));
        NothingOpens(false, Head(s, m));
      }
    } else {
      CleanIsStable(s[0] == '!', s[1..]);
    }
  }

  lemma BracketsInFront(w: string)
    requires NoOpening(w)
    ensures NoOpening("[[" + w)
  {
    var q := "[[" + w;
    forall i | 0 <= i < |q| - 1 && q[i] == ']'
      ensures q[i + 1] != '('
    {
      assert i >= 2 && w[i - 2] == ']';
    }
  }
}
