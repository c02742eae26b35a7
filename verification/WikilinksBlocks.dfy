/**
 * What a second pass of the converter reads. A rewritten link becomes a block "[[" target "|" text "]]"; a second pass
 * can find a link that opens inside the target and closes behind it, in the text of the block or further on. All of
 * that is said about the text before the first pass.
 */
module WikilinksBlocks {
  import opened Options
  import opened Text
  import opened Wikilinks
  import opened WikilinksProperties
  import opened WikilinksDocuments

  /* ----- what a second scan reads ----- */

  /** The beginning of the block for m. */
  function Head(s: string, m: Link): string
    requires m.close + 2 <= m.end <= |s|
  {
    "[[" + WikiTarget(LinkTarget(s, m))
  }

  /** q starts with a link text and an opening parenthesis. */
  predicate Opens(q: string) {
    q != "" && var j := BracketEnd(q[1..]); j > 0 && j + 2 < |q| && q[j + 2] == '('
  }

  /** Where the target of the first link that opens in q begins. */
  function Opening(bang: bool, q: string): (k: Option<nat>)
    ensures k.Some? ==> k.value <= |q|
    decreases |q|
  {
    if q == "" then None
    else if q[0] == '[' && !bang && Opens(q) then Some(BracketEnd(q[1..]) + 3)
    else
      match Opening(q[0] == '!', q[1..])
      case None => None
      case Some(k) => Some(k + 1)
  }

  /** The first white space or closing parenthesis that the substitution leaves in s is a parenthesis. */
  predicate Closes(bang: bool, s: string)
    decreases |s|
  {
    if s == "" then false
    else
      match Match(bang, s)
      case Some(m) => if IsExternal(LinkTarget(s, m)) then HasTarget(s, true) else ClosesBehind(s, m)
      case None => if EndsTarget(s[0]) then s[0] == ')' else Closes(s[0] == '!', s[1..])
  }

  /** A target that begins in the block for m is closed in its text, or further on. */
  predicate ClosesBehind(s: string, m: Link)
    requires 1 < m.close < m.end < |s|
    decreases |s| - m.end
  {
    if ClosesInText(s, m) then HasTarget(LinkText(s, m), true) else Closes(false, s[m.end + 1..])
  }

  predicate ClosesInText(s: string, m: Link)
    requires 1 <= m.close <= |s|
  {
    TargetEnd(LinkText(s, m)) < |LinkText(s, m)|
  }

  /** The first closing bracket that the substitution leaves in s completes a link. */
  predicate Completes(bang: bool, s: string)
    decreases |s|
  {
    if s == "" then false
    else
      match Match(bang, s)
      case Some(m) => IsExternal(LinkTarget(s, m)) || (Opens("[" + Head(s, m)) && ClosesBehind(s, m))
      case None =>
        if s[0] == ']' then |s| > 2 && s[1] == '(' && !EndsTarget(s[2]) && Closes(false, s[2..])
        else Completes(s[0] == '!', s[1..])
  }

  /* ----- closing a target ----- */

  lemma {:induction false} ClosesIsHasTarget(bang: bool, s: string)
    ensures HasTarget(Substitute(bang, s), true) <==> Closes(bang, s)
    decreases |s|
  {
    hide Substitute, IsSpace, HasLink, WikiTarget, IsExternal, HasTarget, TargetEnd, EndsTarget, Match, Rewrite;
    if s == "" {
      NothingHasNoLink(bang, false);
      NoTarget();
    } else if Match(bang, s).Some? {
      var m := Match(bang, s).value;
      var R := Substitute(false, s[m.end + 1..]);
      SubstituteLink(bang, s, m);
      ClosesIsHasTarget(false, s[m.end + 1..]);
      if IsExternal(LinkTarget(s, m)) {
        ExternalCloses(bang, s, m, R);
      } else {
        BlockCloses(bang, s, m, R);
      }
    } else {
      SubstituteCharacter(bang, s);
      ClosesIsHasTarget(s[0] == '!', s[1..]);
      OneCharacter(s[0]);
      TargetConcat([s[0]], Substitute(s[0] == '!', s[1..]));
    }
  }

  lemma NoTarget()
    ensures !HasTarget("", true)
  {
  }

  lemma OneCharacter(c: char)
    ensures TargetEnd([c]) == if EndsTarget(c) then 0 else 1
    ensures HasTarget([c], true) <==> c == ')'
  {
  }

  lemma ExternalCloses(bang: bool, s: string, m: Link, R: string)
    requires Match(bang, s) == Some(m) && IsExternal(LinkTarget(s, m))
    ensures HasTarget(Rewrite(s, m) + R, true) <==> HasTarget(s, true)
  {
    hide Match, IsExternal, TargetEnd, HasTarget, EndsTarget;
    ClosedPrefix(bang, s, m);
    assert s == s[..m.end + 1] + s[m.end + 1..];
    TargetConcat(s[..m.end + 1], s[m.end + 1..]);
    TargetConcat(s[..m.end + 1], R);
  }

  lemma ClosedPrefix(bang: bool, s: string, m: Link)
    requires Match(bang, s) == Some(m)
    ensures TargetEnd(s[..m.end + 1]) < |s[..m.end + 1]|
  {
    MatchFacts(bang, s, m);
    hide IsSpace, TargetEnd, Match;
    var x := s[..m.end + 1];
    assert x[m.end] == ')';
  }

  /** No white space and no parenthesis comes before the text of a block. */
  lemma OpenHead(bang: bool, s: string, m: Link)
    requires Match(bang, s) == Some(m)
    ensures var head := "[[" + WikiTarget(LinkTarget(s, m)); forall i :: 0 <= i < |head| ==> !EndsTarget(head[i])
    ensures forall i :: 0 <= i < |LinkText(s, m)| ==> LinkText(s, m)[i] != ']'
  {
    MatchFacts(bang, s, m);
    hide Match, WikiTarget;
    var target := LinkTarget(s, m);
    forall i | 0 <= i < |target|
      ensures !EndsTarget(target[i])
    {
      assert target[i] == s[m.close + 2 + i];
    }
    WikiTargetCharacters(target);
    forall i | 0 <= i < |LinkText(s, m)|
      ensures LinkText(s, m)[i] != ']'
    {
      assert LinkText(s, m)[i] == s[1 + i];
    }
  }

  lemma NoStop(x: string)
    requires forall i :: 0 <= i < |x| ==> !EndsTarget(x[i])
    ensures TargetEnd(x) == |x|
  {
    hide IsSpace, TargetEnd;
  }

  /** The tail of a block closes a link in the text, or what follows does. */
  lemma TailCloses(t: string, R: string)
    ensures HasTarget("|" + t + "]]" + R, true) <==>
            if TargetEnd(t) < |t| then HasTarget(t, true) else HasTarget(R, true)
    ensures TargetEnd("|" + t + "]]" + R) ==
            if TargetEnd(t) < |t| then 1 + TargetEnd(t) else 3 + |t| + TargetEnd(R)
  {
    var tail := "|" + (t + ("]]" + R));
    assert tail == "|" + t + "]]" + R;
    TargetConcat("|", t + ("]]" + R));
    TargetConcat(t, "]]" + R);
    TargetConcat("]]", R);
    OneCharacter('|');
    NoStop("]]");
  }

  lemma BlockCloses(bang: bool, s: string, m: Link, R: string)
    requires Match(bang, s) == Some(m) && !IsExternal(LinkTarget(s, m))
    ensures HasTarget(Rewrite(s, m) + R, true) <==>
            if ClosesInText(s, m) then HasTarget(LinkText(s, m), true) else HasTarget(R, true)
  {
    hide Match, IsExternal, WikiTarget, HasTarget, TargetEnd, EndsTarget;
    var head := "[[" + WikiTarget(LinkTarget(s, m));
    OpenHead(bang, s, m);
    NoStop(head);
    assert Rewrite(s, m) + R == head + ("|" + LinkText(s, m) + "]]" + R);
    TargetConcat(head, "|" + LinkText(s, m) + "]]" + R);
    TailCloses(LinkText(s, m), R);
  }

  /* ----- external targets ----- */

  /** Neither '|' nor '[' takes part in what makes a target external. */
  predicate Foreign(c: char) {
    c == '|' || c == '['
  }

  lemma {:induction false} SchemeBefore(z: string, c: char, y: string)
    requires Foreign(c)
    ensures SchemeRest(z + ([c] + y)) <==> SchemeRest(z)
  {
    var s := z + ([c] + y);
    if z == "" {
      assert s == [c] + y && s[0] == c;
    } else {
      assert s[1..] == z[1..] + ([c] + y) && s[0] == z[0];
      SchemeBefore(z[1..], c, y);
      if !IsSchemeChar(z[0]) {
        PrefixBefore("://", z, c, y);
      }
    }
  }

  /** A prefix without a character does not reach past it. */
  lemma PrefixBefore(x: string, z: string, c: char, y: string)
    requires forall i :: 0 <= i < |x| ==> x[i] != c
    ensures x <= z + ([c] + y) <==> x <= z
  {
    var s := z + ([c] + y);
    if |x| > |z| {
      assert s[|z|] == c;
    } else {
      assert s[..|x|] == z[..|x|];
    }
  }

  lemma FoldConcat(z: string, c: char, y: string)
    requires Foreign(c)
    ensures FoldAll(z + ([c] + y)) == FoldAll(z) + ([c] + FoldAll(y))
  {
  }

  /** Such a character and what follows it take no part in whether a target is external. */
  lemma ExternalBefore(z: string, c: char, y: string)
    requires Foreign(c)
    ensures IsExternal(z + ([c] + y)) <==> IsExternal(z)
  {
    var s := z + ([c] + y);
    FoldConcat(z, c, y);
    PrefixBefore("mailto:", FoldAll(z), c, FoldAll(y));
    PrefixBefore("tel:", FoldAll(z), c, FoldAll(y));
    PrefixBefore("#", z, c, y);
    if z == "" {
      assert s[0] == c;
    } else {
      assert s[1..] == z[1..] + ([c] + y) && s[0] == z[0];
      SchemeBefore(z[1..], c, y);
    }
  }

  /* ----- a second scan of a block ----- */

  /** What follows the target in a block: a bar, and no closing bracket before a pair of them. */
  predicate IsTail(T: string) {
    T != "" && T[0] == '|' && BracketEnd(T) + 1 < |T| && T[BracketEnd(T) + 1] == ']'
  }

  /** No target ends between an opening in the target of a block and the tail. */
  lemma TargetInBlock(x: string, T: string)
    requires IsTail(T) && forall i :: 0 <= i < |x| ==> !EndsTarget(x[i])
    ensures HasTarget(x + T, false) <==> HasTarget(T, true)
    ensures TargetEnd(x + T) == |x| + TargetEnd(T) && TargetEnd(T) > 0
  {
    NoStop(x);
    TargetConcat(x, T);
    OneCharacter('|');
    assert T == "|" + T[1..];
    TargetConcat("|", T[1..]);
  }

  /** A link that starts in the target of a block opens there and closes in the tail. */
  lemma LinkInBlock(q: string, T: string)
    requires q != "" && IsTail(T)
    requires forall i :: 0 <= i < |q| ==> !EndsTarget(q[i])
    ensures HasLink((q + T)[1..], false) <==> Opens(q) && HasTarget(T, true)
  {
    hide IsSpace, TargetEnd, BracketEnd, EndsTarget, HasTarget;
    var x := q[1..];
    var s := x + T;
    var j := BracketEnd(x);
    assert (q + T)[1..] == s;
    BracketConcat(x, T);
    if j == |x| {
      assert s[j + BracketEnd(T) + 1] == T[BracketEnd(T) + 1];
    } else if j + 1 == |x| {
      assert s[j + 1] == T[0];
    } else {
      assert s[j + 1] == x[j + 1] == q[j + 2];
      assert s[j + 2..] == x[j + 2..] + T;
      TargetInBlock(x[j + 2..], T);
    }
  }

  lemma MatchInBlock(q: string, T: string)
    requires IsTail(T) && HasLink((q + T)[1..], false)
    requires forall i :: 0 <= i < |q| ==> !EndsTarget(q[i])
    requires q != "" && q[0] == '[' && Opens(q)
    ensures var k, m := BracketEnd(q[1..]) + 3, |q| + TargetEnd(T);
            Match(false, q + T) == Some(Link(k - 2, m)) && LinkTarget(q + T, Link(k - 2, m)) == q[k..] + T[..TargetEnd(T)]
  {
    hide IsSpace, TargetEnd, BracketEnd, EndsTarget, HasTarget, HasLink, IsTail;
    var k := BracketEnd(q[1..]) + 3;
    assert (q + T)[1..] == q[1..] + T;
    BracketConcat(q[1..], T);
    assert (q + T)[k..] == q[k..] + T;
    TargetInBlock(q[k..], T);
  }

  /** What a second scan of a block asks of the text behind it. */
  predicate Behind(k: Option<nat>, q: string, T: string)
    requires k.Some? ==> k.value <= |q|
  {
    if k.Some? && HasTarget(T, true) then IsExternal(q[k.value..]) && OnlyExternal(false, T[TargetEnd(T) + 1..])
    else OnlyExternal(false, T)
  }

  lemma ScanLink(q: string, T: string)
    requires IsTail(T) && HasTarget(T, true)
    requires forall i :: 0 <= i < |q| ==> !EndsTarget(q[i])
    requires q != "" && q[0] == '[' && Opens(q)
    ensures OnlyExternal(false, q + T) <==> Behind(Some(BracketEnd(q[1..]) + 3), q, T)
  {
    hide IsSpace, TargetEnd, BracketEnd, EndsTarget, HasTarget, HasLink, IsExternal, OnlyExternal, IsTail;
    var s, e := q + T, TargetEnd(T);
    var k := BracketEnd(q[1..]) + 3;
    LinkInBlock(q, T);
    MatchInBlock(q, T);
    ScanUnfolds(false, s);
    BarFirst(T);
    ExternalBefore(q[k..], '|', T[1..e]);
    assert s[|q| + e + 1..] == T[e + 1..];
  }

  lemma BarFirst(T: string)
    requires IsTail(T)
    ensures TargetEnd(T) > 0 && T[..TargetEnd(T)] == "|" + T[1..TargetEnd(T)]
  {
    TargetInBlock("", T);
  }

  lemma ScanBar(bang: bool, T: string)
    requires IsTail(T)
    ensures OnlyExternal(bang, T) <==> OnlyExternal(false, T)
  {
    hide OnlyExternal;
    ScanUnfolds(bang, T);
    ScanUnfolds(false, T);
  }

  lemma {:induction false} ScanBlock(bang: bool, q: string, T: string)
    requires IsTail(T) && forall i :: 0 <= i < |q| ==> !EndsTarget(q[i])
    ensures OnlyExternal(bang, q + T) <==> Behind(Opening(bang, q), q, T)
    decreases |q|
  {
    hide IsSpace, TargetEnd, BracketEnd, EndsTarget, HasTarget, HasLink, IsExternal, OnlyExternal, Opens, IsTail;
    var s := q + T;
    if q == "" {
      assert s == T;
      ScanBar(bang, T);
    } else {
      ScanUnfolds(bang, s);
      assert s[1..] == q[1..] + T;
      LinkInBlock(q, T);
      if q[0] == '[' && !bang && Opens(q) && HasTarget(T, true) {
        ScanLink(q, T);
      } else {
        assert forall i :: 0 <= i < |q[1..]| ==> q[1..][i] == q[i + 1];
        ScanBlock(q[0] == '!', q[1..], T);
        var k := Opening(q[0] == '!', q[1..]);
        if k.Some? {
          BehindShifted(k.value, q, T);
        }
      }
    }
  }

  lemma BehindShifted(k: nat, q: string, T: string)
    requires k < |q|
    ensures Behind(Some(k + 1), q, T) <==> Behind(Some(k), q[1..], T)
  {
    assert q[1..][k..] == q[k + 1..];
  }

  /** Text without "](" in front of a pair of brackets holds no link. */
  lemma InertText(x: string, R: string)
    requires NoOpening(x)
    ensures OnlyExternal(false, x + "]]" + R) <==> OnlyExternal(false, R)
  {
    hide Substitute, OnlyExternal, NoOpening;
    var s := x + "]]" + R;
    UnchangedIffOnlyExternal(false, s);
    UnchangedIffOnlyExternal(false, R);
    BlockIsInert(false, x, R);
    var k := |x| + 2;
    assert s[..k] == x + "]]" && s[k..] == R;
    KeptPrefix(s, k, Substitute(false, R));
  }

  /** What follows the target in the block for m, and the block. */
  function Tail(s: string, m: Link): string
    requires 1 < m.close < m.end < |s|
  {
    "|" + LinkText(s, m) + "]]" + Substitute(false, s[m.end + 1..])
  }

  lemma RewrittenBlock(bang: bool, s: string, m: Link)
    requires Match(bang, s) == Some(m) && !IsExternal(LinkTarget(s, m))
    ensures Substitute(bang, s) == Head(s, m) + Tail(s, m) && IsTail(Tail(s, m))
    ensures OnlyExternal(false, Tail(s, m)) <==> OnlyExternal(false, Substitute(false, s[m.end + 1..]))
    ensures HasTarget(Tail(s, m), true) <==> ClosesBehind(s, m)
    ensures forall i :: 0 <= i < |Head(s, m)| ==> !EndsTarget(Head(s, m)[i])
  {
    hide Match, IsExternal, WikiTarget, HasTarget, TargetEnd, BracketEnd, EndsTarget, OnlyExternal, Substitute, Closes;
    var R, t := Substitute(false, s[m.end + 1..]), LinkText(s, m);
    var T := "|" + t + "]]" + R;
    SubstituteLink(bang, s, m);
    OpenHead(bang, s, m);
    assert Rewrite(s, m) + R == Head(s, m) + T;
    assert T[1 + |t|] == ']' && T[2 + |t|] == ']';
    assert forall i :: 1 <= i < 1 + |t| ==> T[i] == t[i - 1];
    BracketEndIs(T, 1 + |t|);
    InertText("|" + t, R);
    TailCloses(t, R);
    ClosesIsHasTarget(false, s[m.end + 1..]);
  }

  /** Where the tail closes a target, the scan goes on in its text or further on. */
  lemma TailAfterTarget(bang: bool, s: string, m: Link)
    requires Match(bang, s) == Some(m) && ClosesBehind(s, m)
    ensures var R, T, e := Substitute(false, s[m.end + 1..]), Tail(s, m), TargetEnd(Tail(s, m));
            && e < |T|
            && if ClosesInText(s, m) then OnlyExternal(false, T[e + 1..]) <==> OnlyExternal(false, R)
               else TargetEnd(R) < |R| && T[e + 1..] == R[TargetEnd(R) + 1..]
  {
    hide Match, HasTarget, TargetEnd, EndsTarget, OnlyExternal, Substitute, Closes, LinkText;
    var R, t := Substitute(false, s[m.end + 1..]), LinkText(s, m);
    if ClosesInText(s, m) {
      TextHasNoBracket(bang, s, m);
      AfterText(t, R);
    } else {
      ClosesIsHasTarget(false, s[m.end + 1..]);
      TargetIsThere(R);
      AfterBlock(t, R);
    }
  }

  lemma TextHasNoBracket(bang: bool, s: string, m: Link)
    requires Match(bang, s) == Some(m)
    ensures forall i :: 0 <= i < |LinkText(s, m)| ==> LinkText(s, m)[i] != ']'
  {
    OpenHead(bang, s, m);
  }

  lemma AfterText(t: string, R: string)
    requires TargetEnd(t) < |t| && forall i :: 0 <= i < |t| ==> t[i] != ']'
    ensures var T, e := "|" + t + "]]" + R, TargetEnd("|" + t + "]]" + R);
            e < |T| && (OnlyExternal(false, T[e + 1..]) <==> OnlyExternal(false, R))
  {
    hide TargetEnd, OnlyExternal;
    TailCloses(t, R);
    InertText(t[TargetEnd(t) + 1..], R);
    BehindText(t, R, TargetEnd(t) + 1);
  }

  lemma AfterBlock(t: string, R: string)
    requires TargetEnd(t) == |t| && TargetEnd(R) < |R|
    ensures var T, e := "|" + t + "]]" + R, TargetEnd("|" + t + "]]" + R);
            e < |T| && T[e + 1..] == R[TargetEnd(R) + 1..]
  {
    hide TargetEnd;
    TailCloses(t, R);
    BehindBlock(t, R, TargetEnd(R) + 1);
  }

  lemma BehindText(t: string, R: string, k: nat)
    requires k <= |t|
    ensures ("|" + t + "]]" + R)[1 + k..] == t[k..] + "]]" + R
  {
  }

  lemma BehindBlock(t: string, R: string, k: nat)
    requires k <= |R|
    ensures ("|" + t + "]]" + R)[3 + |t| + k..] == R[k..]
  {
  }

  lemma TargetIsThere(R: string)
    requires HasTarget(R, true)
    ensures TargetEnd(R) < |R|
  {
  }

  /* ----- links ahead of a dangling bracket ----- */

  lemma {:induction false} CompletesIsHasLink(bang: bool, s: string)
    ensures HasLink(Substitute(bang, s), true) <==> Completes(bang, s)
    decreases |s|
  {
    hide Substitute, HasLink, HasTarget, IsSpace, WikiTarget, IsExternal, Match, Closes, Opens, TargetEnd, EndsTarget, Rewrite;
    var out := Substitute(bang, s);
    if s == "" {
      NothingHasNoLink(bang, true);
    } else if Match(bang, s).Some? {
      var m := Match(bang, s).value;
      if IsExternal(LinkTarget(s, m)) {
        ExternalCompletes(bang, s, m);
      } else {
        BlockCompletes(bang, s, m);
      }
    } else {
      SubstituteCharacter(bang, s);
      if s[0] == ']' {
        BracketCompletes(bang, s);
      } else {
        CompletesIsHasLink(s[0] == '!', s[1..]);
        LinkAfterCharacter(out, true);
      }
    }
  }

  lemma StartedLink(out: string)
    requires out != "" && out[0] == '['
    ensures HasLink(out, true) <==> HasLink(out[1..], true)
    ensures HasLink(out, true) <==> HasLink(out, false)
    ensures BracketEnd(out) == 1 + BracketEnd(out[1..])
  {
    hide HasLink;
    LinkAfterCharacter(out, true);
    LinkAfterCharacter(out, false);
  }

  /** The link that the first closing bracket of out completes, by its target and what follows it. */
  predicate LinkAhead(out: string, target: string, rest: string) {
    var j := BracketEnd(out);
    && j + 2 <= |out|
    && var u := out[j + 2..];
       TargetEnd(u) < |u| && u[..TargetEnd(u)] == target && u[TargetEnd(u) + 1..] == rest
  }

  lemma MatchIsAhead(s: string, m: Link)
    requires Match(false, s) == Some(m)
    ensures HasLink(s, true) && LinkAhead(s, LinkTarget(s, m), s[m.end + 1..])
  {
    StartedLink(s);
    SlicesAhead(s, m.close + 2, m.end);
  }

  lemma SlicesAhead(s: string, k: nat, e: nat)
    requires k <= e < |s|
    ensures s[k..][..e - k] == s[k..e] && s[k..][e - k + 1..] == s[e + 1..]
  {
  }

  lemma PrefixSlices(s: string, k: nat, R: string, a: nat, b: nat)
    requires a <= b <= k <= |s|
    ensures (s[..k] + R)[a..b] == s[a..b] && (s[..k] + R)[k..] == R
  {
  }

  lemma ExternalCompletes(bang: bool, s: string, m: Link)
    requires Match(bang, s) == Some(m) && IsExternal(LinkTarget(s, m))
    ensures HasLink(Substitute(bang, s), true)
    ensures LinkAhead(Substitute(bang, s), LinkTarget(s, m), Substitute(false, s[m.end + 1..]))
  {
    hide Substitute, IsExternal, HasLink, Match, LinkAhead;
    var out, R := Substitute(bang, s), Substitute(false, s[m.end + 1..]);
    ScanUnfolds(bang, s);
    SubstituteLink(bang, s, m);
    MatchPrefix(s, m, R);
    assert out == s[..m.end + 1] + R;
    MatchIsAhead(out, m);
    PrefixSlices(s, m.end + 1, R, m.close + 2, m.end);
  }

  lemma BlockCompletes(bang: bool, s: string, m: Link)
    requires Match(bang, s) == Some(m) && !IsExternal(LinkTarget(s, m))
    ensures HasLink(Substitute(bang, s), true) <==> Opens("[" + Head(s, m)) && ClosesBehind(s, m)
  {
    hide Substitute, HasLink, HasTarget, IsExternal, Match, ClosesBehind, Opens, WikiTarget, Tail, IsTail, EndsTarget;
    RewrittenBlock(bang, s, m);
    var q, T := "[" + Head(s, m), Tail(s, m);
    var out := Substitute(bang, s);
    PlainCharacters();
    LinkInBlock(q, T);
    assert (q + T)[1..] == out && out[0] == '[';
    StartedLink(out);
  }

  lemma BracketCompletes(bang: bool, s: string)
    requires s != "" && s[0] == ']'
    ensures HasLink(Substitute(bang, s), true) <==>
            |s| > 2 && s[1] == '(' && !EndsTarget(s[2]) && Closes(false, s[2..])
  {
    hide Substitute, HasLink, EndsTarget, TargetEnd, Closes;
    var out := Substitute(bang, s);
    SubstituteCharacter(bang, s);
    LinkAtBracket(out, true);
    if |s| > 1 {
      FirstCharacter(false, s[1..]);
      if s[1] == '(' {
        BracketAndParenthesis(bang, s);
        ClosesIsHasTarget(false, s[2..]);
        if |s| > 2 {
          FirstCharacter(false, s[2..]);
          StartsTarget(Substitute(false, s[2..]));
        } else {
          assert s[2..] == "";
          NothingHasNoLink(false, true);
          NoTarget();
        }
      }
    } else {
      assert s[1..] == "";
      NothingHasNoLink(false, true);
    }
  }

  lemma BracketAndParenthesis(bang: bool, s: string)
    requires |s| > 1 && s[0] == ']' && s[1] == '('
    ensures Substitute(bang, s) == "](" + Substitute(false, s[2..])
    ensures Substitute(bang, s)[2..] == Substitute(false, s[2..])
  {
    hide Substitute;
    SubstituteCharacter(bang, s);
    SubstituteCharacter(false, s[1..]);
    assert s[1..][1..] == s[2..];
  }

  lemma StartsTarget(u: string)
    requires u != ""
    ensures HasTarget(u, false) <==> !EndsTarget(u[0]) && HasTarget(u, true)
  {
  }

  /** Up to the first link the substitution leaves a text as it is; there both have a bracket. */
  lemma {:induction false} CommonStart(bang: bool, u: string) returns (n: nat)
    ensures n <= |u| && n <= |Substitute(bang, u)| && u[..n] == Substitute(bang, u)[..n]
    ensures n < |u| ==> n < |Substitute(bang, u)| && u[n] == '[' == Substitute(bang, u)[n]
    ensures n == |u| ==> Substitute(bang, u) == u
    decreases |u|
  {
    hide Substitute, Match;
    if u == "" {
      NothingHasNoLink(bang, true);
      n := 0;
    } else if Match(bang, u).Some? {
      FirstCharacter(bang, u);
      MatchFacts(bang, u, Match(bang, u).value);
      n := 0;
    } else {
      SubstituteCharacter(bang, u);
      var k := CommonStart(u[0] == '!', u[1..]);
      n := k + 1;
      assert u[..n] == [u[0]] + u[1..][..k];
      assert Substitute(bang, u)[..n] == [u[0]] + Substitute(u[0] == '!', u[1..])[..k];
    }
  }

  /** Whether a target is external can be read off before the substitution. */
  lemma ExternalAhead(bang: bool, u: string)
    ensures var v := Substitute(bang, u); IsExternal(v[..TargetEnd(v)]) <==> IsExternal(u[..TargetEnd(u)])
  {
    hide Substitute, IsExternal, TargetEnd, EndsTarget;
    var v := Substitute(bang, u);
    var n := CommonStart(bang, u);
    if n < |u| {
      ExternalUpTo(u, n);
      ExternalUpTo(v, n);
    }
  }

  lemma ExternalUpTo(u: string, n: nat)
    requires n < |u| && u[n] == '['
    ensures IsExternal(u[..TargetEnd(u)]) <==> IsExternal(u[..n][..TargetEnd(u[..n])])
  {
    hide IsExternal, TargetEnd;
    PlainCharacters();
    assert u == u[..n] + u[n..];
    TargetConcat(u[..n], u[n..]);
    if TargetEnd(u[..n]) == n {
      assert u[n..] == "[" + u[n + 1..];
      OneCharacter('[');
      TargetConcat("[", u[n + 1..]);
      ExternalBefore(u[..n], '[', u[n + 1..TargetEnd(u)]);
      assert u[..TargetEnd(u)] == u[..n] + ("[" + u[n + 1..TargetEnd(u)]);
      assert u[..n][..n] == u[..n];
    } else {
      assert u[..n][..TargetEnd(u[..n])] == u[..TargetEnd(u)];
    }
  }

  /** The link that a dangling bracket in front of s starts is external, and nothing but external links follow it. */
  predicate HarmlessAhead(out: string) {
    var j := BracketEnd(out);
    && j + 2 <= |out|
    && var u := out[j + 2..];
       TargetEnd(u) < |u| && IsExternal(u[..TargetEnd(u)]) && OnlyExternal(false, u[TargetEnd(u) + 1..])
  }
}
