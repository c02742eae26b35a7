/** Idempotence of the converter and what it leaves alone. */
module WikilinksProperties {
  import opened Options
  import opened Text
  import opened Wikilinks

  /* ----- a second pass finds nothing new ----- */

  /** Nothing in s reads "](". */
  predicate NoOpening(s: string) {
    forall i :: 0 <= i < |s| - 1 && s[i] == ']' ==> s[i + 1] != '('
  }

  /** Every link that the substitution rewrites has a wiki target without "](". */
  predicate Clean(bang: bool, s: string)
    decreases |s|
  {
    if s == "" then true
    else
      match Match(bang, s)
      case Some(m) =>
        (IsExternal(LinkTarget(s, m)) || NoOpening(WikiTarget(LinkTarget(s, m)))) && Clean(false, s[m.end + 1..])
      case None => Clean(s[0] == '!', s[1..])
  }

  lemma SubstituteLink(bang: bool, s: string, m: Link)
    requires Match(bang, s) == Some(m)
    ensures Substitute(bang, s) == Rewrite(s, m) + Substitute(false, s[m.end + 1..])
  {
    hide Match, Rewrite;
  }

  lemma SubstituteCharacter(bang: bool, s: string)
    requires s != "" && Match(bang, s).None?
    ensures Substitute(bang, s) == [s[0]] + Substitute(s[0] == '!', s[1..])
    ensures Substitute(bang, s)[1..] == Substitute(s[0] == '!', s[1..])
  {
  }

  /** The first character of a text survives the substitution. */
  lemma FirstCharacter(bang: bool, s: string)
    requires s != ""
    ensures Substitute(bang, s) != "" && Substitute(bang, s)[0] == s[0]
  {
  }

  /** Facts about a link found at the start of s. */
  lemma MatchFacts(bang: bool, s: string, m: Link)
    requires Match(bang, s) == Some(m)
    ensures s[0] == '[' && !bang && s[m.close] == ']' && s[m.close + 1] == '(' && s[m.end] == ')'
    ensures forall i :: 1 <= i < m.close ==> s[i] != ']'
    ensures forall i :: m.close + 2 <= i < m.end ==> !EndsTarget(s[i])
  {
    var t := s[1..];
    var j := BracketEnd(t);
    assert m.close == 1 + j;
    assert t[j + 2..] == s[j + 3..];
    forall i | 1 <= i < m.close
      ensures s[i] != ']'
    {
      assert s[i] == t[i - 1];
    }
    var u := s[m.close + 2..];
    forall i | m.close + 2 <= i < m.end
      ensures !EndsTarget(s[i])
    {
      assert s[i] == u[i - (m.close + 2)];
    }
    assert u[TargetEnd(u)] == s[m.end];
  }

  lemma {:induction false} BracketEndIs(s: string, j: nat)
    requires j < |s| && s[j] == ']' && forall i :: 0 <= i < j ==> s[i] != ']'
    ensures BracketEnd(s) == j
  {
    assert BracketEnd(s) <= j;
  }

  lemma TargetEndIs(s: string, k: nat)
    requires k < |s| && EndsTarget(s[k]) && forall i :: 0 <= i < k ==> !EndsTarget(s[i])
    ensures TargetEnd(s) == k
  {
    assert TargetEnd(s) <= k;
  }

  /** The first of two texts decides, unless it holds no end of a target. */
  lemma TargetConcat(x: string, y: string)
    ensures HasTarget(x + y, true) <==> if TargetEnd(x) < |x| then x[TargetEnd(x)] == ')' else HasTarget(y, true)
    ensures TargetEnd(x + y) == if TargetEnd(x) < |x| then TargetEnd(x) else |x| + TargetEnd(y)
  {
    hide IsSpace, TargetEnd, EndsTarget;
    var s := x + y;
    assert forall i :: 0 <= i < |s| ==> s[i] == if i < |x| then x[i] else y[i - |x|];
    if TargetEnd(x) < |x| {
      TargetEndIs(s, TargetEnd(x));
    } else if TargetEnd(y) < |y| {
      TargetEndIs(s, |x| + TargetEnd(y));
    }
  }

  lemma BracketConcat(x: string, y: string)
    ensures BracketEnd(x + y) == if BracketEnd(x) < |x| then BracketEnd(x) else |x| + BracketEnd(y)
  {
    hide BracketEnd;
    var s := x + y;
    assert forall i :: 0 <= i < |s| ==> s[i] == if i < |x| then x[i] else y[i - |x|];
    if BracketEnd(x) < |x| {
      BracketEndIs(s, BracketEnd(x));
    } else if BracketEnd(y) < |y| {
      BracketEndIs(s, |x| + BracketEnd(y));
    }
  }

  /** A wiki target is made of characters of the link target. */
  lemma WikiTargetCharacters(target: string)
    requires forall i :: 0 <= i < |target| ==> !EndsTarget(target[i])
    ensures forall i :: 0 <= i < |WikiTarget(target)| ==> !EndsTarget(WikiTarget(target)[i])
  {
    var h := HashAt(target);
    var path := StripMdExtension(target[..h]);
    assert path <= target[..h];
  }

  /** Where no target can be read before the substitution, none can be read after it. */
  lemma {:induction false} TargetStaysMissing(bang: bool, s: string, started: bool)
    requires !HasTarget(s, started)
    ensures !HasTarget(Substitute(bang, s), started)
    decreases |s|
  {
    hide Match, Rewrite, IsSpace;
    if s == "" {
    } else if Match(bang, s).Some? {
      TargetStaysMissingInLink(bang, s, Match(bang, s).value, started);
    } else if EndsTarget(s[0]) {
    } else {
      var rest := Substitute(s[0] == '!', s[1..]);
      TargetStaysMissing(s[0] == '!', s[1..], true);
      assert Substitute(bang, s)[1..] == rest;
    }
  }

  lemma PlainCharacters()
    ensures !EndsTarget('[') && !EndsTarget(']') && !EndsTarget('(') && !EndsTarget('|')
  {
  }

  /** In a link, a missing target means white space in the text. */
  lemma MissingTargetIsInText(bang: bool, s: string, m: Link, started: bool)
    requires Match(bang, s) == Some(m) && !HasTarget(s, started)
    ensures 1 <= TargetEnd(s) < m.close && s[TargetEnd(s)] != ')'
  {
    hide IsSpace, Match;
    PlainCharacters();
    MatchFacts(bang, s, m);
    if TargetEnd(s) >= m.close {
      assert forall i :: 0 <= i < m.end ==> !EndsTarget(s[i]);
      TargetEndIs(s, m.end);
      assert false;
    }
  }

  lemma TargetEndShifted(head: string, s: string, from: nat, e: nat, tail: string)
    requires from <= e < |s| && EndsTarget(s[e]) && s[e] != ')' && forall i :: from <= i < e ==> !EndsTarget(s[i])
    requires forall i :: 0 <= i < |head| ==> !EndsTarget(head[i])
    ensures !HasTarget(head + s[from..e + 1] + tail, true) && !HasTarget(head + s[from..e + 1] + tail, false)
  {
    hide IsSpace, TargetEnd;
    var out := head + s[from..e + 1] + tail;
    var k := |head| + (e - from);
    forall i | 0 <= i < k
      ensures !EndsTarget(out[i])
    {
      if i >= |head| {
        assert out[i] == s[i - |head| + from];
      }
    }
    assert out[k] == s[e];
    TargetEndIs(out, k);
  }

  lemma TargetStaysMissingInLink(bang: bool, s: string, m: Link, started: bool)
    requires Match(bang, s) == Some(m) && !HasTarget(s, started)
    ensures !HasTarget(Substitute(bang, s), started)
  {
    hide IsSpace, Substitute, Match, TargetEnd, HasTarget, WikiTarget, IsExternal;
    MatchFacts(bang, s, m);
    PlainCharacters();
    MissingTargetIsInText(bang, s, m, started);
    var e, target := TargetEnd(s), LinkTarget(s, m);
    var rest := Substitute(false, s[m.end + 1..]);
    SubstituteLink(bang, s, m);
    if IsExternal(target) {
      assert s[..m.end + 1] == s[0..e + 1] + s[e + 1..m.end + 1];
      TargetEndShifted("", s, 0, e, s[e + 1..m.end + 1] + rest);
      assert Substitute(bang, s) == "" + s[0..e + 1] + (s[e + 1..m.end + 1] + rest);
    } else {
      WikiTargetCharacters(target);
      var head := "[[" + WikiTarget(target) + "|";
      var tail := s[e + 1..m.close] + "]]" + rest;
      TargetEndShifted(head, s, 1, e, tail);
      assert LinkText(s, m) == s[1..e + 1] + s[e + 1..m.close];
      assert Substitute(bang, s) == head + s[1..e + 1] + tail;
    }
  }

  /** A character that closes nothing is skipped when looking for a link. */
  lemma LinkAfterCharacter(s: string, started: bool)
    requires s != "" && s[0] != ']'
    ensures HasLink(s, started) <==> HasLink(s[1..], true)
  {
    assert BracketEnd(s) == 1 + BracketEnd(s[1..]);
    assert BracketEnd(s) + 1 >= |s| || s[BracketEnd(s) + 2..] == s[1..][BracketEnd(s[1..]) + 2..];
  }

  lemma LinkAtBracket(s: string, started: bool)
    requires s != "" && s[0] == ']'
    ensures HasLink(s, started) <==> started && |s| > 1 && s[1] == '(' && HasTarget(s[2..], false)
  {
  }

  lemma NoLinkStartsWith(bang: bool, s: string, started: bool)
    requires s != "" && s[0] != ']' && !HasLink(s, started)
    ensures Match(bang, s).None?
  {
    LinkAfterCharacter(s, started);
  }

  /** Where "[" cannot complete a link before the substitution, it cannot after it: no link forms across replaced parts. */
  lemma {:induction false} LinkStaysMissing(bang: bool, s: string, started: bool)
    requires !HasLink(s, started)
    ensures !HasLink(Substitute(bang, s), started)
    decreases |s|
  {
    hide HasLink, HasTarget, Substitute, IsSpace;
    var out := Substitute(bang, s);
    if s == "" {
      NothingHasNoLink(bang, started);
    } else if s[0] == ']' {
      LinkAtBracket(s, started);
      SubstituteCharacter(bang, s);
      var rest := Substitute(false, s[1..]);
      LinkAtBracket(out, started);
      if |s| > 1 {
        FirstCharacter(false, s[1..]);
        if s[1] == '(' && started {
          SubstituteCharacter(false, s[1..]);
          assert s[1..][1..] == s[2..];
          TargetStaysMissing(false, s[2..], false);
          assert out[2..] == rest[1..];
        }
      } else {
        NothingHasNoLink(false, started);
        assert s[1..] == "";
      }
    } else {
      NoLinkStartsWith(bang, s, started);
      SubstituteCharacter(bang, s);
      LinkAfterCharacter(s, started);
      LinkStaysMissing(s[0] == '!', s[1..], true);
      LinkAfterCharacter(out, started);
    }
  }

  lemma NothingHasNoLink(bang: bool, started: bool)
    ensures Substitute(bang, "") == "" && !HasLink("", started)
  {
  }

  /** No link starts inside a rewritten block. */
  lemma {:induction false} BlockIsInert(bang: bool, q: string, rest: string)
    requires NoOpening(q)
    ensures Substitute(bang, q + "]]" + rest) == q + "]]" + Substitute(false, rest)
    decreases |q|
  {
    hide Substitute, HasLink;
    var s := q + "]]" + rest;
    if q == "" {
      var t := "]" + rest;
      assert s == "]" + t && s[1..] == t && t[1..] == rest;
      SubstituteCharacter(bang, s);
      SubstituteCharacter(false, t);
      assert "]" + ("]" + Substitute(false, rest)) == "]]" + Substitute(false, rest);
    } else {
      var q' := q[1..];
      assert s[1..] == q' + "]]" + rest;
      if q[0] == '[' && !bang {
        BlockCompletesNoLink(q', rest);
      }
      SubstituteCharacter(bang, s);
      BlockIsInert(q[0] == '!', q', rest);
      assert [q[0]] + (q' + "]]" + Substitute(false, rest)) == q + "]]" + Substitute(false, rest);
    }
  }

  lemma BlockCompletesNoLink(q: string, rest: string)
    requires NoOpening(q)
    ensures !HasLink(q + "]]" + rest, false)
  {
    hide BracketEnd, IsSpace;
    var s := q + "]]" + rest;
    var j := BracketEnd(s);
    assert s[|q|] == ']' && s[|q| + 1] == ']';
    assert j <= |q|;
    if j < |q| - 1 {
      assert s[j] == q[j] && s[j + 1] == q[j + 1];
    }
  }

  /** A link is recognised by its own characters, whatever follows it. */
  lemma MatchPrefix(s: string, m: Link, r: string)
    requires Match(false, s) == Some(m)
    ensures Match(false, s[..m.end + 1] + r) == Some(m)
  {
    hide IsSpace, BracketEnd, TargetEnd;
    MatchFacts(false, s, m);
    var t := s[..m.end + 1] + r;
    assert forall i :: 0 <= i <= m.end ==> t[i] == s[i];
    BracketEndIs(t[1..], m.close - 1);
    var u := t[m.close + 2..];
    assert forall i :: 0 <= i <= m.end - m.close - 2 ==> u[i] == s[i + m.close + 2];
    TargetEndIs(u, m.end - m.close - 2);
    assert t[1..][m.close - 1 + 2..] == u;
  }

  /** A bracket in front of y starts no link, whatever follows y. */
  predicate Refused(y: string) {
    var j := BracketEnd(y);
    && j < |y|
    && (j == 0 || (j + 1 < |y| && (y[j + 1] == '(' ==> TargetEnd(y[j + 2..]) < |y| - j - 2 && !HasTarget(y[j + 2..], false))))
  }

  lemma RefusedConcat(y: string, z: string)
    requires Refused(y)
    ensures !HasLink(y + z, false)
  {
    hide IsSpace, TargetEnd, BracketEnd, EndsTarget;
    var j := BracketEnd(y);
    BracketConcat(y, z);
    if j > 0 {
      assert (y + z)[j + 2..] == y[j + 2..] + z;
      TargetConcat(y[j + 2..], z);
    }
  }

  lemma CharacterConcat(bang: bool, x: string, z: string)
    requires x != "" && Match(bang, x).None? && (x[0] == '[' && !bang ==> Refused(x[1..]))
    ensures Match(bang, x + z).None? && (x + z)[1..] == x[1..] + z
  {
    hide HasLink, Refused;
    assert (x + z)[1..] == x[1..] + z;
    if x[0] == '[' && !bang {
      RefusedConcat(x[1..], z);
    }
  }

  lemma LinkConcat(bang: bool, x: string, m: Link, z: string)
    requires Match(bang, x) == Some(m)
    ensures Match(bang, x + z) == Some(m) && Rewrite(x + z, m) == Rewrite(x, m)
    ensures (x + z)[m.end + 1..] == x[m.end + 1..] + z
  {
    hide IsExternal, WikiTarget, HasLink, Match;
    var k := m.end + 1;
    SlicesBefore(x, z, k);
    NoBang(bang, x);
    MatchPrefix(x, m, x[k..] + z);
    NoBang(bang, x + z);
    LinkSlicesBefore(x, z, m);
  }

  lemma SlicesBefore(x: string, z: string, k: nat)
    requires k <= |x|
    ensures x + z == x[..k] + (x[k..] + z) && (x + z)[..k] == x[..k] && (x + z)[k..] == x[k..] + z
  {
  }

  lemma LinkSlicesBefore(x: string, z: string, m: Link)
    requires 1 < m.close < m.end < |x| && m.end > m.close + 2
    ensures LinkTarget(x + z, m) == LinkTarget(x, m) && LinkText(x + z, m) == LinkText(x, m)
  {
  }

  lemma NoBang(bang: bool, s: string)
    ensures Match(bang, s).Some? ==> !bang
    ensures !bang ==> Match(bang, s) == Match(false, s)
  {
  }

  /** An external link is met again by a second pass and kept again. */
  lemma ExternalLinkIsKept(s: string, m: Link, rest: string)
    requires Match(false, s) == Some(m) && IsExternal(LinkTarget(s, m))
    ensures Substitute(false, s[..m.end + 1] + rest) == s[..m.end + 1] + Substitute(false, rest)
  {
    hide Substitute, IsExternal, Match;
    var out := s[..m.end + 1] + rest;
    MatchPrefix(s, m, rest);
    SubstituteLink(false, out, m);
    assert LinkTarget(out, m) == LinkTarget(s, m);
    assert out[m.end + 1..] == rest && out[..m.end + 1] == s[..m.end + 1];
  }

  lemma RewrittenBlockHasNoOpening(s: string, m: Link)
    requires Match(false, s) == Some(m) && NoOpening(WikiTarget(LinkTarget(s, m)))
    ensures NoOpening("[[" + WikiTarget(LinkTarget(s, m)) + "|" + LinkText(s, m))
  {
    hide WikiTarget, Match, IsSpace;
    MatchFacts(false, s, m);
    var w, text := WikiTarget(LinkTarget(s, m)), LinkText(s, m);
    var q := "[[" + w + "|" + text;
    assert forall i :: 0 <= i < |text| ==> text[i] == s[i + 1];
    assert q[3 + |w|..] == text;
    assert forall i :: 3 + |w| <= i < |q| ==> q[i] == text[i - 3 - |w|];
    forall i | 0 <= i < |q| - 1 && q[i] == ']'
      ensures q[i + 1] != '('
    {
      if 2 <= i < 2 + |w| {
        assert q[i] == w[i - 2];
        if i + 1 < 2 + |w| {
          assert q[i + 1] == w[i - 1];
        } else {
          assert q[i + 1] == '|';
        }
      }
    }
  }

  /** On one line the substitution is idempotent, provided no rewritten target contains "](". */
  lemma {:induction false} SubstituteIsIdempotent(bang: bool, s: string)
    requires Clean(bang, s)
    ensures Substitute(bang, Substitute(bang, s)) == Substitute(bang, s)
    decreases |s|
  {
    hide Substitute, IsSpace, HasLink, WikiTarget, IsExternal;
    var out := Substitute(bang, s);
    if s == "" {
      NothingHasNoLink(bang, false);
    } else if Match(bang, s).Some? {
      var m := Match(bang, s).value;
      var rest := Substitute(false, s[m.end + 1..]);
      SubstituteIsIdempotent(false, s[m.end + 1..]);
      MatchFacts(bang, s, m);
      SubstituteLink(bang, s, m);
      if IsExternal(LinkTarget(s, m)) {
        ExternalLinkIsKept(s, m, rest);
      } else {
        var q := "[[" + WikiTarget(LinkTarget(s, m)) + "|" + LinkText(s, m);
        RewrittenBlockHasNoOpening(s, m);
        BlockIsInert(bang, q, rest);
        assert out == q + "]]" + rest;
      }
    } else {
      var rest := Substitute(s[0] == '!', s[1..]);
      SubstituteIsIdempotent(s[0] == '!', s[1..]);
      SubstituteCharacter(bang, s);
      assert out[1..] == rest;
      if s[0] == '[' && !bang {
        LinkStaysMissing(s[0] == '!', s[1..], false);
      }
      SubstituteCharacter(bang, out);
    }
  }
}
