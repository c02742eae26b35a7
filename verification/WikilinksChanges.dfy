/** Rewriting a link always changes the text: a rewritten block is never the link it came from. */
module WikilinksChanges {
  import opened Options
  import opened Text
  import opened Wikilinks
  import opened WikilinksProperties

  lemma {:induction false} HashAtIs(s: string)
    ensures forall i :: 0 <= i < HashAt(s) ==> s[i] != '#'
    ensures HashAt(s) < |s| ==> s[HashAt(s)] == '#'
  {
    if s != "" && s[0] != '#' {
      HashAtIs(s[1..]);
    }
  }

  /** A text with period p whose first p characters hold one closing bracket never has two of them in a row. */
  lemma {:induction false} NoTwoBrackets(s: string, p: nat, at: nat, i: nat)
    requires 1 < p && i + 1 < |s|
    requires forall k :: p <= k < |s| ==> s[k] == s[k - p]
    requires forall k :: 0 <= k < p && k < |s| && s[k] == ']' ==> k == at
    ensures s[i] != ']' || s[i + 1] != ']'
    decreases i
  {
    if i >= p {
      assert s[i] == s[i - p] && s[i + 1] == s[i + 1 - p];
      NoTwoBrackets(s, p, at, i - p);
    } else if i + 1 == p {
      assert s[p] == s[0];
    }
  }

  /** The block of a link, character by character. */
  lemma BlockCharacters(s: string, m: Link, rest: string)
    requires Match(false, s) == Some(m) && !IsExternal(LinkTarget(s, m))
    ensures var t, w := WikiTarget(LinkTarget(s, m)), Rewrite(s, m) + rest;
            && |w| >= |t| + m.close + 4
            && (forall k :: 0 <= k < |t| ==> w[2 + k] == t[k])
            && w[2 + |t|] == '|'
            && (forall i :: 2 + |t| < i < 2 + |t| + m.close ==> w[i] != ']')
            && w[|t| + m.close + 2] == ']' && w[|t| + m.close + 3] == ']'
  {
    hide WikiTarget, IsExternal, IsSpace, HasLink;
    var t := WikiTarget(LinkTarget(s, m));
    var w := "[[" + t + "|" + LinkText(s, m) + "]]" + rest;
    assert Rewrite(s, m) + rest == w;
    assert w[2 + |t|] == '|';
    assert LinkText(s, m) == s[1..m.close];
    MatchFacts(false, s, m);
    forall i | 2 + |t| < i < 2 + |t| + m.close
      ensures w[i] != ']'
    {
      assert w[i] == LinkText(s, m)[i - 3 - |t|] == s[i - 2 - |t|];
    }
  }

  /** A wiki target is the target, or lacks ".md" before the first '#', or at the end. */
  lemma WikiTargetShape(target: string)
    ensures var h, t := HashAt(target), WikiTarget(target);
            || t == target
            || (&& |t| + 3 == |target| && 3 <= h
                && target[h - 3] == '.' && target[h - 2] != ']' && target[h - 1] != ']'
                && (forall k :: 0 <= k < h - 3 ==> t[k] == target[k])
                && (forall k :: h - 3 <= k < |t| ==> t[k] == target[k + 3]))
  {
  }

  /**
   * A shortened target t whose text overlaps with the target it comes from, at distance c: the target then repeats
   * itself, and cannot end like a block.
   */
  lemma OverlapIsPeriodic(target: string, t: string, h: nat, c: nat)
    requires |t| + 3 == |target| && 3 <= h < |target| && target[h] == '#' && forall k :: 0 <= k < h ==> target[k] != '#'
    requires target[h - 3] == '.' && target[h - 2] != ']' && target[h - 1] != ']'
    requires forall k :: 0 <= k < h - 3 ==> t[k] == target[k]
    requires forall k :: h - 3 <= k < |t| ==> t[k] == target[k + 3]
    requires 2 <= c && c - 1 < |t| && t[c - 2] == ']' && t[c - 1] == '(' && forall k :: 0 <= k < c - 2 ==> t[k] != ']'
    requires forall k :: c <= k < |t| ==> t[k] == target[k - c]
    ensures target[|t|] != ']' || target[|t| + 1] != ']'
  {
    assert t[h - 3] == '#';
    assert h - 3 < c;
    forall i | c + 3 <= i < |target|
      ensures target[i] == target[i - (c + 3)]
    {
      assert t[i - 3] == target[i];
    }
    forall i | 0 <= i < c + 3 && i < |target| && target[i] == ']'
      ensures i == c + 1
    {
      if i >= h {
        assert t[i - 3] == target[i];
      }
    }
    NoTwoBrackets(target, c + 3, c + 1, |t|);
  }

  /** A link that reads like its block, with t for the target, up to the closing brackets lacks those. */
  lemma LinkIsNotItsBlock(s: string, c: nat, target: string, t: string, h: nat)
    requires 1 < c && |s| > c + 2 + |target| && |s| >= |t| + c + 4
    // the link
    requires s[c] == ']' && s[c + 1] == '(' && s[c + 2 + |target|] == ')'
    requires forall i :: 1 <= i < c ==> s[i] != ']'
    requires forall i :: 0 <= i < |target| ==> target[i] == s[c + 2 + i]
    // the block
    requires forall k :: 0 <= k < |t| ==> s[2 + k] == t[k]
    requires s[2 + |t|] == '|'
    requires forall i :: 2 + |t| < i < 2 + |t| + c ==> s[i] != ']'
    // how the targets differ
    requires |t| + 3 == |target| && 3 <= h <= |target|
    requires forall k :: 0 <= k < h ==> target[k] != '#'
    requires h < |target| ==> target[h] == '#'
    requires target[h - 3] == '.' && target[h - 2] != ']' && target[h - 1] != ']'
    requires forall k :: 0 <= k < h - 3 ==> t[k] == target[k]
    requires forall k :: h - 3 <= k < |t| ==> t[k] == target[k + 3]
    ensures s[|t| + c + 2] != ']' || s[|t| + c + 3] != ']'
  {
    assert target[|t|] == s[c + 2 + |t|] && target[|t| + 1] == s[c + 2 + (|t| + 1)];
    if h == |target| {
      return;
    }
    assert c <= 2 + |t|;
    assert t[c - 2] == ']' && t[c - 1] == '(';
    forall k | 0 <= k < c - 2
      ensures t[k] != ']'
    {
      assert s[2 + k] == t[k];
    }
    forall k | c <= k < |t|
      ensures t[k] == target[k - c]
    {
      assert s[2 + k] == t[k] && target[k - c] == s[c + 2 + (k - c)];
    }
    OverlapIsPeriodic(target, t, h, c);
  }

  /** Whatever follows the block, it does not read like the text before. */
  lemma RewritingChanges(s: string, m: Link, rest: string)
    requires Match(false, s) == Some(m) && !IsExternal(LinkTarget(s, m))
    ensures Rewrite(s, m) + rest != s
  {
    hide WikiTarget, IsExternal, EndsTarget, Rewrite, Match, HashAt, LinkText;
    if Rewrite(s, m) + rest == s {
      var target := LinkTarget(s, m);
      MatchFacts(false, s, m);
      BlockCharacters(s, m, rest);
      WikiTargetShape(target);
      HashAtIs(target);
      assert s[m.close + 2 + |target|] == ')';
      if WikiTarget(target) != target {
        LinkIsNotItsBlock(s, m.close, target, WikiTarget(target), HashAt(target));
      }
    }
  }
}
