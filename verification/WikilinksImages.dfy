/** Images between other text: the look-behind protects only their own opening bracket. */
module WikilinksImages {
  import opened Options
  import opened Text
  import opened Wikilinks
  import opened WikilinksProperties
  import opened WikilinksDocuments

  /* ----- text in which no link is open at the end ----- */

  /** Every opening bracket of x that the scan meets is part of a link in x, or starts none. */
  predicate Settled(bang: bool, x: string)
    decreases |x|
  {
    if x == "" then true
    else
      match Match(bang, x)
      case Some(m) => Settled(false, x[m.end + 1..])
      case None => (x[0] == '[' && !bang ==> Refused(x[1..])) && Settled(x[0] == '!', x[1..])
  }

  /** Whether an exclamation mark comes right after x. */
  predicate EndsInBang(bang: bool, x: string) {
    if x == "" then bang else x[|x| - 1] == '!'
  }

  lemma LinkIsNoBang(bang: bool, x: string, m: Link)
    requires Match(bang, x) == Some(m)
    ensures EndsInBang(false, x[m.end + 1..]) <==> EndsInBang(bang, x)
  {
    MatchFacts(bang, x, m);
    assert m.end + 1 < |x| ==> x[m.end + 1..][|x| - m.end - 2] == x[|x| - 1];
  }

  lemma CharacterIsNoEnd(bang: bool, x: string)
    requires x != ""
    ensures EndsInBang(x[0] == '!', x[1..]) <==> EndsInBang(bang, x)
  {
  }

  lemma Joined(all: string, a: string, rest: string, b: string, c: string)
    requires all == a + rest && rest == b + c
    ensures all == a + b + c
  {
  }

  /** Settled text is substituted on its own. */
  lemma {:induction false} SubstituteSettled(bang: bool, x: string, z: string)
    requires Settled(bang, x)
    ensures Substitute(bang, x + z) == Substitute(bang, x) + Substitute(EndsInBang(bang, x), z)
    decreases |x|
  {
    hide Substitute, Match, Rewrite, Refused, EndsInBang;
    if x == "" {
      NothingBefore(bang, z);
    } else if Match(bang, x).Some? {
      var m := Match(bang, x).value;
      var tail := x[m.end + 1..];
      LinkConcat(bang, x, m, z);
      SubstituteLink(bang, x, m);
      SubstituteLink(bang, x + z, m);
      SubstituteSettled(false, tail, z);
      LinkIsNoBang(bang, x, m);
      Joined(Substitute(bang, x + z), Rewrite(x, m), Substitute(false, tail + z), Substitute(false, tail), Substitute(EndsInBang(bang, x), z));
    } else {
      var tail, next := x[1..], x[0] == '!';
      CharacterConcat(bang, x, z);
      SubstituteCharacter(bang, x);
      SubstituteCharacter(bang, x + z);
      SubstituteSettled(next, tail, z);
      CharacterIsNoEnd(bang, x);
      Joined(Substitute(bang, x + z), [x[0]], Substitute(next, tail + z), Substitute(next, tail), Substitute(EndsInBang(bang, x), z));
    }
  }

  lemma NothingBefore(bang: bool, z: string)
    ensures Substitute(bang, "" + z) == Substitute(bang, "") + Substitute(EndsInBang(bang, ""), z)
  {
    NothingHasNoLink(bang, false);
    assert "" + z == z;
  }

  /* ----- the image ----- */

  /** No opening bracket in the text can start a link of its own. */
  predicate PlainText(bang: bool, a: string)
    decreases |a|
  {
    a == "" || (!(a[0] == '[' && !bang && |a| > 1) && PlainText(a[0] == '!', a[1..]))
  }

  /** What follows the alternative text of an image. */
  function ImageTail(src: string): string {
    "](" + (src + ")")
  }

  /** An image source that opens no link running on behind the image. */
  predicate ImageSource(src: string) {
    src != "" && (forall i :: 0 <= i < |src| ==> !EndsTarget(src[i])) && Settled(false, src + ")")
  }

  /** Which images the scan leaves alone. */
  predicate Spared(bang: bool, alt: string, src: string) {
    if PlainText(bang, alt) then OnlyExternal(false, src + ")") else IsExternal(src)
  }

  /** A bracket inside the alternative text makes the rest of the image a link. */
  lemma InnerLink(a: string, src: string)
    requires |a| > 1 && a[0] == '[' && ImageSource(src)
    requires forall i :: 0 <= i < |a| ==> a[i] != ']'
    ensures var s := a + ImageTail(src); Settled(false, s) && (OnlyExternal(false, s) <==> IsExternal(src))
  {
    hide IsSpace, HasLink, IsExternal, Match, OnlyExternal;
    var s := a + ImageTail(src);
    var m := Link(|a|, |a| + 2 + |src|);
    assert s[|a|] == ']' && s[|a| + 1] == '(' && s[m.end] == ')';
    assert forall i :: |a| + 2 <= i < m.end ==> s[i] == src[i - |a| - 2];
    LinkAt(s, m.close, m.end);
    ScanUnfolds(false, s);
    assert s[m.end + 1..] == "";
    ScanUnfolds(false, "");
    assert LinkTarget(s, m) == src;
  }

  lemma NoInnerLink(bang: bool, a: string, src: string)
    requires a != "" && !(a[0] == '[' && !bang && |a| > 1)
    ensures var s := a + ImageTail(src);
            Match(bang, s).None? && s[1..] == a[1..] + ImageTail(src) && (s[0] == '[' && !bang ==> Refused(s[1..]))
  {
    var s := a + ImageTail(src);
    assert s[1..] == a[1..] + ImageTail(src);
    if |a| == 1 {
      assert s[1..] == ImageTail(src);
      LinkAtBracket(s[1..], false);
    }
  }

  lemma ScanTail(bang: bool, src: string)
    requires ImageSource(src)
    ensures Settled(bang, ImageTail(src)) && (OnlyExternal(bang, ImageTail(src)) <==> OnlyExternal(false, src + ")"))
  {
    hide HasLink, OnlyExternal;
    var s := ImageTail(src);
    var t := s[1..];
    assert t == "(" + (src + ")") && t[1..] == src + ")";
    ScanUnfolds(bang, s);
    ScanUnfolds(false, t);
  }

  lemma {:induction false} ScanImage(bang: bool, a: string, src: string)
    requires forall i :: 0 <= i < |a| ==> a[i] != ']'
    requires ImageSource(src)
    ensures Settled(bang, a + ImageTail(src)) && (OnlyExternal(bang, a + ImageTail(src)) <==> Spared(bang, a, src))
    decreases |a|
  {
    hide IsSpace, HasLink, IsExternal, Match, OnlyExternal, ImageSource, Refused;
    var s := a + ImageTail(src);
    if a == "" {
      assert s == ImageTail(src);
      ScanTail(bang, src);
    } else if a[0] == '[' && !bang && |a| > 1 {
      InnerLink(a, src);
    } else {
      NoInnerLink(bang, a, src);
      ScanUnfolds(bang, s);
      ScanImage(a[0] == '!', a[1..], src);
    }
  }

  /** An exclamation mark and the bracket after it are passed over. */
  lemma SkipImageOpening(bang: bool, inner: string)
    requires Settled(false, inner)
    ensures Settled(bang, "![" + inner) && (OnlyExternal(bang, "![" + inner) <==> OnlyExternal(false, inner))
  {
    hide HasLink, OnlyExternal;
    var bracket := "[" + inner;
    var image := "!" + bracket;
    assert image == "![" + inner;
    assert image[1..] == bracket && bracket[1..] == inner;
    ScanUnfolds(bang, image);
    ScanUnfolds(true, bracket);
  }

  /**
   * An image behind settled text is left alone exactly if no bracket in its alternative text starts a link and its
   * source holds none but external links, or such a bracket makes a link of it whose target is external.
   */
  lemma ImageIsLeftAlone(pre: string, alt: string, src: string, rest: string)
    requires Settled(false, pre) && ImageSource(src)
    requires forall i :: 0 <= i < |alt| ==> alt[i] != ']'
    ensures var image := "![" + (alt + ImageTail(src));
            ConvertLine(pre + (image + rest)) == ConvertLine(pre) + (image + ConvertLine(rest)) <==> Spared(false, alt, src)
  {
    hide Substitute, IsSpace, OnlyExternal, Spared, ImageSource, Settled;
    var image := "![" + (alt + ImageTail(src));
    var bang := EndsInBang(false, pre);
    assert image[|image| - 1] == ')';
    ScanImage(false, alt, src);
    SkipImageOpening(bang, alt + ImageTail(src));
    UnchangedIffOnlyExternal(bang, image);
    SubstituteSettled(false, pre, image + rest);
    SubstituteSettled(bang, image, rest);
    SameMiddle(ConvertLine(pre), Substitute(bang, image), image, ConvertLine(rest));
  }

  lemma SameMiddle(a: string, x: string, y: string, b: string)
    ensures a + (x + b) == a + (y + b) <==> x == y
  {
    var u, v := a + (x + b), a + (y + b);
    if u == v {
      assert |x| == |y|;
      assert u[|a|..|a| + |x|] == x && v[|a|..|a| + |y|] == y;
    }
  }
}
