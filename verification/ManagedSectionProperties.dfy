/** Rewriting the section, and removing it again, for every file text and every version. */
module ManagedSectionProperties {
  import opened Options
  import opened Text
  import opened ManagedSection

  /** A marker opens with '<', which occurs nowhere else in it, and stays on one line. */
  predicate IsMarker(t: string) {
    |t| > 1 && t[0] == '<' && forall i :: 0 < i < |t| ==> t[i] != '<' && t[i] != '\n'
  }

  lemma StartIsMarker()
    ensures IsMarker(START)
  {
  }

  lemma EndIsMarker()
    ensures IsMarker(END)
  {
  }

  lemma CharacterOf(s: string, t: string, k: nat, j: nat)
    requires OccursAt(s, t, k) && j < |t|
    ensures s[k + j] == t[j]
  {
    assert s[k..k + |t|][j] == s[k + j];
  }

  lemma OccursBySlice(s: string, t: string, k: nat, x: string, d: nat)
    requires OccursAt(s, t, k) && d <= k && k + |t| <= d + |x| && d + |x| <= |s| && s[d..d + |x|] == x
    ensures OccursAt(x, t, k - d) && Contains(x, t)
  {
    forall j | 0 <= j < |t|
      ensures x[k - d + j] == t[j]
    {
      CharacterOf(s, t, k, j);
      assert s[d..d + |x|][k - d + j] == s[k + j];
    }
    assert OccursAt(x, t, k - d);
  }

  /** No occurrence of a marker straddles the beginning of another one: it lies in the text before. */
  lemma NoStraddle(x: string, t: string, y: string, k: nat)
    requires IsMarker(t) && k < |x| && OccursAt(x + t + y, t, k)
    ensures Contains(x, t)
  {
    var s := x + t + y;
    assert s[|x|] == t[0];
    if |x| - k < |t| {
      CharacterOf(s, t, k, |x| - k);
    }
    assert s[0..0 + |x|] == x;
    OccursBySlice(s, t, k, x, 0);
  }

  /** The first occurrence after text that has none is the one appended there. */
  lemma FirstOccurrence(x: string, t: string, y: string, i: nat)
    requires IsMarker(t) && !Contains(x, t) && i <= |x|
    ensures IndexFrom(x + t + y, t, i) == Some(|x|)
  {
    var s := x + t + y;
    assert s[|x|..|x| + |t|] == t;
    var r := IndexFrom(s, t, i);
    assert OccursAt(s, t, |x|);
    assert r.Some? && r.value <= |x|;
    if r.value < |x| {
      NoStraddle(x, t, y, r.value);
    }
  }

  /** A text on one line cannot occur across a line break. */
  lemma NotAcrossLines(x: string, y: string, t: string)
    requires !Contains(x, t) && !Contains(y, t) && t != ""
    requires forall i :: 0 <= i < |t| ==> t[i] != '\n'
    ensures !Contains(x + "\n" + y, t)
  {
    var s := x + "\n" + y;
    assert s[|x|] == '\n';
    assert s[0..0 + |x|] == x && s[|x| + 1..|x| + 1 + |y|] == y;
    forall k | 0 <= k <= |s| && OccursAt(s, t, k)
      ensures false
    {
      if k <= |x| < k + |t| {
        CharacterOf(s, t, k, |x| - k);
      } else if k < |x| {
        OccursBySlice(s, t, k, x, 0);
      } else {
        OccursBySlice(s, t, k, y, |x| + 1);
      }
    }
  }

  /* ----- where the block ends ----- */

  /** What a caller can check of a version: together with the comment close it does not read as the end marker. */
  predicate VersionOk(version: string) {
    !Contains(version + COMMENT_CLOSE, END)
  }

  lemma StartHasNoEnd()
    ensures !Contains(START, END)
  {
    assert |START| == 40 && |END| == 38;
    assert START[28] == 's' && END[28] == 'e';
    StartIsMarker();
    forall k | 0 <= k <= |START| && OccursAt(START, END, k)
      ensures false
    {
      CharacterOf(START, END, k, 0);
      CharacterOf(START, END, k, 28);
    }
  }

  lemma VersionLineHasNoEnd(version: string)
    ensures Contains(VERSION_LINE + (version + COMMENT_CLOSE), END) <==> !VersionOk(version)
  {
    hide OccursAt, VERSION_LINE, END;
    var rest := version + COMMENT_CLOSE;
    var line := VERSION_LINE + rest;
    forall k | 0 <= k <= |line| && OccursAt(line, END, k)
      ensures Contains(rest, END)
    {
      EndIsBehindVersionLine(rest, k);
    }
    forall k | 0 <= k <= |rest| && OccursAt(rest, END, k)
      ensures OccursAt(line, END, |VERSION_LINE| + k)
    {
      OccursInside(VERSION_LINE, rest, "", END, k);
      assert line + "" == line;
    }
  }

  /** No end marker begins in the words before the version. */
  lemma EndIsBehindVersionLine(rest: string, k: nat)
    requires OccursAt(VERSION_LINE + rest, END, k)
    ensures Contains(rest, END)
  {
    hide OccursAt, Contains;
    var line := VERSION_LINE + rest;
    CharacterOf(line, END, k, 0);
    CharacterOf(line, END, k, 5);
    assert line[5] == VERSION_LINE[5] == 'l' && END[5] == 'L';
    assert forall i :: 0 < i < |VERSION_LINE| ==> VERSION_LINE[i] != '<';
    assert forall i :: 0 <= i < |VERSION_LINE| ==> line[i] == VERSION_LINE[i];
    assert line[|VERSION_LINE|..|VERSION_LINE| + |rest|] == rest;
    EndFits(line, k);
    OccursBySlice(line, END, k, rest, |VERSION_LINE|);
  }

  lemma EndFits(line: string, k: nat)
    requires OccursAt(line, END, k)
    ensures k + |END| <= |line|
  {
  }

  lemma OccursInside(a: string, x: string, b: string, t: string, k: nat)
    requires OccursAt(x, t, k)
    ensures OccursAt(a + x + b, t, |a| + k)
  {
    var s := a + x + b;
    forall j | 0 <= j < |t|
      ensures s[|a| + k + j] == t[j]
    {
      CharacterOf(x, t, k, j);
    }
    assert s[|a| + k..|a| + k + |t|] == t;
  }

  /** The opening of the block contains the end marker exactly if the version line does. */
  lemma OpeningHasEndIff(version: string, guide: string)
    requires !Contains(guide, END)
    ensures Contains(Opening(version, guide), END) <==> !VersionOk(version)
  {
    hide Contains, OccursAt, START, END, VERSION_LINE, COMMENT_CLOSE;
    var line := VERSION_LINE + (version + COMMENT_CLOSE);
    VersionLineHasNoEnd(version);
    EndIsMarker();
    if VersionOk(version) {
      StartHasNoEnd();
      NotAcrossLines(START, line, END);
      NotAcrossLines(START + "\n" + line, guide, END);
    } else {
      ContainsInside(START + "\n", line, "\n" + guide, END);
      assert START + "\n" + line + ("\n" + guide) == Opening(version, guide);
    }
  }

  lemma ContainsInside(a: string, x: string, b: string, t: string)
    requires Contains(x, t)
    ensures Contains(a + x + b, t)
  {
    var k :| 0 <= k <= |x| && OccursAt(x, t, k);
    OccursInside(a, x, b, t, k);
  }

  /** Looking from |a| on, the text before it does not matter. */
  lemma OccursShift(a: string, s: string, t: string, i: nat)
    ensures OccursAt(a + s, t, |a| + i) <==> OccursAt(s, t, i)
  {
    if i + |t| <= |s| {
      assert (a + s)[|a| + i..|a| + i + |t|] == s[i..i + |t|];
    }
  }

  lemma {:induction false} IndexShift(a: string, s: string, t: string, i: nat)
    ensures IndexFrom(a + s, t, |a| + i) == match IndexFrom(s, t, i) case Some(k) => Some(|a| + k) case None => None
    decreases |s| + 1 - i
  {
    hide OccursAt;
    OccursShift(a, s, t, i);
    if !OccursAt(s, t, i) && i < |s| {
      IndexShift(a, s, t, i + 1);
    }
  }

  /** The section found behind a is the whole block exactly if the version is fine; otherwise part of it stays behind. */
  lemma BlockEnd(a: string, version: string, guide: string, b: string)
    requires !Contains(guide, END)
    ensures var w := a + Block(version, guide) + b;
            |a| <= SectionEnd(w, |a|) <= |a| + |Block(version, guide)| &&
            (SectionEnd(w, |a|) == |a| + |Block(version, guide)| <==> VersionOk(version)) &&
            (!VersionOk(version) ==> SectionEnd(w, |a|) <= |a| + |Opening(version, guide)|)
  {
    hide Contains, Opening, START;
    var opening := Opening(version, guide);
    var s := opening + END + b;
    var w := a + Block(version, guide) + b;
    assert w == a + s;
    OpeningHasEndIff(version, guide);
    EndIsMarker();
    IndexShift(a, s, END, 0);
    if VersionOk(version) {
      FirstOccurrence(opening, END, b, 0);
    } else {
      EarlyOccurrence(opening, END, b);
    }
  }

  lemma EarlyOccurrence(x: string, t: string, y: string)
    requires Contains(x, t) && t != ""
    ensures var r := IndexFrom(x + t + y, t, 0);
            r.Some? && r.value + |t| <= |x|
  {
    var k :| 0 <= k <= |x| && OccursAt(x, t, k);
    OccursInside("", x, t + y, t, k);
    assert "" + x + (t + y) == x + t + y;
  }

  /* ----- decompositions ----- */

  lemma StartOfBlock(a: string, version: string, guide: string, b: string)
    requires !Contains(a, START)
    ensures IndexFrom(a + Block(version, guide) + b, START, 0) == Some(|a|)
  {
    hide Contains, START, END, VERSION_LINE, COMMENT_CLOSE;
    StartIsMarker();
    var rest := "\n" + (VERSION_LINE + (version + COMMENT_CLOSE)) + "\n" + guide + END + b;
    assert a + Block(version, guide) + b == a + START + rest;
    FirstOccurrence(a, START, rest, 0);
  }

  /** The text around the section, which no version influences. */
  function Around(content: string): (string, string) {
    match IndexFrom(content, START, 0)
    case Some(start) => (content[..start], content[SectionEnd(content, start)..])
    case None => (content + (if content != "" && content[|content| - 1] != '\n' then "\n" else "") + "\n", "\n")
  }

  lemma AroundHasNoStart(content: string)
    ensures !Contains(Around(content).0, START)
  {
    StartIsMarker();
    hide START;
    var a := Around(content).0;
    match IndexFrom(content, START, 0)
    case Some(start) =>
      assert "" + a + content[start..] == content;
      if Contains(a, START) {
        var k :| 0 <= k <= |a| && OccursAt(a, START, k);
        OccursInside("", a, content[start..], START, k);
      }
    case None =>
      assert !Contains(content, START);
      assert !Contains("", START);
      NotAcrossLines(content, "", START);
      assert content + "\n" + "" == content + "\n";
      NotAcrossLines(content + "\n", "", START);
      assert content + "\n" + "\n" + "" == content + "\n" + "\n";
      assert content + "" + "\n" == content + "\n";
  }

  lemma WrittenIsAround(content: string, version: string, guide: string)
    ensures Written(content, version, guide) == Around(content).0 + Block(version, guide) + Around(content).1
  {
  }

  /**
   * Writing one version over another leaves what writing the second alone leaves, for any file text, with or
   * without a section and even when its end marker is missing: exactly if the first version is fine.
   */
  lemma WriteOverWrite(content: string, v1: string, g1: string, v2: string, g2: string)
    requires !Contains(g1, END)
    ensures Written(Written(content, v1, g1), v2, g2) == Written(content, v2, g2) <==> VersionOk(v1)
  {
    hide Contains, Block, START, END, VersionOk, SectionEnd;
    var (a, b) := Around(content);
    var w := Written(content, v1, g1);
    WrittenIsAround(content, v1, g1);
    WrittenIsAround(content, v2, g2);
    AroundHasNoStart(content);
    StartOfBlock(a, v1, g1, b);
    BlockEnd(a, v1, g1, b);
    var end := SectionEnd(w, |a|);
    assert Written(w, v2, g2) == a + Block(v2, g2) + w[end..];
    assert |w[end..]| == |w| - end;
    if VersionOk(v1) {
      assert w[end..] == b;
    }
  }

  /* ----- removing the section ----- */

  /** What removing the section leaves of the text before and after it. */
  function Remainder(a: string, b: string): string {
    var rest := TrimRight(a) + "\n" + TrimLeft(b);
    if Blank(rest) then "" else rest
  }

  lemma {:induction false} TrimLeftKeeps(x: string, y: string)
    requires y != "" && !IsSpace(y[0])
    ensures |TrimLeft(x + y)| >= |y| && !Blank(TrimLeft(x + y))
    ensures exists k :: 0 <= k <= |x| && TrimLeft(x + y) == x[k..] + y
  {
    if x != "" && x[0] == '\n' {
      assert (x + y)[1..] == x[1..] + y;
      TrimLeftKeeps(x[1..], y);
      var k :| 0 <= k <= |x[1..]| && TrimLeft(x[1..] + y) == x[1..][k..] + y;
      assert x[1..][k..] == x[k + 1..];
    } else {
      assert TrimLeft(x + y) == x + y;
      assert x + y == x[0..] + y;
      assert (x + y)[|x|] == y[0];
    }
  }

  lemma {:induction false} TrimLeftLength(x: string)
    ensures |TrimLeft(x)| <= |x|
  {
    if x != "" && x[0] == '\n' {
      TrimLeftLength(x[1..]);
    }
  }

  /** Removing a written block leaves nothing of it behind exactly if the version is fine. */
  lemma StripBlock(a: string, version: string, guide: string, b: string)
    requires !Contains(a, START) && !Contains(guide, END)
    ensures Stripped(a + Block(version, guide) + b) == Remainder(a, b) <==> VersionOk(version)
  {
    hide Contains, START, VersionOk, Opening, Blank, SectionEnd;
    var w := a + Block(version, guide) + b;
    StartOfBlock(a, version, guide, b);
    BlockEnd(a, version, guide, b);
    var end := SectionEnd(w, |a|);
    assert w[..|a|] == a;
    if VersionOk(version) {
      assert w[end..] == b;
    } else {
      EndIsMarker();
      var left := w[end..|a| + |Opening(version, guide)|];
      assert w == a + Opening(version, guide) + (END + b);
      assert w[end..] == left + (END + b);
      LeftoverShows(left, b);
      TrimLeftLength(b);
      BlankConcat(TrimRight(a) + "\n", TrimLeft(w[end..]));
    }
  }

  lemma LeftoverShows(left: string, b: string)
    ensures |TrimLeft(left + (END + b))| > |b| && !Blank(TrimLeft(left + (END + b)))
  {
    var y := END + b;
    assert y[0] == '<' && |END| > 0;
    TrimLeftKeeps(left, y);
  }

  lemma BlankConcat(x: string, y: string)
    ensures Blank(x + y) <==> Blank(x) && Blank(y)
  {
    var s := x + y;
    assert forall i :: 0 <= i < |x| ==> s[i] == x[i];
    assert forall i :: 0 <= i < |y| ==> s[|x| + i] == y[i];
  }

  lemma {:induction false} TrimRightBlank(s: string)
    ensures Blank(TrimRight(s)) <==> Blank(s)
  {
    if s != "" && s[|s| - 1] == '\n' {
      TrimRightBlank(s[..|s| - 1]);
      assert s == s[..|s| - 1] + "\n";
      BlankConcat(s[..|s| - 1], "\n");
    }
  }

  /**
   * Install, then uninstall, on a text without a section: a blank text becomes empty, any other keeps everything
   * but its trailing newlines, of which one remains. This holds exactly for fine versions.
   */
  lemma StripOverWrite(content: string, version: string, guide: string)
    requires !Contains(content, START) && !Contains(guide, END)
    ensures Stripped(Written(content, version, guide)) == (if Blank(content) then "" else TrimRight(content) + "\n")
       <==> VersionOk(version)
  {
    hide Contains, START, VersionOk, Block, Stripped, IsSpace;
    NoStartIndex(content);
    var (a, b) := Around(content);
    WrittenIsAround(content, version, guide);
    AroundHasNoStart(content);
    StripBlock(a, version, guide, b);
    assert TrimLeft("\n") == TrimLeft("") == "" by {
      assert "\n"[1..] == "";
    }
    assert TrimRight(a) == TrimRight(content) by {
      if content != "" && content[|content| - 1] != '\n' {
        assert a[..|a| - 1] == content + "\n" && (content + "\n")[..|content|] == content;
      } else {
        assert a[..|a| - 1] == content;
      }
    }
    var rest := TrimRight(content) + "\n" + "";
    assert rest == TrimRight(content) + "\n";
    BlankConcat(TrimRight(content), "\n");
    assert Blank("\n") by {
      assert IsBreak('\n');
      NewlineIsSpace();
    }
    TrimRightBlank(content);
  }

  lemma NewlineIsSpace()
    ensures IsSpace('\n')
  {
  }

  lemma NoStartIndex(content: string)
    requires !Contains(content, START)
    ensures IndexFrom(content, START, 0).None?
  {
  }

  /** On a text that has a section already, a new install makes no difference to a later uninstall. */
  lemma StripAfterRewrite(content: string, version: string, guide: string)
    requires Contains(content, START) && !Contains(guide, END)
    ensures Stripped(Written(content, version, guide)) == Stripped(content) <==> VersionOk(version)
  {
    hide START, VersionOk, Block, Blank;
    AroundHasNoStart(content);
    WrittenIsAround(content, version, guide);
    StripBlock(Around(content).0, version, guide, Around(content).1);
    var k :| 0 <= k <= |content| && OccursAt(content, START, k);
    assert IndexFrom(content, START, 0).Some?;
    assert Stripped(content) == Remainder(Around(content).0, Around(content).1);
  }

  /** A version that is itself free of both markers and yet is not fine. */
  lemma MarkerFreeIsNotEnough() returns (version: string)
    ensures !Contains(version, START) && !Contains(version, END) && !VersionOk(version)
  {
    version := "<!-- LV_DCP-managed-section:end:v1";
    assert |version| < |END| < |START|;
    assert version + COMMENT_CLOSE == END;
    assert (version + COMMENT_CLOSE)[0..0 + |END|] == END;
    assert OccursAt(version + COMMENT_CLOSE, END, 0);
  }

  /* ----- the text of the file ----- */

  /** The text of a section. */
  lemma BlockText(version: string, guide: string)
    ensures Block(version, guide)
         == "<!-- LV_DCP-managed-section:start:v1 -->\n<!-- lvdcp-managed-version: " + version + " -->\n" + guide
            + "<!-- LV_DCP-managed-section:end:v1 -->"
  {
    var x, y := "<!-- LV_DCP-managed-section:start:v1 -->\n<!-- lvdcp-managed-version: ", " -->\n";
    assert START + "\n" + VERSION_LINE == x && COMMENT_CLOSE + "\n" == y;
    hide START, VERSION_LINE, COMMENT_CLOSE, END;
    assert Block(version, guide) == (START + "\n" + VERSION_LINE) + version + (COMMENT_CLOSE + "\n") + guide + END;
  }

  /** A first install puts the section behind the text, with an empty line between them. */
  lemma FirstInstall(content: string, version: string, guide: string) returns (gap: string)
    requires !Contains(content, START)
    ensures Written(content, version, guide) == content + gap + Block(version, guide) + "\n"
    ensures gap == "\n" || gap == "\n\n"
    ensures content != "" ==> |content + gap| >= 2 && (content + gap)[|content + gap| - 2..] == "\n\n"
    ensures content == "" || content[|content| - 1] == '\n' ==> gap == "\n"
  {
    NoStartIndex(content);
    hide START, Block, Contains;
    if content != "" && content[|content| - 1] != '\n' {
      gap := "\n\n";
      assert content + gap == content + "\n" + "\n";
    } else {
      gap := "\n";
      assert content + "" == content;
      assert content != "" ==> (content + gap)[|content| - 1..] == "\n\n";
    }
  }

  /** A section is replaced where it stands, exactly if its version is fine. */
  lemma SectionIsReplaced(a: string, v1: string, g1: string, b: string, v2: string, g2: string)
    requires !Contains(a, START) && !Contains(g1, END)
    ensures Written(a + Block(v1, g1) + b, v2, g2) == a + Block(v2, g2) + b <==> VersionOk(v1)
  {
    hide Contains, Block, START, END, VersionOk, SectionEnd;
    var w := a + Block(v1, g1) + b;
    StartOfBlock(a, v1, g1, b);
    BlockEnd(a, v1, g1, b);
    var end := SectionEnd(w, |a|);
    assert w[..|a|] == a;
    assert Written(w, v2, g2) == a + Block(v2, g2) + w[end..];
    assert |w[end..]| == |w| - end;
    if VersionOk(v1) {
      assert w[end..] == b;
    }
  }

  /** Without its end marker a section goes on to the end of the text. */
  lemma TruncatedSection(a: string, rest: string, version: string, guide: string)
    requires !Contains(a, START) && !Contains(START + rest, END)
    ensures Written(a + START + rest, version, guide) == a + Block(version, guide)
    ensures Stripped(a + START + rest) == Remainder(a, "")
  {
    StartIsMarker();
    FirstOccurrence(a, START, rest, 0);
    hide START, Block, END, IndexFrom, Blank;
    var w := a + START + rest;
    assert w == a + (START + rest);
    IndexShift(a, START + rest, END, 0);
    NoEndIndex(START + rest);
    assert SectionEnd(w, |a|) == |w|;
    assert w[..|a|] == a && w[|w|..] == "";
    assert a + Block(version, guide) + "" == a + Block(version, guide);
  }

  lemma NoEndIndex(s: string)
    requires !Contains(s, END)
    ensures IndexFrom(s, END, 0).None?
  {
  }

  /** Trimming takes the newlines at one end, and nothing else. */
  lemma {:induction false} TrimRightIs(s: string)
    ensures var r := TrimRight(s);
            r <= s && (forall i :: |r| <= i < |s| ==> s[i] == '\n') && (r != "" ==> r[|r| - 1] != '\n')
  {
    if s != "" && s[|s| - 1] == '\n' {
      TrimRightIs(s[..|s| - 1]);
    }
  }

  lemma {:induction false} TrimLeftIs(s: string)
    ensures var r := TrimLeft(s);
            && |r| <= |s| && s[|s| - |r|..] == r
            && (forall i :: 0 <= i < |s| - |r| ==> s[i] == '\n') && (r != "" ==> r[0] != '\n')
  {
    if s != "" && s[0] == '\n' {
      TrimLeftIs(s[1..]);
      assert s[1..][|s[1..]| - |TrimLeft(s)|..] == s[|s| - |TrimLeft(s)|..];
      assert forall i :: 1 <= i < |s| ==> s[i] == s[1..][i - 1];
    }
  }
}
