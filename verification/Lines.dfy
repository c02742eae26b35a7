/** Lines as str.splitlines produces them, and splitting as the inverse of joining. */
module Lines {
  import opened Text

  predicate NoBreaks(s: string) {
    forall i :: 0 <= i < |s| ==> !IsBreak(s[i])
  }

  /** What may end a line. */
  predicate IsTerminator(t: string) {
    t == "" || t == "\r\n" || (|t| == 1 && IsBreak(t[0]))
  }

  predicate EndsCrLf(line: string) {
    |line| >= 2 && line[|line| - 2] == '\r' && line[|line| - 1] == '\n'
  }

  function Terminator(line: string): string {
    if EndsCrLf(line) then "\r\n"
    else if line != "" && IsBreak(line[|line| - 1]) then line[|line| - 1..]
    else ""
  }

  function Body(line: string): string {
    line[..|line| - |Terminator(line)|]
  }

  lemma BodyAndTerminator(line: string)
    ensures line == Body(line) + Terminator(line) && IsTerminator(Terminator(line))
  {
  }

  lemma BodyOf(body: string, t: string)
    requires NoBreaks(body) && IsTerminator(t)
    ensures Body(body + t) == body && Terminator(body + t) == t
  {
    var line := body + t;
    if t == "" {
      assert line == body;
    } else if |t| == 1 {
      assert line[|line| - 1..] == t;
    }
  }

  /** These lines are what splitting their concatenation yields. */
  predicate WellSplit(lines: seq<string>) {
    && (forall i :: 0 <= i < |lines| ==> lines[i] != "" && NoBreaks(Body(lines[i])))
    && (forall i :: 0 <= i < |lines| - 1 ==>
          Terminator(lines[i]) != "" && !(Terminator(lines[i]) == "\r" && lines[i + 1][0] == '\n'))
  }

  lemma {:induction false} LineEndOf(body: string, t: string, rest: string)
    requires NoBreaks(body) && IsTerminator(t) && body + t != ""
    requires (t == "" ==> rest == "") && !(t == "\r" && rest != "" && rest[0] == '\n')
    ensures body + t + rest != "" && LineEnd(body + t + rest) == |body + t|
  {
    var s := body + t + rest;
    if body == "" {
      assert s == t + rest;
    } else if |s| == 1 {
    } else {
      assert s[1..] == body[1..] + t + rest;
      assert s[0] == body[0];
      LineEndOf(body[1..], t, rest);
    }
  }

  lemma {:induction false} SplitOfJoin(lines: seq<string>)
    requires WellSplit(lines)
    ensures SplitLines(Join(lines)) == lines
  {
    if lines != [] {
      var rest := Join(lines[1..]);
      var body, t := Body(lines[0]), Terminator(lines[0]);
      BodyAndTerminator(lines[0]);
      if |lines| == 1 {
        assert rest == "";
      } else {
        assert rest[0] == lines[1][0];
      }
      LineEndOf(body, t, rest);
      assert Join(lines) == body + t + rest;
      assert Join(lines)[..|body + t|] == lines[0];
      assert Join(lines)[|body + t|..] == rest;
      assert WellSplit(lines[1..]) by {
        assert forall i :: 0 <= i < |lines[1..]| ==> lines[1..][i] == lines[i + 1];
      }
      SplitOfJoin(lines[1..]);
    }
  }

  /** Where a line ends, and that the text goes on after it only if the line has a terminator. */
  predicate IsFirstLine(s: string, e: nat) {
    && 1 <= e <= |s|
    && NoBreaks(Body(s[..e]))
    && (e < |s| ==> Terminator(s[..e]) != "" && !(Terminator(s[..e]) == "\r" && s[e] == '\n'))
  }

  lemma FirstLineStep(s: string)
    requires |s| > 1 && !IsBreak(s[0]) && IsFirstLine(s[1..], LineEnd(s[1..]))
    ensures IsFirstLine(s, 1 + LineEnd(s[1..]))
  {
    hide IsBreak, LineEnd, Body, Terminator, IsTerminator;
    var tail := s[1..];
    var e := LineEnd(tail);
    var l := tail[..e];
    BodyAndTerminator(l);
    assert s[..1 + e] == ([s[0]] + Body(l)) + Terminator(l);
    BodyOf([s[0]] + Body(l), Terminator(l));
    assert e < |tail| ==> s[1 + e] == tail[e];
  }

  lemma {:induction false} FirstLine(s: string)
    requires s != ""
    ensures IsFirstLine(s, LineEnd(s))
  {
    var e := LineEnd(s);
    if s[0] == '\r' && |s| > 1 && s[1] == '\n' {
      assert s[..e] == "" + "\r\n";
      BodyOf("", "\r\n");
    } else if IsBreak(s[0]) {
      assert s[..e] == "" + [s[0]];
      BodyOf("", [s[0]]);
    } else if |s| == 1 {
      assert s[..e] == s + "";
      BodyOf(s, "");
    } else {
      FirstLine(s[1..]);
      FirstLineStep(s);
    }
  }

  lemma WellSplitCons(line: string, lines: seq<string>)
    requires line != "" && NoBreaks(Body(line)) && WellSplit(lines)
    requires lines != [] ==> Terminator(line) != "" && !(Terminator(line) == "\r" && lines[0][0] == '\n')
    ensures WellSplit([line] + lines)
  {
    hide NoBreaks, Terminator, Body;
    var all := [line] + lines;
    assert forall i :: 0 < i < |all| ==> all[i] == lines[i - 1];
  }

  /** Splitting yields well-split lines. */
  lemma {:induction false} SplitIsWellSplit(s: string)
    ensures WellSplit(SplitLines(s))
  {
    if s != "" {
      var e := LineEnd(s);
      var rest := s[e..];
      FirstLine(s);
      SplitIsWellSplit(rest);
      FirstOfSplit(rest);
      WellSplitCons(s[..e], SplitLines(rest));
    }
  }

  lemma FirstOfSplit(s: string)
    ensures SplitLines(s) == [] <==> s == ""
    ensures s != "" ==> SplitLines(s)[0] != "" && SplitLines(s)[0][0] == s[0]
  {
  }
}
