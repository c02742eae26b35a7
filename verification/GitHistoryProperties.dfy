/** Reading back what git prints: exactly the well-formed commit lists survive. */
module GitHistoryProperties {
  import opened Options
  import opened Text
  import opened Lines
  import opened GitHistory

  lemma TrimmedIsStripped(s: string)
    requires Trimmed(s)
    ensures StripRight(s) == s
  {
  }

  lemma {:induction false} StrippedIsTrimmed(s: string)
    ensures StripRight(s) == "" || Trimmed(StripRight(s))
    ensures StripRight(s) <= s
  {
    if s != "" && IsSpace(s[|s| - 1]) {
      StrippedIsTrimmed(s[..|s| - 1]);
    }
  }

  lemma {:induction false} FieldEndOf(x: string, rest: string)
    requires NoSeparator(x)
    ensures FieldEnd(x + [UNIT_SEPARATOR] + rest) == |x|
  {
    var s := x + [UNIT_SEPARATOR] + rest;
    assert s[|x|] == UNIT_SEPARATOR;
    assert forall k :: 0 <= k < |x| ==> s[k] == x[k] && x[k] in x;
    var i := FieldEnd(s);
    assert i <= |x|;
  }

  lemma AroundSeparator(x: string, rest: string)
    requires NoSeparator(x)
    ensures var s := x + [UNIT_SEPARATOR] + rest;
            |x| < |s| && FieldEnd(s) == |x| && s[..|x|] == x && s[|x| + 1..] == rest
  {
    FieldEndOf(x, rest);
  }

  lemma HeaderIsNested(c: HistoryCommit)
    ensures HeaderLine(c)
         == c.sha + [UNIT_SEPARATOR] + (c.dateIso + [UNIT_SEPARATOR] + (c.author + [UNIT_SEPARATOR] + c.subject))
  {
  }

  lemma HeaderIsParsed(c: HistoryCommit)
    requires NoSeparator(c.sha) && NoSeparator(c.dateIso) && NoSeparator(c.author)
    ensures ParseHeader(HeaderLine(c)) == Some(Header(c.sha, c.dateIso, c.author, c.subject))
  {
    hide FieldEnd, NoSeparator, HeaderLine;
    var third := c.author + [UNIT_SEPARATOR] + c.subject;
    var second := c.dateIso + [UNIT_SEPARATOR] + third;
    HeaderIsNested(c);
    AroundSeparator(c.sha, second);
    AroundSeparator(c.dateIso, third);
    AroundSeparator(c.author, c.subject);
  }

  lemma {:induction false} ConsumeAppend(p: Parser, a: seq<string>, b: seq<string>, normalize: string -> string)
    ensures ConsumeAll(p, a + b, normalize) == ConsumeAll(ConsumeAll(p, a, normalize), b, normalize)
    decreases |a|
  {
    if a == [] {
      assert a + b == b;
    } else {
      assert (a + b)[1..] == a[1..] + b;
      ConsumeAppend(Consume(p, a[0], normalize), a[1..], b, normalize);
    }
  }

  /** A line of white space changes nothing wherever it stands. */
  lemma BlankLinesDoNotMatter(p: Parser, a: seq<string>, blank: string, b: seq<string>, normalize: string -> string)
    requires Blank(blank)
    ensures ConsumeAll(p, a + [blank] + b, normalize) == ConsumeAll(p, a + b, normalize)
  {
    ConsumeAppend(p, a, [blank] + b, normalize);
    assert a + [blank] + b == a + ([blank] + b);
    ConsumeAppend(p, a, b, normalize);
    StripBlank(blank);
    assert ([blank] + b)[1..] == b;
  }

  lemma {:induction false} StripBlank(s: string)
    requires Blank(s)
    ensures StripRight(s) == ""
  {
    if s != "" {
      StripBlank(s[..|s| - 1]);
    }
  }

  lemma HeaderLineIsTrimmed(c: HistoryCommit)
    requires Trimmed(c.subject)
    ensures Trimmed(HeaderLine(c)) && UNIT_SEPARATOR in HeaderLine(c)
  {
    hide IsSpace;
    var line := HeaderLine(c);
    assert line[|line| - 1] == c.subject[|c.subject| - 1];
    assert line[|c.sha|] == UNIT_SEPARATOR;
  }

  lemma {:induction false} FilesAreCollected(p: Parser, files: seq<string>, normalize: string -> string)
    requires p.pending.Some? && forall f :: f in files ==> FileOk(f)
    ensures ConsumeAll(p, files, normalize) == p.(files := p.files + files)
    decreases |files|
  {
    hide IsSpace, NoBreaks, StripRight;
    if files == [] {
      assert p.files + files == p.files;
    } else {
      assert files[0] in files;
      TrimmedIsStripped(files[0]);
      FilesAreCollected(Consume(p, files[0], normalize), files[1..], normalize);
      assert p.files + files == p.files + [files[0]] + files[1..];
    }
  }

  lemma CommitIsConsumed(p: Parser, c: HistoryCommit, normalize: string -> string)
    requires CommitOk(c, normalize)
    ensures ConsumeAll(p, CommitLines(c), normalize)
         == Parser(Flush(p), Some(Header(c.sha, c.dateIso, c.author, c.subject)), c.files)
  {
    hide IsSpace, NoBreaks, StripRight, ParseHeader, HeaderLine, NoSeparator, FileOk, Trimmed;
    HeaderLineIsTrimmed(c);
    TrimmedIsStripped(HeaderLine(c));
    HeaderIsParsed(c);
    var begun := Parser(Flush(p), Some(Header(c.sha, c.dateIso, c.author, c.subject)), []);
    assert Consume(p, HeaderLine(c), normalize) == begun;
    var rest := if c.files == [] then [] else [""] + c.files;
    assert CommitLines(c) == [HeaderLine(c)] + rest;
    assert CommitLines(c)[1..] == rest;
    if c.files != [] {
      NothingToStrip();
      assert rest[1..] == c.files;
      FilesAreCollected(begun, c.files, normalize);
      assert [] + c.files == c.files;
    }
  }

  lemma NothingToStrip()
    ensures StripRight("") == ""
  {
  }

  lemma {:induction false} LogIsConsumed(p: Parser, cs: seq<HistoryCommit>, normalize: string -> string)
    requires forall c :: c in cs ==> CommitOk(c, normalize)
    ensures Flush(ConsumeAll(p, LogLines(cs), normalize)) == Flush(p) + cs
    decreases |cs|
  {
    hide CommitOk, CommitLines;
    if cs == [] {
      assert Flush(p) + cs == Flush(p);
    } else {
      assert cs[0] in cs;
      CommitIsConsumed(p, cs[0], normalize);
      var q := ConsumeAll(p, CommitLines(cs[0]), normalize);
      ConsumeAppend(p, CommitLines(cs[0]), LogLines(cs[1..]), normalize);
      LogIsConsumed(q, cs[1..], normalize);
      assert Flush(q) == Flush(p) + [cs[0]];
      assert Flush(p) + cs == Flush(p) + [cs[0]] + cs[1..];
    }
  }

  /* ----- from lines to text and back ----- */

  lemma TerminatedLinesAreSplit(lines: seq<string>)
    requires forall l :: l in lines ==> NoBreaks(l)
    ensures BareLines(Join(Terminated(lines))) == lines
  {
    var full := Terminated(lines);
    forall i | 0 <= i < |full|
      ensures full[i] != "" && Body(full[i]) == lines[i] && Terminator(full[i]) == "\n" && NoBreaks(Body(full[i]))
    {
      assert lines[i] in lines;
      BodyOf(lines[i], "\n");
    }
    SplitOfJoin(full);
  }

  lemma {:induction false} LogLinesHaveNoBreaks(cs: seq<HistoryCommit>, normalize: string -> string)
    requires forall c :: c in cs ==> CommitOk(c, normalize)
    ensures forall l :: l in LogLines(cs) ==> NoBreaks(l)
  {
    hide IsBreak, IsSpace;
    if cs != [] {
      assert cs[0] in cs;
      LogLinesHaveNoBreaks(cs[1..], normalize);
      HeaderHasNoBreaks(cs[0]);
      forall l | l in CommitLines(cs[0])
        ensures NoBreaks(l)
      {
      }
    }
  }

  lemma HeaderHasNoBreaks(c: HistoryCommit)
    requires NoBreaks(c.sha) && NoBreaks(c.dateIso) && NoBreaks(c.author) && NoBreaks(c.subject)
    ensures NoBreaks(HeaderLine(c))
  {
  }

  /* ----- whatever is parsed is well formed ----- */

  predicate HeaderOk(h: Header, normalize: string -> string) {
    CommitOk(HistoryCommit(h.sha, h.author, h.dateIso, h.subject, []), normalize)
  }

  predicate ParserOk(p: Parser, normalize: string -> string) {
    && (forall c :: c in p.entries ==> CommitOk(c, normalize))
    && (p.pending.Some? ==> HeaderOk(p.pending.value, normalize))
    && (forall f :: f in p.files ==> FileOk(f))
  }

  /** A parsed header is the line, cut at its first three separators. */
  lemma HeaderParts(line: string)
    requires ParseHeader(line).Some?
    ensures var h := ParseHeader(line).value;
            && line == h.sha + [UNIT_SEPARATOR] + (h.dateIso + [UNIT_SEPARATOR] + (h.author + [UNIT_SEPARATOR] + h.subject))
            && NoSeparator(h.sha) && NoSeparator(h.dateIso) && NoSeparator(h.author)
  {
    CutAtSeparator(line);
    var second := line[FieldEnd(line) + 1..];
    CutAtSeparator(second);
    CutAtSeparator(second[FieldEnd(second) + 1..]);
  }

  lemma CutAtSeparator(s: string)
    requires FieldEnd(s) < |s|
    ensures s == s[..FieldEnd(s)] + [UNIT_SEPARATOR] + s[FieldEnd(s) + 1..]
    ensures NoSeparator(s[..FieldEnd(s)])
  {
    hide FieldEnd;
    CutAt(s, FieldEnd(s));
  }

  lemma CutAt(s: string, i: nat)
    requires i < |s|
    ensures s == s[..i] + [s[i]] + s[i + 1..]
  {
  }

  lemma NoBreaksParts(x: string, y: string)
    requires NoBreaks(x + [UNIT_SEPARATOR] + y)
    ensures NoBreaks(x) && NoBreaks(y)
  {
    hide IsBreak;
    var s := x + [UNIT_SEPARATOR] + y;
    assert forall i :: 0 <= i < |x| ==> x[i] == s[i];
    assert forall i :: 0 <= i < |y| ==> y[i] == s[|x| + 1 + i];
  }

  lemma TrimmedEnd(x: string, y: string)
    requires Trimmed(x + [UNIT_SEPARATOR] + y)
    ensures Trimmed(y)
  {
    SeparatorIsSpace();
    hide IsSpace;
    var s := x + [UNIT_SEPARATOR] + y;
    assert s[|s| - 1] == if y == "" then UNIT_SEPARATOR else y[|y| - 1];
  }

  lemma ParsedHeaderOk(line: string, normalize: string -> string)
    requires IsNormalizer(normalize) && NoBreaks(line) && Trimmed(line)
    ensures ParseHeader(line).Some? ==>
              HeaderOk(ParseHeader(line).value.(dateIso := normalize(ParseHeader(line).value.dateIso)), normalize)
  {
    if ParseHeader(line).Some? {
      var h := ParseHeader(line).value;
      HeaderParts(line);
      hide NoBreaks, IsSpace, ParseHeader, Trimmed, NoSeparator;
      var third := h.author + [UNIT_SEPARATOR] + h.subject;
      var second := h.dateIso + [UNIT_SEPARATOR] + third;
      NoBreaksParts(h.sha, second);
      NoBreaksParts(h.dateIso, third);
      NoBreaksParts(h.author, h.subject);
      TrimmedEnd(h.sha, second);
      TrimmedEnd(h.dateIso, third);
      TrimmedEnd(h.author, h.subject);
      assert Plain(h.dateIso);
    }
  }

  lemma SeparatorIsSpace()
    ensures IsSpace(UNIT_SEPARATOR)
  {
  }

  lemma ConsumeKeepsOk(p: Parser, raw: string, normalize: string -> string)
    requires IsNormalizer(normalize) && ParserOk(p, normalize) && NoBreaks(raw)
    ensures ParserOk(Consume(p, raw, normalize), normalize)
  {
    hide IsBreak, IsSpace, ParseHeader, IsNormalizer;
    var line := StripRight(raw);
    StrippedIsTrimmed(raw);
    if line != "" {
      ParsedHeaderOk(line, normalize);
    }
  }

  lemma {:induction false} ConsumeAllKeepsOk(p: Parser, lines: seq<string>, normalize: string -> string)
    requires IsNormalizer(normalize) && ParserOk(p, normalize)
    requires forall l :: l in lines ==> NoBreaks(l)
    ensures ParserOk(ConsumeAll(p, lines, normalize), normalize)
    decreases |lines|
  {
    hide ParserOk, IsNormalizer, NoBreaks, Consume;
    if lines != [] {
      assert lines[0] in lines;
      ConsumeKeepsOk(p, lines[0], normalize);
      ConsumeAllKeepsOk(Consume(p, lines[0], normalize), lines[1..], normalize);
    }
  }

  /** Every commit the parser returns, for any input, is well formed. */
  lemma ParsedCommitsAreOk(stdout: string, normalize: string -> string)
    requires IsNormalizer(normalize)
    ensures forall c :: c in Parsed(stdout, normalize) ==> CommitOk(c, normalize)
  {
    SplitIsWellSplit(stdout);
    var lines := BareLines(stdout);
    assert forall l :: l in lines ==> NoBreaks(l);
    ConsumeAllKeepsOk(FRESH_PARSER, lines, normalize);
  }

  /** A commit list is read back as printed exactly if every commit in it is well formed. */
  lemma RoundTrip(cs: seq<HistoryCommit>, normalize: string -> string)
    requires IsNormalizer(normalize)
    ensures Parsed(Printed(cs), normalize) == cs <==> forall c :: c in cs ==> CommitOk(c, normalize)
  {
    hide CommitOk, NoBreaks, IsNormalizer;
    ParsedCommitsAreOk(Printed(cs), normalize);
    if forall c :: c in cs ==> CommitOk(c, normalize) {
      LogLinesHaveNoBreaks(cs, normalize);
      TerminatedLinesAreSplit(LogLines(cs));
      LogIsConsumed(FRESH_PARSER, cs, normalize);
      assert Flush(FRESH_PARSER) + cs == cs;
    }
  }

  /* ----- headers with too few fields ----- */

  /** A line with a unit separator; full when it has all four fields. */
  predicate IsHeader(raw: string) {
    UNIT_SEPARATOR in StripRight(raw)
  }

  predicate IsFull(raw: string) {
    IsHeader(raw) && ParseHeader(StripRight(raw)).Some?
  }

  predicate IsShort(raw: string) {
    IsHeader(raw) && ParseHeader(StripRight(raw)).None?
  }

  function HeaderOf(raw: string, normalize: string -> string): Header
    requires IsFull(raw)
  {
    var h := ParseHeader(StripRight(raw)).value;
    h.(dateIso := normalize(h.dateIso))
  }

  /** The full headers of an output, in order. */
  function FullHeaders(lines: seq<string>, normalize: string -> string): seq<Header> {
    if lines == [] then []
    else (if IsFull(lines[0]) then [HeaderOf(lines[0], normalize)] else []) + FullHeaders(lines[1..], normalize)
  }

  /** How many short headers follow a full one; pending tells that there has been a full one. */
  function ShortsAfterFull(lines: seq<string>, pending: bool): nat {
    if lines == [] then 0
    else (if pending && IsShort(lines[0]) then 1 else 0) + ShortsAfterFull(lines[1..], pending || IsFull(lines[0]))
  }

  /** The headers of reported commits. */
  function HeadersOf(cs: seq<HistoryCommit>): (hs: seq<Header>)
    ensures |hs| == |cs|
  {
    seq(|cs|, i requires 0 <= i < |cs| => Header(cs[i].sha, cs[i].dateIso, cs[i].author, cs[i].subject))
  }

  lemma HeadersOfConcat(a: seq<HistoryCommit>, b: seq<HistoryCommit>)
    ensures HeadersOf(a + b) == HeadersOf(a) + HeadersOf(b)
  {
  }

  lemma ConsumeReports(p: Parser, raw: string, normalize: string -> string)
    ensures |Flush(Consume(p, raw, normalize))|
         == |Flush(p)| + (if IsFull(raw) || (p.pending.Some? && IsShort(raw)) then 1 else 0)
    ensures Consume(p, raw, normalize).pending.Some? <==> p.pending.Some? || IsFull(raw)
    ensures !(IsFull(raw) && IsShort(raw))
    ensures !(p.pending.Some? && IsShort(raw)) ==>
              HeadersOf(Flush(Consume(p, raw, normalize)))
              == HeadersOf(Flush(p)) + (if IsFull(raw) then [HeaderOf(raw, normalize)] else [])
  {
  }

  /** Every full header is reported once, and once more for each short header met while it or another is pending. */
  lemma {:induction false} ReportsAreCounted(p: Parser, lines: seq<string>, normalize: string -> string)
    ensures |Flush(ConsumeAll(p, lines, normalize))|
         == |Flush(p)| + |FullHeaders(lines, normalize)| + ShortsAfterFull(lines, p.pending.Some?)
    ensures ShortsAfterFull(lines, p.pending.Some?) == 0 ==>
              HeadersOf(Flush(ConsumeAll(p, lines, normalize))) == HeadersOf(Flush(p)) + FullHeaders(lines, normalize)
    decreases |lines|
  {
    hide Consume, Flush, HeadersOf, IsFull, IsShort;
    if lines != [] {
      ConsumeReports(p, lines[0], normalize);
      ReportsAreCounted(Consume(p, lines[0], normalize), lines[1..], normalize);
    }
  }

  lemma {:induction false} NoShortsIff(lines: seq<string>, pending: bool)
    ensures ShortsAfterFull(lines, pending) == 0 <==>
            (forall j :: 0 <= j < |lines| && IsShort(lines[j]) ==> !pending && forall i :: 0 <= i < j ==> !IsFull(lines[i]))
  {
    hide IsFull, IsShort;
    if lines != [] {
      NoShortsIff(lines[1..], pending || IsFull(lines[0]));
      assert forall j :: 0 < j < |lines| ==> lines[j] == lines[1..][j - 1];
    }
  }

  /**
   * For any output: the parser reports as many commits as there are full headers and short headers behind the first
   * full one. It reports the full headers, each once and in order, exactly if no short header follows a full one.
   */
  lemma ShortHeadersDuplicate(stdout: string, normalize: string -> string)
    ensures var lines := BareLines(stdout);
            && |Parsed(stdout, normalize)| == |FullHeaders(lines, normalize)| + ShortsAfterFull(lines, false)
            && (HeadersOf(Parsed(stdout, normalize)) == FullHeaders(lines, normalize) <==>
                  forall i, j :: 0 <= i < j < |lines| && IsFull(lines[i]) ==> !IsShort(lines[j]))
  {
    hide IsFull, IsShort, ConsumeAll, BareLines, HeadersOf;
    var lines := BareLines(stdout);
    ReportsAreCounted(FRESH_PARSER, lines, normalize);
    NoShortsIff(lines, false);
    HeadersOfConcat([], []);
  }
}
