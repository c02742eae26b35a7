/**
 * The git log parser (libs/gitintel/history.py). Date normalization is a parameter: what fromisoformat and
 * astimezone make of a date, or the date itself when they reject it.
 */
module GitHistory {
  import opened Options
  import opened Text
  import opened Lines

  datatype HistoryCommit =
    HistoryCommit(sha: string, author: string, dateIso: string, subject: string, files: seq<string>)

  datatype Header = Header(sha: string, dateIso: string, author: string, subject: string)

  const UNIT_SEPARATOR: char := '\U{1F}'

  function StripRight(s: string): string {
    if s != "" && IsSpace(s[|s| - 1]) then StripRight(s[..|s| - 1]) else s
  }

  /** First unit separator, or the length. */
  function FieldEnd(s: string): (i: nat)
    ensures i <= |s| && (i < |s| ==> s[i] == UNIT_SEPARATOR) && forall k :: 0 <= k < i ==> s[k] != UNIT_SEPARATOR
  {
    if s == "" || s[0] == UNIT_SEPARATOR then 0 else 1 + FieldEnd(s[1..])
  }

  /** line.split("\x1f", 3), when that gives four parts. */
  function ParseHeader(line: string): Option<Header> {
    var i := FieldEnd(line);
    if i == |line| then None
    else
      var second := line[i + 1..];
      var j := FieldEnd(second);
      if j == |second| then None
      else
        var third := second[j + 1..];
        var k := FieldEnd(third);
        if k == |third| then None
        else Some(Header(line[..i], second[..j], third[..k], third[k + 1..]))
  }

  /** The variables of the parsing loop. */
  datatype Parser = Parser(entries: seq<HistoryCommit>, pending: Option<Header>, files: seq<string>)

  function Flush(p: Parser): seq<HistoryCommit> {
    if p.pending.None? then p.entries
    else
      var h := p.pending.value;
      p.entries + [HistoryCommit(h.sha, h.author, h.dateIso, h.subject, p.files)]
  }

  function Consume(p: Parser, raw: string, normalize: string -> string): Parser {
    var line := StripRight(raw);
    if line == "" then p
    else if UNIT_SEPARATOR in line then
      match ParseHeader(line)
      case Some(h) => Parser(Flush(p), Some(h.(dateIso := normalize(h.dateIso))), [])
      case None => p.(entries := Flush(p))
    else if p.pending.Some? then p.(files := p.files + [line])
    else p
  }

  function ConsumeAll(p: Parser, lines: seq<string>, normalize: string -> string): Parser
    decreases |lines|
  {
    if lines == [] then p else ConsumeAll(Consume(p, lines[0], normalize), lines[1..], normalize)
  }

  const FRESH_PARSER := Parser([], None, [])

  /** stdout.splitlines() */
  function BareLines(stdout: string): seq<string> {
    var lines := SplitLines(stdout);
    seq(|lines|, i requires 0 <= i < |lines| => Body(lines[i]))
  }

  function Parsed(stdout: string, normalize: string -> string): seq<HistoryCommit> {
    Flush(ConsumeAll(FRESH_PARSER, BareLines(stdout), normalize))
  }

  method ParseLog(stdout: string, normalize: string -> string) returns (entries: seq<HistoryCommit>)
    ensures entries == Parsed(stdout, normalize)
  {
    entries := [];
    var pendingHeader: Option<Header>, pendingFiles: seq<string> := None, [];
    var lines := BareLines(stdout);
    for i := 0 to |lines|
      invariant ConsumeAll(Parser(entries, pendingHeader, pendingFiles), lines[i..], normalize)
             == ConsumeAll(FRESH_PARSER, lines, normalize)
    {
      assert lines[i..][1..] == lines[i + 1..];
      var line := StripRight(lines[i]);
      if line == "" {
        continue;
      }
      if UNIT_SEPARATOR in line {
        if pendingHeader.Some? {
          var h := pendingHeader.value;
          entries := entries + [HistoryCommit(h.sha, h.author, h.dateIso, h.subject, pendingFiles)];
        }
        var parts := ParseHeader(line);
        if parts.Some? {
          pendingHeader := Some(parts.value.(dateIso := normalize(parts.value.dateIso)));
          pendingFiles := [];
        }
      } else if pendingHeader.Some? {
        pendingFiles := pendingFiles + [line];
      }
    }
    if pendingHeader.Some? {
      var h := pendingHeader.value;
      entries := entries + [HistoryCommit(h.sha, h.author, h.dateIso, h.subject, pendingFiles)];
    }
  }

  /* ----- the printer ----- */

  function HeaderLine(c: HistoryCommit): string {
    c.sha + [UNIT_SEPARATOR] + c.dateIso + [UNIT_SEPARATOR] + c.author + [UNIT_SEPARATOR] + c.subject
  }

  /** Lines git prints for one commit: the header, a blank line, the names of the files. */
  function CommitLines(c: HistoryCommit): seq<string> {
    [HeaderLine(c)] + (if c.files == [] then [] else [""] + c.files)
  }

  function LogLines(cs: seq<HistoryCommit>): seq<string> {
    if cs == [] then [] else CommitLines(cs[0]) + LogLines(cs[1..])
  }

  function Terminated(lines: seq<string>): seq<string> {
    seq(|lines|, i requires 0 <= i < |lines| => lines[i] + "\n")
  }

  function Printed(cs: seq<HistoryCommit>): string {
    Join(Terminated(LogLines(cs)))
  }

  /* ----- what can be printed and read back ----- */

  predicate NoSeparator(s: string) {
    UNIT_SEPARATOR !in s
  }

  predicate Plain(s: string) {
    NoBreaks(s) && NoSeparator(s)
  }

  /** Not empty and without white space at the end. */
  predicate Trimmed(s: string) {
    s != "" && !IsSpace(s[|s| - 1])
  }

  predicate FileOk(f: string) {
    Plain(f) && Trimmed(f)
  }

  predicate CommitOk(c: HistoryCommit, normalize: string -> string) {
    && Plain(c.sha) && Plain(c.dateIso) && Plain(c.author)
    && normalize(c.dateIso) == c.dateIso
    && NoBreaks(c.subject) && Trimmed(c.subject)
    && forall f :: f in c.files ==> FileOk(f)
  }

  /** Normalizing yields a plain date that normalizes to itself. */
  ghost predicate IsNormalizer(normalize: string -> string) {
    forall d :: Plain(d) ==> Plain(normalize(d)) && normalize(normalize(d)) == normalize(d)
  }
}
