/**
 * The code-aware chunker (libs/embeddings/chunker.py). The tokenizer is a parameter: any non-negative count of
 * the tokens of a text. What the chunks are is said about line ranges; each chunk also has a number of carried
 * lines, those that a split at a blank line moved over from the chunk before.
 */
module Chunker {
  import opened Options
  import opened Text

  /** A contiguous slice of a source file; line numbers are 1-based and inclusive. */
  datatype Chunk = Chunk(filePath: string, text: string, startLine: nat, endLine: nat)

  type Tokenizer = string -> nat

  /** Token counts of the lines from a up to b, added up. */
  function LineTokens(lines: seq<string>, tokens: Tokenizer, a: nat, b: nat): nat
    requires a <= b <= |lines|
  {
    if a == b then 0 else LineTokens(lines, tokens, a, b - 1) + tokens(lines[b - 1])
  }

  /** The weight the chunker attributes to lines a up to b when the first carried ones were weighed as one text. */
  function Running(lines: seq<string>, tokens: Tokenizer, a: nat, carried: nat, b: nat): nat
    requires a + carried <= b <= |lines|
  {
    tokens(Join(lines[a..a + carried])) + LineTokens(lines, tokens, a + carried, b)
  }

  predicate Oversized(lines: seq<string>, tokens: Tokenizer, limit: int, a: nat, e: nat)
    requires a < e <= |lines|
  {
    e == a + 1 && tokens(lines[a]) > limit
  }

  /** Lines a up to e, gathered from the carried ones on, are within the limit or one line past it. */
  predicate Gathered(lines: seq<string>, tokens: Tokenizer, limit: int, a: nat, e: nat, carried: nat) {
    && a + carried <= e <= |lines|
    && (forall j :: a <= j < e ==> tokens(lines[j]) <= limit)
    && (forall j :: a <= j < a + carried ==> !Blank(lines[j]))
    && (carried > 0 ==> carried < e - a && LineTokens(lines, tokens, a, a + carried) <= limit)
    && (Running(lines, tokens, a, carried, e) <= limit || (carried > 0 && e == a + carried + 1) || e == a)
  }

  predicate ChunkOk(lines: seq<string>, tokens: Tokenizer, limit: int, a: nat, e: nat, carried: nat) {
    && a < e <= |lines|
    && ((carried == 0 && Oversized(lines, tokens, limit, a, e)) || Gathered(lines, tokens, limit, a, e, carried))
  }

  /** No line after the first one is blank: there is no better place to split. */
  predicate NoUsableBlank(lines: seq<string>, a: nat, e: nat)
    requires e <= |lines|
  {
    forall j :: a < j < e ==> !Blank(lines[j])
  }

  /** Why the chunk of lines a up to e ends where it does, and why the next one starts with that many carried lines. */
  predicate EndsFor(lines: seq<string>, tokens: Tokenizer, limit: int, a: nat, e: nat, carried: nat, next: nat)
    requires a + carried <= e <= |lines| && a < e
  {
    // it is a line of its own, or such a line follows
    || (next == 0 && Oversized(lines, tokens, limit, a, e))
    || (next == 0 && e < |lines| && tokens(lines[e]) > limit)
    // the next line does not fit and there is no blank line to split at
    || (next == 0 && e < |lines| && Running(lines, tokens, a, carried, e) + tokens(lines[e]) > limit && NoUsableBlank(lines, a, e))
    // a line further on does not fit; the chunk ends with the last blank line before it, the rest is carried over
    || (&& e + next < |lines| && a + 1 < e && Blank(lines[e - 1])
        && Gathered(lines, tokens, limit, a, e + next, carried) && tokens(lines[e + next]) <= limit
        && Running(lines, tokens, a, carried, e + next) + tokens(lines[e + next]) > limit
        && forall j :: e <= j < e + next ==> !Blank(lines[j]))
  }

  /** Chunks cover lines 0 up to upto without gap or overlap, each with the text of its lines. */
  predicate Covers(lines: seq<string>, filePath: string, chunks: seq<Chunk>, upto: nat) {
    && upto <= |lines|
    && (forall k :: 0 <= k < |chunks| ==>
          && 1 <= chunks[k].startLine <= chunks[k].endLine <= upto
          && chunks[k].filePath == filePath
          && chunks[k].text == Join(lines[chunks[k].startLine - 1..chunks[k].endLine]))
    && (chunks != [] ==> chunks[0].startLine == 1)
    && (forall k :: 0 < k < |chunks| ==> chunks[k].startLine == chunks[k - 1].endLine + 1)
    && upto == (if chunks == [] then 0 else chunks[|chunks| - 1].endLine)
  }

  /** Every chunk is well gathered and ends for a reason; carried has one more entry, for the lines still in the buffer. */
  ghost predicate Justified(lines: seq<string>, tokens: Tokenizer, limit: int, chunks: seq<Chunk>, carried: seq<nat>)
    requires forall k :: 0 <= k < |chunks| ==> 1 <= chunks[k].startLine <= chunks[k].endLine <= |lines|
  {
    && |chunks| <= |carried|
    && (carried != [] ==> carried[0] == 0)
    && (forall k :: 0 <= k < |chunks| ==>
          ChunkOk(lines, tokens, limit, chunks[k].startLine - 1, chunks[k].endLine, carried[k]))
    && (forall k :: 0 <= k < |chunks| && k + 1 < |carried| ==>
          EndsFor(lines, tokens, limit, chunks[k].startLine - 1, chunks[k].endLine, carried[k], carried[k + 1]))
  }

  function MakeChunk(filePath: string, lines: seq<string>, startLine: nat): Chunk
    requires lines != []
  {
    Chunk(filePath, Join(lines), startLine, startLine + |lines| - 1)
  }

  lemma CoversAppend(lines: seq<string>, filePath: string, chunks: seq<Chunk>, a: nat, e: nat, next: Chunk)
    requires Covers(lines, filePath, chunks, a) && a < e <= |lines|
    requires next == Chunk(filePath, Join(lines[a..e]), a + 1, e)
    ensures Covers(lines, filePath, chunks + [next], e)
  {
    var all := chunks + [next];
    forall k | 0 <= k < |all|
      ensures 1 <= all[k].startLine <= all[k].endLine <= e
      ensures all[k].startLine == (if k == 0 then 1 else all[k - 1].endLine + 1)
      ensures all[k].filePath == filePath && all[k].text == Join(lines[all[k].startLine - 1..all[k].endLine])
    {
      if k < |chunks| {
        assert all[k] == chunks[k];
      }
    }
  }

  lemma JustifiedAppend(lines: seq<string>, tokens: Tokenizer, limit: int, chunks: seq<Chunk>, carried: seq<nat>,
                        a: nat, next: Chunk, nextCarried: nat)
    requires forall k :: 0 <= k < |chunks| ==> 1 <= chunks[k].startLine <= chunks[k].endLine <= |lines|
    requires Justified(lines, tokens, limit, chunks, carried) && |carried| == |chunks| + 1
    requires a + 1 == next.startLine <= next.endLine <= |lines|
    requires ChunkOk(lines, tokens, limit, a, next.endLine, carried[|chunks|])
    requires EndsFor(lines, tokens, limit, a, next.endLine, carried[|chunks|], nextCarried)
    ensures forall k :: 0 <= k < |chunks + [next]| ==>
              1 <= (chunks + [next])[k].startLine <= (chunks + [next])[k].endLine <= |lines|
    ensures Justified(lines, tokens, limit, chunks + [next], carried + [nextCarried])
  {
    hide EndsFor, LineTokens, Running, Blank, Oversized;
    var all, more := chunks + [next], carried + [nextCarried];
    forall k | 0 <= k < |all|
      ensures 1 <= all[k].startLine <= all[k].endLine <= |lines|
      ensures ChunkOk(lines, tokens, limit, all[k].startLine - 1, all[k].endLine, more[k])
      ensures EndsFor(lines, tokens, limit, all[k].startLine - 1, all[k].endLine, more[k], more[k + 1])
    {
      assert more[k] == carried[k];
      if k < |chunks| {
        assert all[k] == chunks[k] && more[k + 1] == carried[k + 1];
      }
    }
  }

  /** Both at once, as every emitted chunk needs it. */
  lemma Emit(lines: seq<string>, filePath: string, tokens: Tokenizer, limit: int, chunks: seq<Chunk>,
             carried: seq<nat>, a: nat, e: nat, next: Chunk, nextCarried: nat)
    requires Progress(lines, filePath, tokens, limit, chunks, carried, a)
    requires a < e <= |lines| && next == Chunk(filePath, Join(lines[a..e]), a + 1, e)
    requires ChunkOk(lines, tokens, limit, a, e, carried[|chunks|])
    requires EndsFor(lines, tokens, limit, a, e, carried[|chunks|], nextCarried)
    ensures Progress(lines, filePath, tokens, limit, chunks + [next], carried + [nextCarried], e)
  {
    hide EndsFor, LineTokens, Running, Blank, Oversized;
    CoversAppend(lines, filePath, chunks, a, e, next);
    JustifiedAppend(lines, tokens, limit, chunks, carried, a, next, nextCarried);
  }

  /** Everything before line a has been emitted; the last entry of carried belongs to the buffer. */
  ghost predicate Progress(lines: seq<string>, filePath: string, tokens: Tokenizer, limit: int, chunks: seq<Chunk>,
                           carried: seq<nat>, a: nat) {
    && Covers(lines, filePath, chunks, a)
    && |carried| == |chunks| + 1
    && Justified(lines, tokens, limit, chunks, carried)
  }

  /** The state of the buffer holding lines a up to i. */
  ghost predicate Buffered(lines: seq<string>, tokens: Tokenizer, limit: int, a: nat, i: nat, carried: nat,
                           bufTokens: nat, lastBlank: Option<nat>) {
    && a <= i <= |lines|
    && Gathered(lines, tokens, limit, a, i, carried)
    && bufTokens == Running(lines, tokens, a, carried, i)
    && (lastBlank.Some? ==>
          carried <= lastBlank.value < i - a && Blank(lines[a + lastBlank.value]) &&
          forall j :: a + lastBlank.value < j < i ==> !Blank(lines[j]))
    && (lastBlank.None? ==> forall j :: a <= j < i ==> !Blank(lines[j]))
  }

  lemma LineTokensSplit(lines: seq<string>, tokens: Tokenizer, a: nat, m: nat, b: nat)
    requires a <= m <= b <= |lines|
    ensures LineTokens(lines, tokens, a, b) == LineTokens(lines, tokens, a, m) + LineTokens(lines, tokens, m, b)
  {
  }

  lemma EmptyBuffer(lines: seq<string>, tokens: Tokenizer, limit: int, a: nat)
    requires a <= |lines| && tokens("") == 0
    ensures Buffered(lines, tokens, limit, a, a, 0, 0, None)
  {
    assert lines[a..a] == [];
  }

  /** A line that fits, or the first line after carried ones, joins the buffer. */
  lemma BufferLine(lines: seq<string>, tokens: Tokenizer, limit: int, a: nat, i: nat, carried: nat,
                   bufTokens: nat, lastBlank: Option<nat>)
    requires Buffered(lines, tokens, limit, a, i, carried, bufTokens, lastBlank)
    requires i < |lines| && tokens(lines[i]) <= limit
    requires bufTokens + tokens(lines[i]) <= limit || i == a
    requires tokens("") == 0
    ensures Buffered(lines, tokens, limit, a, i + 1, carried, bufTokens + tokens(lines[i]),
                     if Blank(lines[i]) then Some(i - a) else lastBlank)
  {
    if i == a {
      assert lines[a..a] == [];
    }
  }

  /** Splitting at the last blank line: the head is a chunk, the tail is carried and the new line joins it. */
  lemma SplitAtBlank(lines: seq<string>, tokens: Tokenizer, limit: int, a: nat, i: nat, carried: nat,
                     bufTokens: nat, at: nat)
    requires Buffered(lines, tokens, limit, a, i, carried, bufTokens, Some(at)) && at > 0
    requires i < |lines| && tokens(lines[i]) <= limit < bufTokens + tokens(lines[i])
    requires tokens("") == 0
    ensures var m := a + at + 1;
            && a < m <= i
            && ChunkOk(lines, tokens, limit, a, m, carried)
            && EndsFor(lines, tokens, limit, a, m, carried, i - m)
            && Buffered(lines, tokens, limit, m, i + 1, i - m, tokens(Join(lines[m..i])) + tokens(lines[i]),
                        if Blank(lines[i]) then Some(i - m) else None)
  {
    var m := a + at + 1;
    LineTokensSplit(lines, tokens, a + carried, m, i);
    assert m + (i - m) == i;
    assert LineTokens(lines, tokens, i, i + 1) == tokens(lines[i]);
    if m == i {
      assert lines[m..i] == [];
    }
  }

  /** A buffer that cannot take the next line and has no usable blank line is a chunk as a whole. */
  lemma FlushBuffer(lines: seq<string>, tokens: Tokenizer, limit: int, a: nat, i: nat, carried: nat,
                    bufTokens: nat, lastBlank: Option<nat>)
    requires Buffered(lines, tokens, limit, a, i, carried, bufTokens, lastBlank) && a < i
    ensures ChunkOk(lines, tokens, limit, a, i, carried)
    ensures i < |lines| && tokens(lines[i]) > limit ==> EndsFor(lines, tokens, limit, a, i, carried, 0)
    ensures i < |lines| && bufTokens + tokens(lines[i]) > limit && (lastBlank.None? || lastBlank.value == 0) ==>
              EndsFor(lines, tokens, limit, a, i, carried, 0)
  {
  }

  lemma FinishLast(lines: seq<string>, filePath: string, tokens: Tokenizer, limit: int, chunks: seq<Chunk>,
                   carried: seq<nat>, a: nat, next: Chunk)
    requires Progress(lines, filePath, tokens, limit, chunks, carried, a)
    requires a < |lines| && next == Chunk(filePath, Join(lines[a..|lines|]), a + 1, |lines|)
    requires ChunkOk(lines, tokens, limit, a, |lines|, carried[|chunks|])
    ensures Covers(lines, filePath, chunks + [next], |lines|)
    ensures Justified(lines, tokens, limit, chunks + [next], carried)
  {
    hide ChunkOk, EndsFor;
    CoversAppend(lines, filePath, chunks, a, |lines|, next);
  }

  /** buf holds the lines a up to i. */
  predicate Holds(lines: seq<string>, a: nat, i: nat, buf: seq<string>) {
    a <= i <= |lines| && buf == lines[a..i]
  }

  lemma HoldsNone(lines: seq<string>, a: nat)
    requires a <= |lines|
    ensures Holds(lines, a, a, [])
  {
  }

  lemma HoldsOneMore(lines: seq<string>, a: nat, i: nat, buf: seq<string>)
    requires Holds(lines, a, i, buf) && i < |lines|
    ensures Holds(lines, a, i + 1, buf + [lines[i]])
  {
  }

  lemma HoldsSplit(lines: seq<string>, a: nat, i: nat, buf: seq<string>, k: nat)
    requires Holds(lines, a, i, buf) && k <= |buf|
    ensures Holds(lines, a, a + k, buf[..k]) && Holds(lines, a + k, i, buf[k..])
  {
  }

  lemma HoldsChunk(lines: seq<string>, a: nat, i: nat, buf: seq<string>, filePath: string)
    requires Holds(lines, a, i, buf) && buf != []
    ensures a < i && i - a == |buf|
    ensures MakeChunk(filePath, buf, a + 1) == Chunk(filePath, Join(lines[a..i]), a + 1, i)
  {
  }

  lemma HoldsTokens(lines: seq<string>, a: nat, i: nat, buf: seq<string>, tokens: Tokenizer)
    requires Holds(lines, a, i, buf)
    ensures |buf| == i - a && tokens(Join(buf)) == tokens(Join(lines[a..i]))
  {
  }

  lemma HoldsLength(lines: seq<string>, a: nat, i: nat, buf: seq<string>)
    requires Holds(lines, a, i, buf)
    ensures a <= i <= |lines| && |buf| == i - a
    ensures buf == [] <==> a == i
  {
  }

  lemma NothingYet(lines: seq<string>, filePath: string, tokens: Tokenizer, limit: int)
    ensures Progress(lines, filePath, tokens, limit, [], [0], 0)
  {
  }

  lemma NothingCarried(lines: seq<string>, tokens: Tokenizer, limit: int, a: nat, carried: nat,
                       bufTokens: nat, lastBlank: Option<nat>)
    requires Buffered(lines, tokens, limit, a, a, carried, bufTokens, lastBlank) && tokens("") == 0
    ensures carried == 0 && bufTokens == 0 && lastBlank == None
  {
    assert lines[a..a] == [];
  }

  lemma Solo(lines: seq<string>, tokens: Tokenizer, limit: int, i: nat)
    requires i < |lines| && tokens(lines[i]) > limit
    ensures ChunkOk(lines, tokens, limit, i, i + 1, 0)
    ensures EndsFor(lines, tokens, limit, i, i + 1, 0, 0)
    ensures Join(lines[i..i + 1]) == lines[i]
  {
    assert lines[i..i + 1] == [lines[i]];
    assert Join([lines[i]]) == lines[i] + Join([]);
  }

  lemma Finished(lines: seq<string>, filePath: string, tokens: Tokenizer, limit: int, chunks: seq<Chunk>,
                 carried: seq<nat>, a: nat)
    requires Progress(lines, filePath, tokens, limit, chunks, carried, a) && a == |lines|
    ensures Covers(lines, filePath, chunks, |lines|)
    ensures Justified(lines, tokens, limit, chunks, carried[..|chunks|])
  {
    hide EndsFor, LineTokens, Running, Blank, Oversized;
  }

  /** Emits the buffer, if there is one, and then the oversized line on its own. */
  method EmitOversized(filePath: string, lines: seq<string>, limit: int, tokens: Tokenizer, i: nat, ghost a: nat,
                       before: seq<Chunk>, ghost carriedBefore: seq<nat>, buf: seq<string>, ghost bufTokens: nat,
                       startLine: nat, ghost lastBlank: Option<nat>)
    returns (chunks: seq<Chunk>, ghost carried: seq<nat>)
    requires i < |lines| && tokens(lines[i]) > limit && startLine == a + 1 && Holds(lines, a, i, buf)
    requires |carriedBefore| == |before| + 1 && Progress(lines, filePath, tokens, limit, before, carriedBefore, a)
    requires Buffered(lines, tokens, limit, a, i, carriedBefore[|before|], bufTokens, lastBlank)
    requires tokens("") == 0
    ensures |carried| == |chunks| + 1 && carried[|chunks|] == 0
    ensures Progress(lines, filePath, tokens, limit, chunks, carried, i + 1)
    ensures chunks == before + (if buf == [] then [] else [MakeChunk(filePath, buf, startLine)])
                      + [Chunk(filePath, lines[i], i + 1, i + 1)]
  {
    hide Covers, Justified, Progress, Buffered, ChunkOk, EndsFor, Running, Holds, MakeChunk, Join;
    chunks, carried := before, carriedBefore;
    HoldsLength(lines, a, i, buf);
    if buf != [] {
      FlushBuffer(lines, tokens, limit, a, i, carried[|chunks|], bufTokens, lastBlank);
      HoldsChunk(lines, a, i, buf, filePath);
      Emit(lines, filePath, tokens, limit, chunks, carried, a, i, MakeChunk(filePath, buf, startLine), 0);
      chunks, carried := chunks + [MakeChunk(filePath, buf, startLine)], carried + [0];
    } else {
      NothingCarried(lines, tokens, limit, a, carried[|chunks|], bufTokens, lastBlank);
    }
    Solo(lines, tokens, limit, i);
    Emit(lines, filePath, tokens, limit, chunks, carried, i, i + 1, Chunk(filePath, lines[i], i + 1, i + 1), 0);
    chunks, carried := chunks + [Chunk(filePath, lines[i], i + 1, i + 1)], carried + [0];
  }

  /** Emits what has to go before line i can join the buffer: up to the last blank line, or everything. */
  method MakeRoom(filePath: string, lines: seq<string>, limit: int, tokens: Tokenizer, i: nat,
                  before: seq<Chunk>, ghost carriedBefore: seq<nat>, full: seq<string>, ghost fullTokens: nat,
                  first: nat, blank: Option<nat>)
    returns (chunks: seq<Chunk>, ghost carried: seq<nat>, buf: seq<string>, bufTokens: nat, startLine: nat)
    requires i < |lines| && tokens(lines[i]) <= limit < fullTokens + tokens(lines[i])
    requires 1 <= first && full != [] && Holds(lines, first - 1, i, full)
    requires |carriedBefore| == |before| + 1 && Progress(lines, filePath, tokens, limit, before, carriedBefore, first - 1)
    requires Buffered(lines, tokens, limit, first - 1, i, carriedBefore[|before|], fullTokens, blank)
    requires tokens("") == 0
    ensures 1 <= startLine && Holds(lines, startLine - 1, i, buf)
    ensures |carried| == |chunks| + 1 && Progress(lines, filePath, tokens, limit, chunks, carried, startLine - 1)
    ensures Buffered(lines, tokens, limit, startLine - 1, i + 1, carried[|chunks|], bufTokens + tokens(lines[i]),
                     if Blank(lines[i]) then Some(i - (startLine - 1)) else None)
  {
    hide Covers, Justified, Progress, Buffered, ChunkOk, EndsFor, Running, Holds, MakeChunk, Blank, Join;
    ghost var a, c := first - 1, carriedBefore[|before|];
    HoldsChunk(lines, a, i, full, filePath);
    if blank.Some? && blank.value > 0 {
      var splitAt := blank.value + 1;
      SplitAtBlank(lines, tokens, limit, a, i, c, fullTokens, blank.value);
      var head, tail := full[..splitAt], full[splitAt..];
      HoldsSplit(lines, a, i, full, splitAt);
      HoldsChunk(lines, a, a + splitAt, head, filePath);
      HoldsTokens(lines, a + splitAt, i, tail, tokens);
      Emit(lines, filePath, tokens, limit, before, carriedBefore, a, a + splitAt, MakeChunk(filePath, head, first), |tail|);
      chunks, carried := before + [MakeChunk(filePath, head, first)], carriedBefore + [|tail|];
      buf, bufTokens, startLine := tail, tokens(Join(tail)), first + splitAt;
    } else {
      FlushBuffer(lines, tokens, limit, a, i, c, fullTokens, blank);
      Emit(lines, filePath, tokens, limit, before, carriedBefore, a, i, MakeChunk(filePath, full, first), 0);
      chunks, carried := before + [MakeChunk(filePath, full, first)], carriedBefore + [0];
      buf, bufTokens, startLine := [], 0, i + 1;
      EmptyBuffer(lines, tokens, limit, i);
      HoldsNone(lines, i);
      BufferLine(lines, tokens, limit, i, i, 0, 0, None);
    }
  }

  method ChunkFile(filePath: string, content: string, limit: int, tokens: Tokenizer)
    returns (chunks: seq<Chunk>, ghost carried: seq<nat>)
    requires tokens("") == 0
    ensures Blank(content) ==> chunks == []
    ensures !Blank(content) ==>
              Covers(SplitLines(content), filePath, chunks, |SplitLines(content)|) &&
              |carried| == |chunks| &&
              Justified(SplitLines(content), tokens, limit, chunks, carried)
  {
    hide Covers, Justified, Progress, Buffered, ChunkOk, EndsFor, Running, Holds, MakeChunk, Blank, Join;
    if Blank(content) {
      return [], [];
    }
    var lines := SplitLines(content);
    chunks, carried := [], [0];
    var buf: seq<string>, bufTokens: nat, startLine: nat := [], 0, 1;
    var lastBlank: Option<nat> := None;
    NothingYet(lines, filePath, tokens, limit);
    EmptyBuffer(lines, tokens, limit, 0);
    HoldsNone(lines, 0);
    for i := 0 to |lines|
      invariant 1 <= startLine && Holds(lines, startLine - 1, i, buf)
      invariant |carried| == |chunks| + 1
      invariant Progress(lines, filePath, tokens, limit, chunks, carried, startLine - 1)
      invariant Buffered(lines, tokens, limit, startLine - 1, i, carried[|chunks|], bufTokens, lastBlank)
    {
      var line := lines[i];
      var lineTokens := tokens(line);
      if lineTokens > limit {
        chunks, carried := EmitOversized(filePath, lines, limit, tokens, i, startLine - 1, chunks, carried,
                                         buf, bufTokens, startLine, lastBlank);
        buf, bufTokens, lastBlank := [], 0, None;
        startLine := i + 2;
        EmptyBuffer(lines, tokens, limit, i + 1);
        HoldsNone(lines, i + 1);
        continue;
      }
      HoldsLength(lines, startLine - 1, i, buf);
      if bufTokens + lineTokens > limit && buf != [] {
        chunks, carried, buf, bufTokens, startLine :=
          MakeRoom(filePath, lines, limit, tokens, i, chunks, carried, buf, bufTokens, startLine, lastBlank);
        lastBlank := None;
      } else {
        BufferLine(lines, tokens, limit, startLine - 1, i, carried[|chunks|], bufTokens, lastBlank);
      }
      HoldsOneMore(lines, startLine - 1, i, buf);
      HoldsLength(lines, startLine - 1, i + 1, buf + [line]);
      buf, bufTokens := buf + [line], bufTokens + lineTokens;
      if Blank(line) {
        lastBlank := Some(|buf| - 1);
      }
    }
    ghost var a := startLine - 1;
    HoldsLength(lines, a, |lines|, buf);
    if buf != [] {
      FlushBuffer(lines, tokens, limit, a, |lines|, carried[|chunks|], bufTokens, lastBlank);
      HoldsChunk(lines, a, |lines|, buf, filePath);
      FinishLast(lines, filePath, tokens, limit, chunks, carried, a, MakeChunk(filePath, buf, startLine));
      chunks := chunks + [MakeChunk(filePath, buf, startLine)];
    } else {
      Finished(lines, filePath, tokens, limit, chunks, carried, a);
      carried := carried[..|chunks|];
    }
  }
}
