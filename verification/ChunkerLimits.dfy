/** The chunks are determined by what the contract says of them, and when they exceed the limit. */
module ChunkerLimits {
  import opened Chunker
  import opened ChunkerProperties
  import opened Text

  /* ----- exactly one solution ----- */

  /** Line f does not join the lines a up to f, the first carried of which were there from the start. */
  predicate Stops(lines: seq<string>, tokens: Tokenizer, limit: int, a: nat, f: nat, carried: nat)
    requires a + carried <= f <= |lines|
  {
    f == |lines| || tokens(lines[f]) > limit || Running(lines, tokens, a, carried, f) + tokens(lines[f]) > limit
  }

  lemma RunningGrows(lines: seq<string>, tokens: Tokenizer, a: nat, carried: nat, m: nat, b: nat)
    requires a + carried <= m <= b <= |lines|
    ensures Running(lines, tokens, a, carried, m) <= Running(lines, tokens, a, carried, b)
    ensures m < b ==>
              Running(lines, tokens, a, carried, m) + tokens(lines[m]) <= Running(lines, tokens, a, carried, b)
  {
    LineTokensSplit(lines, tokens, a + carried, m, b);
    if m < b {
      LineTokensSplit(lines, tokens, m, m + 1, b);
    }
  }

  /** Gathering goes past no line that stops it. */
  lemma StopIsUnique(lines: seq<string>, tokens: Tokenizer, limit: int, a: nat, carried: nat, f: nat, g: nat)
    requires a < f && a + carried <= f < g <= |lines| && (carried > 0 ==> a + carried < f)
    requires Stops(lines, tokens, limit, a, f, carried)
    ensures !Gathered(lines, tokens, limit, a, g, carried)
  {
    RunningGrows(lines, tokens, a, carried, f, g);
  }

  /** Where gathering stops for a chunk that ends at e with next carried lines after it. */
  lemma StopOf(lines: seq<string>, tokens: Tokenizer, limit: int, a: nat, e: nat, carried: nat, next: nat)
    requires ChunkOk(lines, tokens, limit, a, e, carried) && a + carried <= e
    requires EndsFor(lines, tokens, limit, a, e, carried, next) && !Oversized(lines, tokens, limit, a, e)
    ensures e + next < |lines| && Stops(lines, tokens, limit, a, e + next, carried)
    ensures Gathered(lines, tokens, limit, a, e + next, carried)
    ensures a + carried < e || carried == 0
  {
  }

  /** From the same start, with the same carried lines, the next chunk and what it carries over are the same. */
  lemma NextIsUnique(lines: seq<string>, tokens: Tokenizer, limit: int, a: nat, carried: nat,
                     e: nat, next: nat, e': nat, next': nat)
    requires ChunkOk(lines, tokens, limit, a, e, carried) && ChunkOk(lines, tokens, limit, a, e', carried)
    requires a + carried <= e && a + carried <= e'
    requires EndsFor(lines, tokens, limit, a, e, carried, next) && EndsFor(lines, tokens, limit, a, e', carried, next')
    ensures e == e' && next == next'
  {
    hide Running, Blank;
    if !Oversized(lines, tokens, limit, a, e) && !Oversized(lines, tokens, limit, a, e') {
      StopOf(lines, tokens, limit, a, e, carried, next);
      StopOf(lines, tokens, limit, a, e', carried, next');
      if e + next < e' + next' {
        StopIsUnique(lines, tokens, limit, a, carried, e + next, e' + next');
      } else if e' + next' < e + next {
        StopIsUnique(lines, tokens, limit, a, carried, e' + next', e + next);
      }
    }
  }

  /** A chunk up to the last line is no other chunk's beginning. */
  lemma LastIsUnique(lines: seq<string>, tokens: Tokenizer, limit: int, a: nat, carried: nat, e: nat, next: nat)
    requires ChunkOk(lines, tokens, limit, a, |lines|, carried)
    requires ChunkOk(lines, tokens, limit, a, e, carried) && a + carried <= e < |lines|
    ensures !EndsFor(lines, tokens, limit, a, e, carried, next)
  {
    hide Running, Blank;
    if EndsFor(lines, tokens, limit, a, e, carried, next) && !Oversized(lines, tokens, limit, a, e) {
      StopOf(lines, tokens, limit, a, e, carried, next);
      StopIsUnique(lines, tokens, limit, a, carried, e + next, |lines|);
    }
  }

  /** What the contract of ChunkFile says of a result for non-blank content. */
  ghost predicate Solves(lines: seq<string>, filePath: string, tokens: Tokenizer, limit: int, chunks: seq<Chunk>,
                         carried: seq<nat>) {
    Covers(lines, filePath, chunks, |lines|) && |carried| == |chunks| && Justified(lines, tokens, limit, chunks, carried)
  }

  /** Two solutions agree chunk by chunk. */
  lemma {:induction false} SamePrefix(lines: seq<string>, filePath: string, tokens: Tokenizer, limit: int,
                                      chunks: seq<Chunk>, carried: seq<nat>, chunks': seq<Chunk>, carried': seq<nat>, k: nat)
    requires Solves(lines, filePath, tokens, limit, chunks, carried)
    requires Solves(lines, filePath, tokens, limit, chunks', carried')
    requires k < |chunks| && k < |chunks'|
    ensures chunks[k] == chunks'[k] && carried[k] == carried'[k]
    ensures k + 1 < |chunks| <==> k + 1 < |chunks'|
    ensures k + 1 < |chunks| ==> carried[k + 1] == carried'[k + 1]
  {
    hide ChunkOk, EndsFor, Join, Solves;
    if k > 0 {
      SamePrefix(lines, filePath, tokens, limit, chunks, carried, chunks', carried', k - 1);
    }
    SolvesAt(lines, filePath, tokens, limit, chunks, carried, k);
    SolvesAt(lines, filePath, tokens, limit, chunks', carried', k);
    var a, c := chunks[k].startLine - 1, carried[k];
    var e, e' := chunks[k].endLine, chunks'[k].endLine;
    if k + 1 < |chunks| && k + 1 < |chunks'| {
      NextIsUnique(lines, tokens, limit, a, c, e, carried[k + 1], e', carried'[k + 1]);
    } else if k + 1 < |chunks| {
      LastIsUnique(lines, tokens, limit, a, c, e, carried[k + 1]);
    } else if k + 1 < |chunks'| {
      LastIsUnique(lines, tokens, limit, a, c, e', carried'[k + 1]);
    }
  }

  /** What a solution says of one chunk and how it goes on. */
  lemma SolvesAt(lines: seq<string>, filePath: string, tokens: Tokenizer, limit: int, chunks: seq<Chunk>, carried: seq<nat>,
                 k: nat)
    requires Solves(lines, filePath, tokens, limit, chunks, carried) && k < |chunks|
    ensures |carried| == |chunks| && 1 <= chunks[k].startLine <= chunks[k].endLine <= |lines|
    ensures if k == 0 then chunks[k].startLine == 1 && carried[k] == 0 else chunks[k].startLine == chunks[k - 1].endLine + 1
    ensures chunks[k] == Chunk(filePath, Join(lines[chunks[k].startLine - 1..chunks[k].endLine]), chunks[k].startLine, chunks[k].endLine)
    ensures var a, e := chunks[k].startLine - 1, chunks[k].endLine;
            && a + carried[k] <= e
            && ChunkOk(lines, tokens, limit, a, e, carried[k])
            && (e == |lines| <==> k + 1 == |chunks|)
            && (k + 1 < |chunks| ==> EndsFor(lines, tokens, limit, a, e, carried[k], carried[k + 1]))
  {
    hide Join, ChunkOk, EndsFor;
    LastChunkEnds(lines, filePath, chunks, k);
    ChunkAt(lines, filePath, chunks, |lines|, k);
    OkBounds(lines, tokens, limit, chunks[k].startLine - 1, chunks[k].endLine, carried[k]);
  }

  lemma OkBounds(lines: seq<string>, tokens: Tokenizer, limit: int, a: nat, e: nat, carried: nat)
    requires ChunkOk(lines, tokens, limit, a, e, carried)
    ensures a + carried <= e <= |lines|
  {
  }

  /** Only the last chunk ends with the last line. */
  lemma LastChunkEnds(lines: seq<string>, filePath: string, chunks: seq<Chunk>, k: nat)
    requires Covers(lines, filePath, chunks, |lines|) && k < |chunks|
    ensures chunks[k].endLine == |lines| <==> k + 1 == |chunks|
  {
    if k + 1 < |chunks| {
      assert chunks[k + 1].startLine == chunks[k].endLine + 1;
    }
  }

  /** The contract of ChunkFile determines its result: chunks and carried lines. */
  lemma ChunksAreDetermined(lines: seq<string>, filePath: string, tokens: Tokenizer, limit: int,
                            chunks: seq<Chunk>, carried: seq<nat>, chunks': seq<Chunk>, carried': seq<nat>)
    requires Solves(lines, filePath, tokens, limit, chunks, carried)
    requires Solves(lines, filePath, tokens, limit, chunks', carried')
    ensures chunks == chunks' && carried == carried'
  {
    hide Justified;
    forall k | 0 <= k < |chunks| && k < |chunks'|
      ensures chunks[k] == chunks'[k] && carried[k] == carried'[k] && (k + 1 < |chunks| <==> k + 1 < |chunks'|)
    {
      SamePrefix(lines, filePath, tokens, limit, chunks, carried, chunks', carried', k);
    }
  }

  /* ----- when the limit is exceeded ----- */

  ghost predicate Additive(tokens: Tokenizer) {
    forall a, b {:trigger tokens(a + b)} :: tokens(a + b) == tokens(a) + tokens(b)
  }

  lemma AdditiveIsSubadditive(tokens: Tokenizer)
    requires Additive(tokens)
    ensures Subadditive(tokens) && tokens("") == 0
  {
    assert "" + "" == "";
  }

  lemma {:induction false} AdditiveLines(lines: seq<string>, tokens: Tokenizer, a: nat, b: nat)
    requires Additive(tokens) && a <= b <= |lines|
    ensures tokens(Join(lines[a..b])) == LineTokens(lines, tokens, a, b)
    decreases b - a
  {
    if a == b {
      AdditiveIsSubadditive(tokens);
      assert lines[a..b] == [];
    } else {
      AdditiveLines(lines, tokens, a, b - 1);
      assert lines[a..b] == lines[a..b - 1] + [lines[b - 1]];
      JoinAppend(lines[a..b - 1], [lines[b - 1]]);
      JoinOne(lines[b - 1]);
    }
  }

  /** An oversized line, or lines carried over that leave no room for the line that made the split. */
  predicate NoRoom(lines: seq<string>, tokens: Tokenizer, limit: int, a: nat, e: nat, carried: nat) {
    && a < e <= |lines|
    && (|| Oversized(lines, tokens, limit, a, e)
        || (carried > 0 && a + carried < |lines| &&
            LineTokens(lines, tokens, a, a + carried) + tokens(lines[a + carried]) > limit))
  }

  /** For any additive tokenizer: a chunk exceeds the limit exactly if there was no room for one of its lines. */
  lemma ExceedsLimitIff(lines: seq<string>, tokens: Tokenizer, limit: int, chunks: seq<Chunk>, carried: seq<nat>,
                        filePath: string, k: nat)
    requires Additive(tokens) && k < |chunks|
    requires Solves(lines, filePath, tokens, limit, chunks, carried)
    ensures tokens(chunks[k].text) > limit <==>
            NoRoom(lines, tokens, limit, chunks[k].startLine - 1, chunks[k].endLine, carried[k])
  {
    hide Additive, EndsFor, Running, Oversized, Gathered, Covers, Justified, ChunkOk, LineTokens, Join, NoRoom;
    ChunkAt(lines, filePath, chunks, |lines|, k);
    OkAt(lines, filePath, tokens, limit, chunks, carried, k);
    var a, e := chunks[k].startLine - 1, chunks[k].endLine;
    AdditiveLines(lines, tokens, a, e);
    OkExceedsIff(lines, tokens, limit, a, e, carried[k]);
  }

  lemma OkAt(lines: seq<string>, filePath: string, tokens: Tokenizer, limit: int, chunks: seq<Chunk>, carried: seq<nat>,
             k: nat)
    requires Solves(lines, filePath, tokens, limit, chunks, carried) && k < |chunks|
    ensures 1 <= chunks[k].startLine
    ensures ChunkOk(lines, tokens, limit, chunks[k].startLine - 1, chunks[k].endLine, carried[k])
  {
    hide ChunkOk, EndsFor, Join;
  }

  lemma OkExceedsIff(lines: seq<string>, tokens: Tokenizer, limit: int, a: nat, e: nat, c: nat)
    requires Additive(tokens) && ChunkOk(lines, tokens, limit, a, e, c)
    ensures LineTokens(lines, tokens, a, e) > limit <==> NoRoom(lines, tokens, limit, a, e, c)
  {
    hide Additive;
    if Gathered(lines, tokens, limit, a, e, c) {
      GatheredExceedsIff(lines, tokens, limit, a, e, c);
    } else {
      assert LineTokens(lines, tokens, a, e) == tokens(lines[a]);
    }
  }

  lemma GatheredExceedsIff(lines: seq<string>, tokens: Tokenizer, limit: int, a: nat, e: nat, c: nat)
    requires Additive(tokens) && a < e && Gathered(lines, tokens, limit, a, e, c)
    ensures LineTokens(lines, tokens, a, e) > limit <==>
              c > 0 && a + c < |lines| && LineTokens(lines, tokens, a, a + c) + tokens(lines[a + c]) > limit
  {
    AdditiveLines(lines, tokens, a, a + c);
    LineTokensSplit(lines, tokens, a, a + c, e);
    if c > 0 {
      LineTokensSplit(lines, tokens, a + c, a + c + 1, e);
    }
  }

  /** Lines with two breaks between them and two that nearly fill, and fill, the limit. */
  function Example(x: string, y: string): seq<string> {
    ["\n", "\n", x, y]
  }

  /** The two chunks of the example: the blank lines, and the other two together. */
  function ExampleChunks(filePath: string, x: string, y: string): seq<Chunk> {
    [Chunk(filePath, "\n\n", 1, 2), Chunk(filePath, x + y, 3, 4)]
  }

  /**
   * The limit is nearly doubled, for every limit from four on: counting characters, a line of two less than the limit
   * is carried over a blank line, and joined by a line that fills the limit alone.
   */
  lemma NearlyTwiceTheLimit(filePath: string, limit: int, x: string, y: string, chunks: seq<Chunk>, carried: seq<nat>)
    requires limit >= 4 && |x| == limit - 2 && |y| == limit && !Blank(x) && !Blank(y)
    requires Solves(Example(x, y), filePath, s => |s|, limit, chunks, carried)
    ensures chunks == ExampleChunks(filePath, x, y) && carried == [0, 1]
    ensures |chunks[1].text| == 2 * limit - 2 > limit
  {
    ExampleSolves(filePath, limit, x, y);
    ChunksAreDetermined(Example(x, y), filePath, s => |s|, limit, chunks, carried, ExampleChunks(filePath, x, y), [0, 1]);
  }

  lemma ExampleSolves(filePath: string, limit: int, x: string, y: string)
    requires limit >= 4 && |x| == limit - 2 && |y| == limit && !Blank(x) && !Blank(y)
    ensures Solves(Example(x, y), filePath, s => |s|, limit, ExampleChunks(filePath, x, y), [0, 1])
  {
    var lines, chunks, tokens := Example(x, y), ExampleChunks(filePath, x, y), (s: string) => |s|;
    ExampleCovers(filePath, x, y);
    assert LineTokens(lines, tokens, 0, 0) == 0;
    assert LineTokens(lines, tokens, 0, 1) == 1;
    assert LineTokens(lines, tokens, 0, 2) == 2;
    assert LineTokens(lines, tokens, 0, 3) == limit;
    assert lines[0..0] == [] && lines[2..3] == [x];
    JoinOne(x);
    assert tokens(Join(lines[0..0])) == 0;
    assert Running(lines, tokens, 0, 0, 3) == limit;
    assert Running(lines, tokens, 0, 0, 2) == 2;
    assert EndsFor(lines, tokens, limit, 0, 2, 0, 1);
    assert ChunkOk(lines, tokens, limit, 0, 2, 0);
    assert LineTokens(lines, tokens, 2, 2) == 0;
    assert LineTokens(lines, tokens, 2, 3) == limit - 2;
    assert ChunkOk(lines, tokens, limit, 2, 4, 1);
  }

  lemma ExampleCovers(filePath: string, x: string, y: string)
    ensures Covers(Example(x, y), filePath, ExampleChunks(filePath, x, y), 4)
  {
    var lines := Example(x, y);
    assert lines[0..2] == ["\n"] + ["\n"] && lines[2..4] == [x] + [y];
    JoinAppend(["\n"], ["\n"]);
    JoinAppend([x], [y]);
    JoinOne("\n");
    JoinOne(x);
    JoinOne(y);
  }

  /* ----- carried lines are weighed as one text ----- */

  /** A tokenizer to which every text is one token. */
  function Whole(s: string): nat {
    if s == "" then 0 else 1
  }

  function RecountChunks(filePath: string, lines: seq<string>): seq<Chunk>
    requires |lines| == 7
  {
    [Chunk(filePath, Join(lines[0..2]), 1, 2), Chunk(filePath, Join(lines[2..7]), 3, 7)]
  }

  /**
   * Two lines carried over a blank one count once, not twice: with a limit of four and lines of one token each, the
   * second chunk takes five lines.
   */
  lemma CarriedLinesCountAsOneText(filePath: string, lines: seq<string>, chunks: seq<Chunk>, carried: seq<nat>)
    requires |lines| == 7 && forall i :: 0 <= i < 7 ==> lines[i] != "" && (Blank(lines[i]) <==> i == 1)
    requires Solves(lines, filePath, Whole, 4, chunks, carried)
    ensures chunks == RecountChunks(filePath, lines) && carried == [0, 2]
  {
    RecountSolves(filePath, lines);
    ChunksAreDetermined(lines, filePath, Whole, 4, chunks, carried, RecountChunks(filePath, lines), [0, 2]);
  }

  lemma WholeLines(lines: seq<string>, a: nat, b: nat)
    requires a <= b <= |lines| && forall i :: a <= i < b ==> lines[i] != ""
    ensures LineTokens(lines, Whole, a, b) == b - a
    decreases b
  {
    if a < b {
      WholeLines(lines, a, b - 1);
    }
  }

  lemma RecountSolves(filePath: string, lines: seq<string>)
    requires |lines| == 7 && forall i :: 0 <= i < 7 ==> lines[i] != "" && (Blank(lines[i]) <==> i == 1)
    ensures Solves(lines, filePath, Whole, 4, RecountChunks(filePath, lines), [0, 2])
  {
    hide ChunkOk, EndsFor, Join, Blank;
    FirstRecountChunk(lines);
    SecondRecountChunk(lines);
  }

  lemma FirstRecountChunk(lines: seq<string>)
    requires |lines| == 7 && forall i :: 0 <= i < 7 ==> lines[i] != "" && (Blank(lines[i]) <==> i == 1)
    ensures ChunkOk(lines, Whole, 4, 0, 2, 0) && EndsFor(lines, Whole, 4, 0, 2, 0, 2)
  {
    hide LineTokens, Blank;
    WholeLines(lines, 0, 4);
    WholeLines(lines, 0, 2);
    WholeLines(lines, 0, 0);
    assert lines[0..0] == [];
    assert Running(lines, Whole, 0, 0, 4) == 4;
    assert Running(lines, Whole, 0, 0, 2) == 2;
  }

  lemma SecondRecountChunk(lines: seq<string>)
    requires |lines| == 7 && forall i :: 0 <= i < 7 ==> lines[i] != "" && (Blank(lines[i]) <==> i == 1)
    ensures ChunkOk(lines, Whole, 4, 2, 7, 2)
  {
    hide LineTokens, Blank, Join;
    WholeLines(lines, 2, 4);
    WholeLines(lines, 4, 7);
    CarriedText(lines);
    assert Running(lines, Whole, 2, 2, 7) == 4;
  }

  lemma CarriedText(lines: seq<string>)
    requires |lines| == 7 && lines[2] != ""
    ensures Whole(Join(lines[2..4])) == 1
  {
    assert lines[2..4] == [lines[2]] + [lines[3]];
    JoinAppend([lines[2]], [lines[3]]);
    JoinOne(lines[2]);
  }
}
