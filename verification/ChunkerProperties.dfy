/** What the layout of the chunks means for their readers: nothing lost, nothing doubled, bounded weight. */
module ChunkerProperties {
  import opened Text
  import opened Chunker

  function Texts(chunks: seq<Chunk>): seq<string> {
    seq(|chunks|, i requires 0 <= i < |chunks| => chunks[i].text)
  }

  lemma CoversPrefix(lines: seq<string>, filePath: string, chunks: seq<Chunk>, upto: nat)
    requires Covers(lines, filePath, chunks, upto) && chunks != []
    ensures Covers(lines, filePath, chunks[..|chunks| - 1], chunks[|chunks| - 1].startLine - 1)
  {
    var init := chunks[..|chunks| - 1];
    var a := chunks[|chunks| - 1].startLine - 1;
    forall k | 0 <= k < |init|
      ensures init[k] == chunks[k] && init[k].endLine <= a
    {
      EndsGrow(lines, filePath, chunks, upto, k, |init| - 1);
    }
  }

  lemma {:induction false} EndsGrow(lines: seq<string>, filePath: string, chunks: seq<Chunk>, upto: nat, j: nat, k: nat)
    requires Covers(lines, filePath, chunks, upto) && j <= k < |chunks|
    ensures chunks[j].endLine <= chunks[k].endLine
    ensures j < k ==> chunks[j].endLine < chunks[k].startLine
    decreases k
  {
    if j < k {
      EndsGrow(lines, filePath, chunks, upto, j, k - 1);
    }
  }

  /** One chunk, by itself. */
  lemma ChunkAt(lines: seq<string>, filePath: string, chunks: seq<Chunk>, upto: nat, k: nat)
    requires Covers(lines, filePath, chunks, upto) && k < |chunks|
    ensures 1 <= chunks[k].startLine <= chunks[k].endLine <= upto <= |lines| && chunks[k].filePath == filePath
    ensures chunks[k].text == Join(lines[chunks[k].startLine - 1..chunks[k].endLine])
    ensures chunks[k].startLine == (if k == 0 then 1 else chunks[k - 1].endLine + 1)
    ensures k + 1 == |chunks| ==> chunks[k].endLine == upto
  {
    hide Join;
  }

  /** Chunk texts, put one after the other, are the lines they cover. */
  lemma {:induction false} TextsAreLines(lines: seq<string>, filePath: string, chunks: seq<Chunk>, upto: nat)
    requires Covers(lines, filePath, chunks, upto)
    ensures Join(Texts(chunks)) == Join(lines[..upto])
    decreases |chunks|
  {
    if chunks == [] {
      assert lines[..0] == [];
    } else {
      hide Join;
      var init, chunk := chunks[..|chunks| - 1], chunks[|chunks| - 1];
      var a := chunk.startLine - 1;
      ChunkAt(lines, filePath, chunks, upto, |chunks| - 1);
      CoversPrefix(lines, filePath, chunks, upto);
      hide Covers;
      TextsAreLines(lines, filePath, init, a);
      assert Texts(chunks) == Texts(init) + [chunk.text];
      JoinAppend(Texts(init), [chunk.text]);
      assert lines[..upto] == lines[..a] + lines[a..upto];
      JoinAppend(lines[..a], lines[a..upto]);
      JoinOne(chunk.text);
    }
  }

  lemma JoinOne(s: string)
    ensures Join([s]) == s
  {
    assert Join([s]) == s + Join([]);
  }

  /** For non-blank content the chunk texts concatenate to the content, byte for byte. */
  lemma ChunksConcatenate(content: string, filePath: string, chunks: seq<Chunk>)
    requires Covers(SplitLines(content), filePath, chunks, |SplitLines(content)|)
    ensures Join(Texts(chunks)) == content
  {
    var lines := SplitLines(content);
    TextsAreLines(lines, filePath, chunks, |lines|);
    assert lines[..|lines|] == lines;
    JoinSplit(content);
  }

  predicate CoversLine(chunks: seq<Chunk>, k: nat, n: nat) {
    k < |chunks| && chunks[k].startLine <= n <= chunks[k].endLine
  }

  lemma {:induction false} FindChunk(lines: seq<string>, filePath: string, chunks: seq<Chunk>, upto: nat, n: nat)
    returns (k: nat)
    requires Covers(lines, filePath, chunks, upto) && 1 <= n <= upto
    ensures CoversLine(chunks, k, n)
    decreases |chunks|
  {
    var last := chunks[|chunks| - 1];
    if last.startLine <= n {
      k := |chunks| - 1;
    } else {
      CoversPrefix(lines, filePath, chunks, upto);
      k := FindChunk(lines, filePath, chunks[..|chunks| - 1], last.startLine - 1, n);
    }
  }

  /** Every line number from 1 to the number of lines lies in exactly one chunk. */
  lemma EveryLineInOneChunk(lines: seq<string>, filePath: string, chunks: seq<Chunk>, n: nat)
    requires Covers(lines, filePath, chunks, |lines|) && 1 <= n <= |lines|
    ensures exists k :: CoversLine(chunks, k, n)
    ensures forall j, k :: CoversLine(chunks, j, n) && CoversLine(chunks, k, n) ==> j == k
  {
    var k := FindChunk(lines, filePath, chunks, |lines|, n);
    forall j, k | CoversLine(chunks, j, n) && CoversLine(chunks, k, n)
      ensures j == k
    {
      if j < k {
        EndsGrow(lines, filePath, chunks, |lines|, j, k);
      } else if k < j {
        EndsGrow(lines, filePath, chunks, |lines|, k, j);
      }
    }
  }

  /* ----- weight ----- */

  /** Putting texts together never takes more tokens than the parts. */
  ghost predicate Subadditive(tokens: Tokenizer) {
    tokens("") == 0 && forall x, y {:trigger tokens(x + y)} :: tokens(x + y) <= tokens(x) + tokens(y)
  }

  lemma {:induction false} JoinedTokens(lines: seq<string>, tokens: Tokenizer, a: nat, b: nat)
    requires Subadditive(tokens) && a <= b <= |lines|
    ensures tokens(Join(lines[a..b])) <= LineTokens(lines, tokens, a, b)
    decreases b
  {
    if a == b {
      assert lines[a..b] == [];
    } else {
      JoinedTokens(lines, tokens, a, b - 1);
      assert lines[a..b] == lines[a..b - 1] + [lines[b - 1]];
      JoinAppend(lines[a..b - 1], [lines[b - 1]]);
      assert Join([lines[b - 1]]) == lines[b - 1] + Join([]);
    }
  }

  lemma RunningBoundsTokens(lines: seq<string>, tokens: Tokenizer, a: nat, carried: nat, b: nat)
    requires Subadditive(tokens) && a + carried <= b <= |lines|
    ensures tokens(Join(lines[a..b])) <= Running(lines, tokens, a, carried, b)
  {
    var m := a + carried;
    assert lines[a..b] == lines[a..m] + lines[m..b];
    JoinAppend(lines[a..m], lines[m..b]);
    JoinedTokens(lines, tokens, m, b);
  }

  /**
   * For any tokenizer, counting line by line: a chunk is a single oversized line, or its lines count at most the limit
   * together, or it starts with lines carried over a blank-line split and they count at most twice the limit.
   */
  lemma ChunkLinesBound(lines: seq<string>, tokens: Tokenizer, limit: int, chunks: seq<Chunk>, carried: seq<nat>,
                        filePath: string, k: nat)
    requires k < |chunks| <= |carried|
    requires Covers(lines, filePath, chunks, |lines|)
    requires Justified(lines, tokens, limit, chunks, carried)
    ensures var a, e := chunks[k].startLine - 1, chunks[k].endLine;
            || Oversized(lines, tokens, limit, a, e)
            || LineTokens(lines, tokens, a, e) <= limit
            || (0 < carried[k] < e - a && LineTokens(lines, tokens, a, e) <= 2 * limit)
  {
    var a, e, c := chunks[k].startLine - 1, chunks[k].endLine, carried[k];
    assert ChunkOk(lines, tokens, limit, a, e, c);
    if !Oversized(lines, tokens, limit, a, e) {
      GatheredLinesBound(lines, tokens, limit, a, e, c);
    }
  }

  lemma GatheredLinesBound(lines: seq<string>, tokens: Tokenizer, limit: int, a: nat, e: nat, carried: nat)
    requires a < e && Gathered(lines, tokens, limit, a, e, carried)
    ensures LineTokens(lines, tokens, a, e) <= if carried == 0 then limit else 2 * limit
  {
    LineTokensSplit(lines, tokens, a, a + carried, e);
    if carried > 0 && e == a + carried + 1 {
      assert LineTokens(lines, tokens, a + carried, e) == tokens(lines[e - 1]);
    }
  }

  /**
   * For any subadditive tokenizer: a chunk is a single oversized line, or it weighs at most the limit, or it
   * starts with lines carried over a blank-line split and weighs at most twice the limit.
   */
  lemma ChunkWeightBound(lines: seq<string>, tokens: Tokenizer, limit: int, chunks: seq<Chunk>, carried: seq<nat>,
                         filePath: string, k: nat)
    requires Subadditive(tokens) && k < |chunks| <= |carried|
    requires Covers(lines, filePath, chunks, |lines|)
    requires Justified(lines, tokens, limit, chunks, carried)
    ensures var a, e := chunks[k].startLine - 1, chunks[k].endLine;
            || Oversized(lines, tokens, limit, a, e)
            || tokens(chunks[k].text) <= limit
            || (0 < carried[k] < e - a && tokens(chunks[k].text) <= 2 * limit)
  {
    var a, e, c := chunks[k].startLine - 1, chunks[k].endLine, carried[k];
    assert ChunkOk(lines, tokens, limit, a, e, c);
    if !Oversized(lines, tokens, limit, a, e) {
      RunningBoundsTokens(lines, tokens, a, c, e);
      if Running(lines, tokens, a, c, e) > limit {
        JoinedTokens(lines, tokens, a, a + c);
        assert LineTokens(lines, tokens, a + c, e) == tokens(lines[e - 1]);
      }
    }
  }

  /** Carried lines come right after a blank line and contain none. */
  lemma CarriedLinesFollowBlank(lines: seq<string>, tokens: Tokenizer, limit: int, chunks: seq<Chunk>, carried: seq<nat>,
                                filePath: string, k: nat)
    requires k < |chunks| == |carried| && carried[k] > 0
    requires Covers(lines, filePath, chunks, |lines|)
    requires Justified(lines, tokens, limit, chunks, carried)
    ensures var a := chunks[k].startLine - 1;
            && k > 0 && 0 < a <= |lines| && Blank(lines[a - 1])
            && forall j :: a <= j < a + carried[k] ==> j < |lines| && !Blank(lines[j])
  {
    var a := chunks[k].startLine - 1;
    assert ChunkOk(lines, tokens, limit, a, chunks[k].endLine, carried[k]);
    assert EndsFor(lines, tokens, limit, chunks[k - 1].startLine - 1, chunks[k - 1].endLine, carried[k - 1], carried[k]);
  }
}
