/**
 * Reading session files (libs/claude_usage/reader.py). Files are byte sequences read line by line at newline
 * bytes; decoding one line is a parameter, so that nothing depends on the syntax inside a line.
 */
module UsageReader {
  import opened Options

  newtype byte = x: int | 0 <= x < 256
  type Bytes = seq<byte>

  const NEWLINE: byte := 10

  datatype Usage = Usage(inputTokens: int, cacheCreationTokens: int, cacheReadTokens: int, outputTokens: int)

  /** A decoded line; usage is absent when the record has no usable message.usage. */
  datatype SessionRecord = SessionRecord(kind: string, timestamp: real, sessionId: string, usage: Option<Usage>)

  datatype UsageEvent = UsageEvent(timestamp: real, sessionId: string, usage: Usage)

  /** A line that is not JSON is skipped; JSON other than an object, or with counts that are no numbers, raises. */
  datatype Decoded = NotJson | Raises | Decoded(record: SessionRecord)

  type Decoder = Bytes -> Decoded

  /** The events a line stands for: one for an assistant record with usage, none otherwise. */
  function EventsOfLine(line: Bytes, decode: Decoder): seq<UsageEvent> {
    match decode(line)
    case Decoded(r) =>
      if r.kind != "assistant" || r.usage.None? then []
      else [UsageEvent(r.timestamp, r.sessionId, r.usage.value)]
    case _ => []
  }

  /** No line raises. */
  predicate Readable(lines: seq<Bytes>, decode: Decoder) {
    forall i :: 0 <= i < |lines| ==> !decode(lines[i]).Raises?
  }

  /** End of the first line, its newline included. */
  function FirstLineEnd(data: Bytes): (e: nat)
    requires data != []
    ensures 1 <= e <= |data|
    ensures forall i :: 0 <= i < e - 1 ==> data[i] != NEWLINE
    ensures e < |data| ==> data[e - 1] == NEWLINE
  {
    if data[0] == NEWLINE || |data| == 1 then 1 else 1 + FirstLineEnd(data[1..])
  }

  /** The lines a binary file yields when iterated. */
  function FileLines(data: Bytes): seq<Bytes> {
    if data == [] then [] else [data[..FirstLineEnd(data)]] + FileLines(data[FirstLineEnd(data)..])
  }

  function EventsOfLines(lines: seq<Bytes>, decode: Decoder): seq<UsageEvent> {
    if lines == [] then [] else EventsOfLine(lines[0], decode) + EventsOfLines(lines[1..], decode)
  }

  /** What reading these lines yields: their events, or an exception. */
  function Reading(lines: seq<Bytes>, decode: Decoder): Option<seq<UsageEvent>> {
    if Readable(lines, decode) then Some(EventsOfLines(lines, decode)) else None
  }

  /** The events in a file. */
  function AllEvents(data: Bytes, decode: Decoder): seq<UsageEvent> {
    EventsOfLines(FileLines(data), decode)
  }

  lemma Regroup<T>(x: seq<T>, y: seq<T>, z: seq<T>)
    ensures x + (y + z) == (x + y) + z
  {
  }

  lemma EventsOfNext(lines: seq<Bytes>, i: nat, decode: Decoder)
    requires i < |lines|
    ensures EventsOfLines(lines[i..], decode) == EventsOfLine(lines[i], decode) + EventsOfLines(lines[i + 1..], decode)
    ensures EventsOfLine(lines[i], decode) == [] ==> EventsOfLines(lines[i..], decode) == EventsOfLines(lines[i + 1..], decode)
  {
    assert lines[i..][1..] == lines[i + 1..];
  }

  lemma LineWithoutEvent(line: Bytes, decode: Decoder)
    ensures EventsOfLine(line, decode) ==
            match decode(line)
            case Decoded(SessionRecord(kind, timestamp, id, Some(usage))) =>
              if kind == "assistant" then [UsageEvent(timestamp, id, usage)] else []
            case _ => []
  {
  }

  lemma ReadableNext(lines: seq<Bytes>, i: nat, decode: Decoder)
    requires i < |lines|
    ensures Readable(lines[..i], decode) ==> (Readable(lines[..i + 1], decode) <==> !decode(lines[i]).Raises?)
    ensures decode(lines[i]).Raises? ==> !Readable(lines, decode)
  {
  }

  lemma NothingRead(lines: seq<Bytes>, decode: Decoder)
    ensures Readable(lines[..0], decode)
    ensures [] + EventsOfLines(lines[0..], decode) == EventsOfLines(lines, decode)
  {
    assert lines[0..] == lines;
  }

  lemma AllRead(lines: seq<Bytes>, yielded: seq<UsageEvent>, decode: Decoder)
    requires yielded + EventsOfLines(lines[|lines|..], decode) == EventsOfLines(lines, decode)
    ensures yielded == EventsOfLines(lines, decode) && lines[..|lines|] == lines
  {
    assert yielded + [] == yielded;
  }

  /** What is left of a file after a seek, which may go past its end. */
  function Rest(data: Bytes, startOffset: nat): Bytes {
    if startOffset <= |data| then data[startOffset..] else []
  }

  /** The lines that are read: all of them, or those before the read fails. */
  function LinesRead(data: Bytes, failsAfter: Option<nat>): seq<Bytes> {
    var lines := FileLines(data);
    if failsAfter.Some? && failsAfter.value < |lines| then lines[..failsAfter.value] else lines
  }

  /**
   * Seeks, then goes through the rest line by line; a read that fails keeps what came before, and a line that raises
   * leaves the caller with nothing.
   */
  method ReadSessionFile(data: Bytes, failsAfter: Option<nat>, startOffset: nat, decode: Decoder)
    returns (events: Option<seq<UsageEvent>>)
    ensures events == Reading(LinesRead(Rest(data, startOffset), failsAfter), decode)
  {
    hide EventsOfLines, EventsOfLine, Readable, LinesRead;
    var yielded: seq<UsageEvent> := [];
    var lines := LinesRead(Rest(data, startOffset), failsAfter);
    NothingRead(lines, decode);
    for i := 0 to |lines|
      invariant Readable(lines[..i], decode)
      invariant yielded + EventsOfLines(lines[i..], decode) == EventsOfLines(lines, decode)
    {
      EventsOfNext(lines, i, decode);
      ReadableNext(lines, i, decode);
      LineWithoutEvent(lines[i], decode);
      var obj := decode(lines[i]);
      if obj.NotJson? {
        continue;
      }
      if obj.Raises? {
        return None;
      }
      if obj.record.kind != "assistant" {
        continue;
      }
      if obj.record.usage.None? {
        continue;
      }
      Regroup(yielded, EventsOfLine(lines[i], decode), EventsOfLines(lines[i + 1..], decode));
      yielded := yielded + [UsageEvent(obj.record.timestamp, obj.record.sessionId, obj.record.usage.value)];
    }
    AllRead(lines, yielded, decode);
    events := Some(yielded);
  }

  /* ----- what lines and events are ----- */

  /** Every line ends at its first newline, and only the last one may lack it; together they are the file. */
  predicate AreLines(lines: seq<Bytes>, data: Bytes) {
    && Concatenated(lines) == data
    && (forall k :: 0 <= k < |lines| ==> lines[k] != [] && forall i :: 0 <= i < |lines[k]| - 1 ==> lines[k][i] != NEWLINE)
    && (forall k :: 0 <= k < |lines| - 1 ==> lines[k][|lines[k]| - 1] == NEWLINE)
  }

  function Concatenated(lines: seq<Bytes>): Bytes {
    if lines == [] then [] else lines[0] + Concatenated(lines[1..])
  }

  lemma {:induction false} FileLinesAreLines(data: Bytes)
    ensures AreLines(FileLines(data), data)
    decreases |data|
  {
    if data != [] {
      var e := FirstLineEnd(data);
      var lines, rest := FileLines(data), FileLines(data[e..]);
      FileLinesAreLines(data[e..]);
      assert lines == [data[..e]] + rest && lines[1..] == rest;
      assert data == data[..e] + data[e..];
      forall k | 0 <= k < |lines|
        ensures lines[k] != [] && forall i :: 0 <= i < |lines[k]| - 1 ==> lines[k][i] != NEWLINE
        ensures k < |lines| - 1 ==> lines[k][|lines[k]| - 1] == NEWLINE
      {
        if k > 0 {
          assert lines[k] == rest[k - 1];
        }
      }
    }
  }

  /** Increasing positions. */
  predicate Increasing(at: seq<nat>, limit: nat) {
    && (forall i :: 0 <= i < |at| ==> at[i] < limit)
    && (forall i, j :: 0 <= i < j < |at| ==> at[i] < at[j])
  }

  /** The line is an assistant record with usage, and e its event. */
  predicate Tells(line: Bytes, e: UsageEvent, decode: Decoder) {
    decode(line) == Decoded(SessionRecord("assistant", e.timestamp, e.sessionId, Some(e.usage)))
  }

  predicate HasEvent(line: Bytes, decode: Decoder) {
    && decode(line).Decoded?
    && decode(line).record.kind == "assistant" && decode(line).record.usage.Some?
  }

  /** The events are those of the assistant records with usage among the lines, one each, in their order. */
  predicate AreEventsOf(at: seq<nat>, events: seq<UsageEvent>, lines: seq<Bytes>, decode: Decoder) {
    && Increasing(at, |lines|) && |at| == |events|
    && (forall i :: 0 <= i < |at| ==> Tells(lines[at[i]], events[i], decode))
    && (forall k: nat :: k < |lines| && HasEvent(lines[k], decode) ==> k in at)
  }

  lemma {:induction false} EventsAreOfLines(lines: seq<Bytes>, decode: Decoder) returns (at: seq<nat>)
    ensures AreEventsOf(at, EventsOfLines(lines, decode), lines, decode)
  {
    hide AreEventsOf, EventsOfLines;
    if lines == [] {
      at := [];
      NoEventsOfNothing(decode);
    } else {
      var last := |lines| - 1;
      var init := lines[..last];
      assert lines == init + [lines[last]];
      EventsOfLast(init, lines[last], decode);
      var before := EventsAreOfLines(init, decode);
      at := if HasEvent(lines[last], decode) then before + [last] else before;
      OneMoreLine(before, EventsOfLines(init, decode), init, lines[last], decode);
    }
  }

  lemma NoEventsOfNothing(decode: Decoder)
    ensures AreEventsOf([], EventsOfLines([], decode), [], decode)
  {
  }

  lemma OneMoreLine(at: seq<nat>, events: seq<UsageEvent>, lines: seq<Bytes>, line: Bytes, decode: Decoder)
    requires AreEventsOf(at, events, lines, decode)
    ensures AreEventsOf(if HasEvent(line, decode) then at + [|lines|] else at, events + EventsOfLine(line, decode), lines + [line], decode)
  {
    var all := lines + [line];
    assert forall k: nat :: k < |lines| ==> all[k] == lines[k];
    if HasEvent(line, decode) {
      var r := decode(line).record;
      assert EventsOfLine(line, decode) == [UsageEvent(r.timestamp, r.sessionId, r.usage.value)];
    } else {
      assert EventsOfLine(line, decode) == [];
      assert events + [] == events;
    }
  }

  lemma {:induction false} EventsOfLast(lines: seq<Bytes>, line: Bytes, decode: Decoder)
    ensures EventsOfLines(lines + [line], decode) == EventsOfLines(lines, decode) + EventsOfLine(line, decode)
  {
    var all := lines + [line];
    if lines == [] {
      assert all[1..] == [];
      assert EventsOfLine(line, decode) + [] == EventsOfLine(line, decode);
    } else {
      assert all[1..] == lines[1..] + [line];
      EventsOfLast(lines[1..], line, decode);
      Regroup(EventsOfLine(lines[0], decode), EventsOfLines(lines[1..], decode), EventsOfLine(line, decode));
    }
  }
}
