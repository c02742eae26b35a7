/** The incremental session cache (libs/claude_usage/cache.py) and its agreement with full reads. */
module UsageCache {
  import opened Options
  import opened UsageReader

  /** A row of the cache table; the stored JSON is taken to give back the events put in. */
  datatype Row = Row(lastOffset: nat, events: seq<UsageEvent>)

  /** A session file as one sync finds it: its size when asked for, then its content, read up to some line at least. */
  datatype Snapshot = Snapshot(size: nat, data: Bytes, failsAfter: Option<nat>)

  function Since(events: seq<UsageEvent>, sinceTs: real): seq<UsageEvent> {
    if events == [] then []
    else (if events[0].timestamp >= sinceTs then [events[0]] else []) + Since(events[1..], sinceTs)
  }

  function Cached(row: Option<Row>): Row {
    if row.None? then Row(0, []) else row.value
  }

  /** What a sync reads: the tail behind the offset, if the file looks longer than that. */
  function TailReading(row: Option<Row>, file: Snapshot, decode: Decoder): Option<seq<UsageEvent>> {
    if file.size > Cached(row).lastOffset then
      Reading(LinesRead(Rest(file.data, Cached(row).lastOffset), file.failsAfter), decode)
    else Some([])
  }

  /** The row of one file after a sync; a read that raises leaves it alone. */
  function Synced(row: Option<Row>, file: Snapshot, decode: Decoder): Option<Row> {
    var tail := TailReading(row, file, decode);
    if file.size > Cached(row).lastOffset && tail.Some? then Some(Row(file.size, Cached(row).events + tail.value)) else row
  }

  /** The answer of a sync, unless it raises. */
  function Answer(row: Option<Row>, file: Snapshot, sinceTs: real, decode: Decoder): Option<seq<UsageEvent>> {
    if TailReading(row, file, decode).None? then None
    else Some(Since(Cached(Synced(row, file, decode)).events, sinceTs))
  }

  class Cache {
    var rows: map<string, Row>

    constructor ()
      ensures rows == map[]
    {
      rows := map[];
    }

    function RowOf(path: string): Option<Row>
      reads this
    {
      if path in rows then Some(rows[path]) else None
    }

    method SyncAndQuery(path: string, file: Option<Snapshot>, sinceTs: real, decode: Decoder)
      returns (events: Option<seq<UsageEvent>>)
      modifies this
      ensures file.None? ==> events == Some([]) && rows == old(rows)
      ensures file.Some? ==>
                && RowOf(path) == Synced(old(RowOf(path)), file.value, decode)
                && events == Answer(old(RowOf(path)), file.value, sinceTs, decode)
                && (events.Some? ==> AreRecent(events.value, Cached(RowOf(path)).events, sinceTs))
      ensures forall other :: other != path ==> RowOf(other) == old(RowOf(other))
    {
      hide Since, EventsOfLines, LinesRead, Readable;
      if file.None? {
        return Some([]);
      }
      var currentSize := file.value.size;
      var cachedEvents, lastOffset := [], 0;
      if path in rows {
        lastOffset := rows[path].lastOffset;
        cachedEvents := rows[path].events;
      }
      if currentSize > lastOffset {
        var newEvents := ReadSessionFile(file.value.data, file.value.failsAfter, lastOffset, decode);
        if newEvents.None? {
          return None;
        }
        cachedEvents := cachedEvents + newEvents.value;
        rows := rows[path := Row(currentSize, cachedEvents)];
      }
      var recent := Filter(cachedEvents, sinceTs);
      SinceIsRecent(cachedEvents, sinceTs);
      events := Some(recent);
    }
  }

  /** The final comprehension, a loop over the events. */
  method Filter(all: seq<UsageEvent>, sinceTs: real) returns (events: seq<UsageEvent>)
    ensures events == Since(all, sinceTs)
  {
    events := [];
    for i := 0 to |all|
      invariant events + Since(all[i..], sinceTs) == Since(all, sinceTs)
    {
      assert all[i..][1..] == all[i + 1..];
      if all[i].timestamp >= sinceTs {
        events := events + [all[i]];
      }
    }
  }

  /** Which of all events these are, by position. */
  predicate Picks(at: seq<nat>, some: seq<UsageEvent>, all: seq<UsageEvent>, sinceTs: real) {
    && Increasing(at, |all|) && |at| == |some|
    && (forall i :: 0 <= i < |at| ==> some[i] == all[at[i]] && some[i].timestamp >= sinceTs)
    && (forall k: nat :: k < |all| && all[k].timestamp >= sinceTs ==> k in at)
  }

  /** The events from the given time on, each as often as it is there, in their order. */
  ghost predicate AreRecent(some: seq<UsageEvent>, all: seq<UsageEvent>, sinceTs: real) {
    && (exists at :: Picks(at, some, all, sinceTs))
    && forall e :: multiset(some)[e] == if e.timestamp >= sinceTs then multiset(all)[e] else 0
  }

  lemma {:induction false} SinceIsRecent(all: seq<UsageEvent>, sinceTs: real)
    ensures AreRecent(Since(all, sinceTs), all, sinceTs)
  {
    var at := SincePicks(all, sinceTs);
    SinceCounts(all, sinceTs);
  }

  lemma {:induction false} SinceOfLast(all: seq<UsageEvent>, e: UsageEvent, sinceTs: real)
    ensures Since(all + [e], sinceTs) == Since(all, sinceTs) + if e.timestamp >= sinceTs then [e] else []
  {
    if all == [] {
      assert ([e])[1..] == [] && all + [e] == [e];
    } else {
      assert (all + [e])[1..] == all[1..] + [e];
      SinceOfLast(all[1..], e, sinceTs);
    }
  }

  lemma {:induction false} SincePicks(all: seq<UsageEvent>, sinceTs: real) returns (at: seq<nat>)
    ensures Picks(at, Since(all, sinceTs), all, sinceTs)
  {
    at := [];
    if all != [] {
      var last := |all| - 1;
      var init := all[..last];
      assert all == init + [all[last]];
      SinceOfLast(init, all[last], sinceTs);
      at := SincePicks(init, sinceTs);
      assert forall k: nat :: k < last ==> all[k] == init[k];
      if all[last].timestamp >= sinceTs {
        at := at + [last];
      }
    }
  }

  lemma {:induction false} SinceCounts(all: seq<UsageEvent>, sinceTs: real)
    ensures forall e :: multiset(Since(all, sinceTs))[e] == if e.timestamp >= sinceTs then multiset(all)[e] else 0
  {
    if all != [] {
      var last := |all| - 1;
      var init := all[..last];
      assert all == init + [all[last]];
      SinceOfLast(init, all[last], sinceTs);
      SinceCounts(init, sinceTs);
    }
  }

  /* ----- agreement with a full read ----- */

  /** Reading can resume at o: it is the start of the file or comes right after a newline. */
  predicate Boundary(data: Bytes, o: nat)
    requires o <= |data|
  {
    o == 0 || data[o - 1] == NEWLINE
  }

  lemma {:induction false} LinesSplitAtBoundary(a: Bytes, b: Bytes)
    requires Boundary(a, |a|)
    ensures FileLines(a + b) == FileLines(a) + FileLines(b)
    decreases |a|
  {
    if a == [] {
      assert a + b == b;
      NoLines();
    } else {
      hide FileLines, FirstLineEnd;
      var e := FirstLineEnd(a);
      FirstLineOfPrefix(a, b);
      LinesOf(a);
      LinesOf(a + b);
      assert (a + b)[..e] == a[..e] && (a + b)[e..] == a[e..] + b by {
        SlicesOfConcat(a, b, e);
      }
      LinesSplitAtBoundary(a[e..], b);
      Regroup([a[..e]], FileLines(a[e..]), FileLines(b));
    }
  }

  lemma SlicesOfConcat(a: Bytes, b: Bytes, e: nat)
    requires e <= |a|
    ensures (a + b)[..e] == a[..e] && (a + b)[e..] == a[e..] + b
  {
  }

  lemma NoLines()
    ensures FileLines([]) == []
  {
  }

  lemma LinesOf(data: Bytes)
    requires data != []
    ensures FileLines(data) == [data[..FirstLineEnd(data)]] + FileLines(data[FirstLineEnd(data)..])
  {
  }

  lemma FirstLineOfPrefix(a: Bytes, b: Bytes)
    requires a != [] && Boundary(a, |a|)
    ensures FirstLineEnd(a + b) == FirstLineEnd(a)
  {
    var e, f := FirstLineEnd(a), FirstLineEnd(a + b);
    assert forall i :: 0 <= i < |a| ==> (a + b)[i] == a[i];
    assert a[e - 1] == NEWLINE;
  }

  lemma {:induction false} EventsAppend(x: seq<Bytes>, y: seq<Bytes>, decode: Decoder)
    ensures EventsOfLines(x + y, decode) == EventsOfLines(x, decode) + EventsOfLines(y, decode)
  {
    if x == [] {
      assert x + y == y;
    } else {
      assert (x + y)[1..] == x[1..] + y;
      EventsAppend(x[1..], y, decode);
    }
  }

  lemma {:induction false} LinesCount(a: Bytes, b: Bytes)
    requires a != [] && b != [] && a[|a| - 1] != NEWLINE
    ensures |FileLines(a + b)| < |FileLines(a)| + |FileLines(b)|
    decreases |a|
  {
    hide FileLines, FirstLineEnd;
    var e := FirstLineEnd(a);
    LinesOf(a);
    LinesOf(a + b);
    FirstLineOfBoth(a, b);
    if e < |a| {
      SlicesOfConcat(a, b, e);
      LinesCount(a[e..], b);
    } else {
      LinesOf(b);
      NoLines();
      assert a[e..] == [];
      var f := FirstLineEnd(b);
      assert (a + b)[|a| + f..] == b[f..];
    }
  }

  /** The first line of a + b is that of a, or goes on into the first line of b. */
  lemma FirstLineOfBoth(a: Bytes, b: Bytes)
    requires a != [] && b != [] && a[|a| - 1] != NEWLINE
    ensures FirstLineEnd(a + b) == if FirstLineEnd(a) < |a| then FirstLineEnd(a) else |a| + FirstLineEnd(b)
  {
    hide FirstLineEnd;
    var s, e, f := a + b, FirstLineEnd(a), FirstLineEnd(a + b);
    assert forall i :: 0 <= i < |s| ==> s[i] == if i < |a| then a[i] else b[i - |a|];
    if e < |a| {
      assert s[e - 1] == NEWLINE;
    } else {
      var g := FirstLineEnd(b);
      assert s[|a| + g - 1] == b[g - 1];
      assert f > |a| ==> s[f - 1] == b[f - 1 - |a|];
    }
  }

  /** A tail read adds up to a full read, whatever is in the lines, exactly if it resumes at a boundary. */
  lemma TailReadIffBoundary(data: Bytes, o: nat)
    requires o <= |data|
    ensures FileLines(data[..o]) + FileLines(data[o..]) == FileLines(data) <==> Boundary(data, o) || o == |data|
  {
    assert data == data[..o] + data[o..];
    if Boundary(data, o) {
      LinesSplitAtBoundary(data[..o], data[o..]);
    } else if o == |data| {
      assert data[o..] == [] && data[..o] == data;
      assert FileLines(data) + [] == FileLines(data);
    } else {
      LinesCount(data[..o], data[o..]);
    }
  }

  lemma {:induction false} ReadableAppend(x: seq<Bytes>, y: seq<Bytes>, decode: Decoder)
    ensures Readable(x + y, decode) <==> Readable(x, decode) && Readable(y, decode)
  {
    assert forall i :: 0 <= i < |x| ==> (x + y)[i] == x[i];
    assert forall i :: 0 <= i < |y| ==> (x + y)[|x| + i] == y[i];
  }

  predicate NewlineTerminated(data: Bytes) {
    Boundary(data, |data|)
  }

  /** No line of the file raises. */
  predicate Sound(data: Bytes, decode: Decoder) {
    Readable(FileLines(data), decode)
  }

  lemma Appended(a: Bytes, b: Bytes, decode: Decoder)
    requires NewlineTerminated(a)
    ensures AllEvents(a + b, decode) == AllEvents(a, decode) + AllEvents(b, decode)
    ensures Sound(a + b, decode) <==> Sound(a, decode) && Sound(b, decode)
  {
    LinesSplitAtBoundary(a, b);
    EventsAppend(FileLines(a), FileLines(b), decode);
    ReadableAppend(FileLines(a), FileLines(b), decode);
  }

  /** The row of a file holds what a full read of data yields. */
  predicate RowAgrees(row: Option<Row>, data: Bytes, decode: Decoder) {
    Sound(data, decode) && Cached(row) == Row(|data|, AllEvents(data, decode))
  }

  /** A sync that reads data to its end, from a row that is no further. */
  lemma FullSync(row: Option<Row>, data: Bytes, decode: Decoder)
    requires Cached(row).lastOffset <= |data|
    ensures var tail := data[Cached(row).lastOffset..];
            var file := Snapshot(|data|, data, None);
            && (TailReading(row, file, decode).Some? <==> Sound(tail, decode))
            && (Sound(tail, decode) ==> Cached(Synced(row, file, decode)) == Row(|data|, Cached(row).events + AllEvents(tail, decode)))
            && (!Sound(tail, decode) ==> Synced(row, file, decode) == row)
  {
    hide FileLines, EventsOfLines;
    if Cached(row).lastOffset == |data| {
      NothingLeft(decode);
      assert data[|data|..] == [];
      assert Cached(row).events + [] == Cached(row).events;
    }
  }

  lemma NothingLeft(decode: Decoder)
    ensures AllEvents([], decode) == [] && Sound([], decode)
  {
  }

  /** One more sync of a file that has grown, or not. */
  lemma SyncAgrees(row: Option<Row>, before: Bytes, data: Bytes, decode: Decoder)
    requires RowAgrees(row, before, decode) && NewlineTerminated(before) && before <= data
    ensures var file := Snapshot(|data|, data, None);
            && (TailReading(row, file, decode).Some? <==> Sound(data, decode))
            && if Sound(data, decode) then RowAgrees(Synced(row, file, decode), data, decode) else Synced(row, file, decode) == row
  {
    hide FileLines, EventsOfLines, Synced, TailReading, Sound, AllEvents;
    var tail := data[|before|..];
    assert data == before + tail;
    Appended(before, tail, decode);
    FullSync(row, data, decode);
  }

  /** Rows after syncing with each of the snapshots in turn, from nothing. */
  function SyncedAll(files: seq<Snapshot>, decode: Decoder): Option<Row> {
    if files == [] then None else Synced(SyncedAll(files[..|files| - 1], decode), files[|files| - 1], decode)
  }

  /** An append-only file, readable, ending with a newline and not growing whenever it is synced. */
  predicate Growing(files: seq<Snapshot>) {
    && (forall i :: 0 <= i < |files| ==> files[i] == Snapshot(|files[i].data|, files[i].data, None) && NewlineTerminated(files[i].data))
    && (forall i, j :: 0 <= i <= j < |files| ==> files[i].data <= files[j].data)
  }

  /** The last state of the file without a line that raises. */
  function LastSound(files: seq<Snapshot>, decode: Decoder): (data: Bytes)
    ensures data == [] || exists i :: 0 <= i < |files| && files[i].data == data
  {
    if files == [] then []
    else if Sound(files[|files| - 1].data, decode) then files[|files| - 1].data
    else LastSound(files[..|files| - 1], decode)
  }

  lemma {:induction false} SyncedAllAgrees(files: seq<Snapshot>, decode: Decoder)
    requires Growing(files)
    ensures RowAgrees(SyncedAll(files, decode), LastSound(files, decode), decode)
    decreases |files|
  {
    hide Sound, Synced, AllEvents;
    if files == [] {
      NothingLeft(decode);
    } else {
      var init, data := files[..|files| - 1], files[|files| - 1].data;
      SyncedAllAgrees(init, decode);
      SyncAgrees(SyncedAll(init, decode), LastSound(init, decode), data, decode);
    }
  }

  /** What a full read of the file, filtered by time, answers; it raises where some line does. */
  function FullAnswer(data: Bytes, sinceTs: real, decode: Decoder): Option<seq<UsageEvent>> {
    if Sound(data, decode) then Some(Since(AllEvents(data, decode), sinceTs)) else None
  }

  /**
   * After any sequence of syncs a query answers what a full read of the file, filtered by time, answers: nothing
   * lost, doubled or reordered. It raises exactly when a full read does.
   */
  lemma SyncsAgreeWithFullRead(files: seq<Snapshot>, file: Snapshot, sinceTs: real, decode: Decoder)
    requires Growing(files + [file])
    ensures Answer(SyncedAll(files, decode), file, sinceTs, decode) == FullAnswer(file.data, sinceTs, decode)
  {
    hide Sound, Synced, AllEvents, Since, TailReading, NewlineTerminated;
    var all := files + [file];
    assert all[|files|] == file;
    assert forall i :: 0 <= i < |files| ==> all[i] == files[i];
    SyncedAllAgrees(files, decode);
    LastIsTerminated(files, decode);
    SyncAgrees(SyncedAll(files, decode), LastSound(files, decode), file.data, decode);
  }

  /** So the answer is that part of the events of the whole file. */
  lemma AnswerIsRecentPart(files: seq<Snapshot>, file: Snapshot, sinceTs: real, decode: Decoder)
    requires Growing(files + [file])
    ensures var answer := Answer(SyncedAll(files, decode), file, sinceTs, decode);
            && (answer.Some? <==> Sound(file.data, decode))
            && (answer.Some? ==> AreRecent(answer.value, AllEvents(file.data, decode), sinceTs))
  {
    hide Since, AllEvents, Answer, Sound, Growing, AreRecent;
    SyncsAgreeWithFullRead(files, file, sinceTs, decode);
    SinceIsRecent(AllEvents(file.data, decode), sinceTs);
  }

  lemma LastIsTerminated(files: seq<Snapshot>, decode: Decoder)
    requires Growing(files)
    ensures NewlineTerminated(LastSound(files, decode))
  {
  }

  /**
   * A line that raises stops all later syncs of its file: each of them raises, and the row stays at the last state
   * of the file before that line.
   */
  lemma RaisingLineIsForGood(files: seq<Snapshot>, i: nat, j: nat, sinceTs: real, decode: Decoder)
    requires Growing(files) && i <= j < |files| && !Sound(files[i].data, decode)
    ensures Answer(SyncedAll(files[..j], decode), files[j], sinceTs, decode).None?
    ensures SyncedAll(files[..j + 1], decode) == SyncedAll(files[..i], decode)
  {
    hide Sound, Synced, AllEvents, Since, NewlineTerminated, SyncedAll, TailReading, Growing;
    GrowingAt(files, i, j);
    StaysUnsound(files[i].data, files[j].data, decode);
    SyncRaises(files, j, decode);
    if i < j {
      RaisingLineIsForGood(files, i, j - 1, sinceTs, decode);
    }
  }

  lemma GrowingAt(files: seq<Snapshot>, i: nat, j: nat)
    requires Growing(files) && i <= j < |files|
    ensures files[i].data <= files[j].data && NewlineTerminated(files[i].data)
  {
  }

  lemma StaysUnsound(a: Bytes, b: Bytes, decode: Decoder)
    requires a <= b && NewlineTerminated(a) && !Sound(a, decode)
    ensures !Sound(b, decode)
  {
    assert b == a + b[|a|..];
    Appended(a, b[|a|..], decode);
  }

  lemma SyncRaises(files: seq<Snapshot>, j: nat, decode: Decoder)
    requires Growing(files) && j < |files| && !Sound(files[j].data, decode)
    ensures TailReading(SyncedAll(files[..j], decode), files[j], decode).None?
    ensures SyncedAll(files[..j + 1], decode) == SyncedAll(files[..j], decode)
  {
    hide Sound, Synced, AllEvents, TailReading, NewlineTerminated;
    SyncedAllAgrees(files[..j], decode);
    LastIsTerminated(files[..j], decode);
    SyncAgrees(SyncedAll(files[..j], decode), LastSound(files[..j], decode), files[j].data, decode);
    assert files[..j + 1][..j] == files[..j];
  }

  lemma MissingIff(first: seq<UsageEvent>, got: seq<UsageEvent>, missed: seq<UsageEvent>, rest: seq<UsageEvent>)
    ensures first + got + rest == first + (got + missed) + rest <==> missed == []
  {
    if missed == [] {
      assert got + missed == got;
    } else {
      assert |first + (got + missed) + rest| == |first + got + rest| + |missed|;
    }
  }

  lemma DoubledIff(first: seq<UsageEvent>, again: seq<UsageEvent>, rest: seq<UsageEvent>)
    ensures first + (again + rest) == first + rest <==> again == []
  {
    if again == [] {
      assert again + rest == rest;
    } else {
      assert |first + (again + rest)| == |first + rest| + |again|;
    }
  }

  /**
   * A sync whose read fails after some lines still moves the offset to the size seen: the rest is never read again,
   * not even to raise. So a later sync agrees with a full read exactly if there is no event in it and no line of the
   * file raises.
   */
  lemma FailedReadLosesEvents(row: Option<Row>, before: Bytes, tail: Bytes, n: nat, more: Bytes, decode: Decoder)
    requires RowAgrees(row, before, decode) && NewlineTerminated(before)
    requires tail != [] && NewlineTerminated(before + tail) && n <= |FileLines(tail)|
    ensures var lost := Synced(row, Snapshot(|before + tail|, before + tail, Some(n)), decode);
            var later := before + tail + more;
            var next := Synced(lost, Snapshot(|later|, later, None), decode);
            && (Readable(FileLines(tail)[..n], decode) && Sound(more, decode) ==>
                  Cached(next).events
                  == AllEvents(before, decode) + EventsOfLines(FileLines(tail)[..n], decode) + AllEvents(more, decode))
            && (RowAgrees(next, later, decode) <==>
                  Sound(later, decode) && EventsOfLines(FileLines(tail)[n..], decode) == [])
  {
    var lines, later := FileLines(tail), before + tail + more;
    var first, rest := AllEvents(before, decode), AllEvents(more, decode);
    var got, missed := EventsOfLines(lines[..n], decode), EventsOfLines(lines[n..], decode);
    FailedSync(row, before, tail, n, decode);
    AppendedTwice(before, tail, more, decode);
    LinesSplit(tail, n, decode);
    if Readable(lines[..n], decode) {
      hide FileLines, EventsOfLines, AllEvents, Synced, FirstLineEnd, Readable, Sound;
      SlicesOfConcat(before + tail, more, |before + tail|);
      assert (before + tail)[|before + tail|..] + more == more;
      FullSync(Some(Row(|before + tail|, first + got)), later, decode);
      MissingIff(first, got, missed, rest);
    }
  }

  /** The sync whose read fails: it has some lines, or raises at one of them. */
  lemma FailedSync(row: Option<Row>, before: Bytes, tail: Bytes, n: nat, decode: Decoder)
    requires RowAgrees(row, before, decode) && tail != [] && n <= |FileLines(tail)|
    ensures Synced(row, Snapshot(|before + tail|, before + tail, Some(n)), decode)
         == if Readable(FileLines(tail)[..n], decode)
            then Some(Row(|before + tail|, AllEvents(before, decode) + EventsOfLines(FileLines(tail)[..n], decode)))
            else row
  {
    hide FileLines, EventsOfLines, Readable;
    assert Rest(before + tail, |before|) == tail;
    assert FileLines(tail)[..|FileLines(tail)|] == FileLines(tail);
  }

  lemma LinesSplit(data: Bytes, n: nat, decode: Decoder)
    requires n <= |FileLines(data)|
    ensures AllEvents(data, decode) == EventsOfLines(FileLines(data)[..n], decode) + EventsOfLines(FileLines(data)[n..], decode)
    ensures Sound(data, decode) ==> Readable(FileLines(data)[..n], decode)
  {
    hide FileLines, EventsOfLines;
    var lines := FileLines(data);
    assert lines[..n] + lines[n..] == lines;
    EventsAppend(lines[..n], lines[n..], decode);
  }

  lemma AppendedTwice(a: Bytes, b: Bytes, c: Bytes, decode: Decoder)
    requires NewlineTerminated(a) && NewlineTerminated(a + b)
    ensures AllEvents(a + b + c, decode) == AllEvents(a, decode) + AllEvents(b, decode) + AllEvents(c, decode)
    ensures Sound(a + b + c, decode) <==> Sound(a, decode) && Sound(b, decode) && Sound(c, decode)
  {
    hide AllEvents, Sound;
    Appended(a, b, decode);
    Appended(a + b, c, decode);
  }

  /**
   * The file grows between the look at its size and the read: the sync itself answers what a full read answers, but
   * the next one reads the growth again, so that it agrees exactly if the growth holds no event.
   */
  lemma GrowthDuringSync(row: Option<Row>, before: Bytes, seen: Bytes, growth: Bytes, more: Bytes, decode: Decoder)
    requires RowAgrees(row, before, decode) && before <= seen && |before| < |seen|
    requires NewlineTerminated(before) && NewlineTerminated(seen) && NewlineTerminated(seen + growth)
    ensures var racing := Synced(row, Snapshot(|seen|, seen + growth, None), decode);
            var later := seen + growth + more;
            var next := Synced(racing, Snapshot(|later|, later, None), decode);
            && (Sound(seen + growth, decode) ==> Cached(racing).events == AllEvents(seen + growth, decode))
            && (RowAgrees(next, later, decode) <==> Sound(later, decode) && AllEvents(growth, decode) == [])
  {
    var now, later := seen + growth, seen + growth + more;
    RacingSync(row, before, seen, growth, decode);
    assert later[|seen|..] == growth + more;
    assert NewlineTerminated(growth);
    hide AllEvents, Synced, Sound;
    Appended(growth, more, decode);
    Appended(now, more, decode);
    var first, again, rest := AllEvents(now, decode), AllEvents(growth, decode), AllEvents(more, decode);
    Appended(seen, growth, decode);
    if Sound(now, decode) {
      FullSync(Some(Row(|seen|, first)), later, decode);
      DoubledIff(first, again, rest);
    }
  }

  lemma RacingSync(row: Option<Row>, before: Bytes, seen: Bytes, growth: Bytes, decode: Decoder)
    requires RowAgrees(row, before, decode) && before <= seen && |before| < |seen| && NewlineTerminated(before)
    ensures Synced(row, Snapshot(|seen|, seen + growth, None), decode)
         == if Sound(seen + growth, decode) then Some(Row(|seen|, AllEvents(seen + growth, decode))) else row
  {
    var now := seen + growth;
    assert now == before + Rest(now, |before|);
    Appended(before, Rest(now, |before|), decode);
  }
}
