/** From the live oplog to a replayed database: the slicer that saves the oplog in chunk files
    (pbm/backup/slicer.go, pbm/oplog/backup.go), the check that a set of chunks is gapless
    (pbm/restore/restore.go) and the replay of the chunks. */
module OplogSlicing {
  import opened Options
  import opened Timestamps
  import opened TxnReplay
  import opened BoundaryRepeats
  import T = Timelines

  // ---------------------------------------------------------------------------------------------
  // Logs and parts of them
  // ---------------------------------------------------------------------------------------------

  predicate Ordered<Op>(log: seq<Entry<Op>>) {
    forall i, j :: 0 <= i < j < |log| ==> Before(log[i].ts, log[j].ts)
  }

  predicate InRange(ts: Timestamp, from: Timestamp, to: Timestamp) {
    AtMost(from, ts) && AtMost(ts, to)
  }

  /** The entries from `from` to `to`, both included. */
  function Between<Op>(log: seq<Entry<Op>>, from: Timestamp, to: Timestamp): seq<Entry<Op>> {
    if log == [] then []
    else
      var before := Between(log[..|log| - 1], from, to);
      if InRange(log[|log| - 1].ts, from, to) then before + [log[|log| - 1]] else before
  }

  function Later(a: Timestamp, b: Timestamp): Timestamp {
    if Before(a, b) then b else a
  }

  function Earlier(a: Timestamp, b: Timestamp): Timestamp {
    if Before(b, a) then b else a
  }

  // ---------------------------------------------------------------------------------------------
  // Writing a slice
  // ---------------------------------------------------------------------------------------------

  datatype WriteError = NoError | SpanUnset | InsuffRange(ts: Timestamp)

  predicate IsSufficient<Op>(oplog: seq<Entry<Op>>, from: Timestamp) {
    exists i :: 0 <= i < |oplog| && AtMost(oplog[i].ts, from)
  }

  predicate HasFrom<Op>(oplog: seq<Entry<Op>>, from: Timestamp) {
    exists i :: 0 <= i < |oplog| && AtMost(from, oplog[i].ts)
  }

  predicate AllAfter<Op>(oplog: seq<Entry<Op>>, from: Timestamp) {
    forall i :: 0 <= i < |oplog| ==> Before(from, oplog[i].ts)
  }

  lemma InsufficientIsAllAfter<Op>(oplog: seq<Entry<Op>>, from: Timestamp)
    ensures HasFrom(oplog, from) && !IsSufficient(oplog, from) <==> oplog != [] && AllAfter(oplog, from)
  {
    if oplog != [] && AllAfter(oplog, from) {
      assert AtMost(from, oplog[0].ts);
    }
  }

  /** Writes the entries of the oplog, as far as it still holds them, from `start` to `end`. Before the
      first entry is written, an entry at or before `start` must still be there. */
  method WriteTo<Op>(oplog: seq<Entry<Op>>, start: Timestamp, end: Timestamp)
    returns (written: seq<Entry<Op>>, err: WriteError)
    requires Ordered(oplog)
    ensures err == SpanUnset <==> start.t == 0 || end.t == 0
    ensures err == InsuffRange(start) <==> err != SpanUnset && HasFrom(oplog, start) && !IsSufficient(oplog, start)
    ensures err == InsuffRange(start) <==> start.t != 0 && end.t != 0 && oplog != [] && AllAfter(oplog, start)
    ensures err == NoError || err == SpanUnset || err == InsuffRange(start)
    ensures written == if err == NoError then Between(oplog, start, end) else []
  {
    if start.t == 0 || end.t == 0 {
      return [], SpanUnset;
    }
    InsufficientIsAllAfter(oplog, start);
    written, err := [], NoError;
    var rcheck := false;
    for i := 0 to |oplog|
      invariant err == NoError && written == Between(oplog[..i], start, end)
      invariant rcheck ==> IsSufficient(oplog, start)
      invariant !rcheck ==> written == [] && forall j :: 0 <= j < i ==> Before(oplog[j].ts, start)
    {
      assert oplog[..i + 1][..i] == oplog[..i];
      // the cursor only returns entries from `start` on
      if Before(oplog[i].ts, start) {
        continue;
      }
      if !rcheck {
        if !IsSufficient(oplog, start) {
          return [], InsuffRange(start);
        }
        rcheck := true;
      }
      if Before(end, oplog[i].ts) {
        NothingAfter(oplog, i, start, end);
        return;
      }
      written := written + [oplog[i]];
    }
    assert oplog[..|oplog|] == oplog;
  }

  /** From `a` up to `b` stand exactly the entries that are not before `from` and not after `to`. */
  predicate IsStretch<Op>(log: seq<Entry<Op>>, from: Timestamp, to: Timestamp, a: nat, b: nat) {
    && a <= b <= |log|
    && forall k :: 0 <= k < |log| ==> (a <= k < b <==> !Before(log[k].ts, from) && !Before(to, log[k].ts))
  }

  lemma StretchGrows<Op>(log: seq<Entry<Op>>, from: Timestamp, to: Timestamp, a: nat, b: nat)
    requires log != [] && Ordered(log) && IsStretch(log[..|log| - 1], from, to, a, b) && a < b
    requires InRange(log[|log| - 1].ts, from, to)
    ensures b == |log| - 1
  {
    var n := |log| - 1;
    var before := log[..n];
    assert before[a] == log[a];
    forall k | a <= k < n ensures InRange(before[k].ts, from, to) {
      assert before[k] == log[k] && Before(log[k].ts, log[n].ts);
      assert a < k ==> Before(log[a].ts, log[k].ts);
    }
    var k := if b < n then b else a;
    assert InRange(before[k].ts, from, to);
  }

  lemma StretchOneMore<Op>(log: seq<Entry<Op>>, from: Timestamp, to: Timestamp, a: nat, b: nat)
    requires log != [] && IsStretch(log[..|log| - 1], from, to, a, b)
    ensures !InRange(log[|log| - 1].ts, from, to) ==> IsStretch(log, from, to, a, b)
    ensures InRange(log[|log| - 1].ts, from, to) && b == |log| - 1 ==> IsStretch(log, from, to, a, b + 1)
    ensures InRange(log[|log| - 1].ts, from, to) && a == b ==> IsStretch(log, from, to, |log| - 1, |log|)
  {
    assert forall k :: 0 <= k < |log| - 1 ==> log[..|log| - 1][k] == log[k];
  }

  /** Of an ordered log this is one stretch: all that lies between the two times, both included. */
  lemma {:induction false} BetweenIsStretch<Op>(log: seq<Entry<Op>>, from: Timestamp, to: Timestamp)
    returns (a: nat, b: nat)
    requires Ordered(log)
    ensures IsStretch(log, from, to, a, b) && Between(log, from, to) == log[a..b]
    decreases |log|
  {
    if log == [] {
      a, b := 0, 0;
    } else {
      var n := |log| - 1;
      a, b := BetweenIsStretch(log[..n], from, to);
      StretchOneMore(log, from, to, a, b);
      assert log[..n][a..b] == log[a..b];
      if InRange(log[n].ts, from, to) {
        if a < b {
          StretchGrows(log, from, to, a, b);
          assert log[a..n] + [log[n]] == log[a..n + 1];
          b := n + 1;
        } else {
          assert [] + [log[n]] == log[n..n + 1];
          a, b := n, n + 1;
        }
      }
    }
  }

  /** In an ordered log nothing follows the first entry that is too late. */
  lemma {:induction false} NothingAfter<Op>(log: seq<Entry<Op>>, k: nat, from: Timestamp, to: Timestamp)
    requires Ordered(log) && k < |log| && Before(to, log[k].ts)
    ensures Between(log, from, to) == Between(log[..k], from, to)
    decreases |log|
  {
    var before := log[..|log| - 1];
    if k < |log| - 1 {
      assert before[..k] == log[..k];
      NothingAfter(before, k, from, to);
    }
  }

  /** What the check is for: an oplog drops its oldest entries, and as long as one entry at or before
      `start` is there, none after `start` was dropped. */
  lemma {:induction false} SufficientIsComplete<Op>(log: seq<Entry<Op>>, oldest: nat, start: Timestamp, end: Timestamp)
    requires Ordered(log) && oldest <= |log|
    requires IsSufficient(log[oldest..], start) || (oldest < |log| && !HasFrom(log[oldest..], start))
    ensures Between(log[oldest..], start, end) == Between(log, start, end)
    decreases |log|
  {
    var n := |log| - 1;
    var visible, before := log[oldest..], log[..n];
    if oldest == n {
      assert visible == [log[n]] && visible[..0] == [];
      assert AtMost(visible[0].ts, start);
      NoneBelow(before, start, end);
    } else {
      assert visible[..|visible| - 1] == before[oldest..];
      if IsSufficient(visible, start) {
        FirstIsSufficient(visible, start);
      }
      assert forall i :: 0 <= i < |before[oldest..]| ==> before[oldest..][i] == visible[i];
      if oldest < n { assert before[oldest..][0] == visible[0]; }
      SufficientIsComplete(before, oldest, start, end);
    }
  }

  lemma FirstIsSufficient<Op>(oplog: seq<Entry<Op>>, from: Timestamp)
    requires Ordered(oplog) && IsSufficient(oplog, from)
    ensures AtMost(oplog[0].ts, from)
  {
    var i :| 0 <= i < |oplog| && AtMost(oplog[i].ts, from);
    assert i > 0 ==> Before(oplog[0].ts, oplog[i].ts);
  }

  lemma {:induction false} NoneBelow<Op>(log: seq<Entry<Op>>, from: Timestamp, to: Timestamp)
    requires forall i :: 0 <= i < |log| ==> Before(log[i].ts, from)
    ensures Between(log, from, to) == []
    decreases |log|
  {
    if log != [] {
      NoneBelow(log[..|log| - 1], from, to);
    }
  }

  // ---------------------------------------------------------------------------------------------
  // The slicer
  // ---------------------------------------------------------------------------------------------

  datatype Slice<Op> = Slice(startTS: Timestamp, endTS: Timestamp, entries: seq<Entry<Op>>)

  /** What the slicer meets when it wakes up: the last write, if it can be read, how many entries the
      oplog has dropped by then, and whether the storage takes the upload. */
  datatype Tick = Tick(lastWrite: Option<Timestamp>, oldest: nat, stored: bool)

  /** The slices continue each other from `from` to `to`, and each holds its part of the log. */
  predicate Continues<Op(==)>(log: seq<Entry<Op>>, from: Timestamp, slices: seq<Slice<Op>>, to: Timestamp) {
    if slices == [] then from == to
    else
      var n := |slices| - 1;
      && slices[n].endTS == to
      && Before(slices[n].startTS, to)
      && slices[n].entries == Between(log, slices[n].startTS, to)
      && Continues(log, from, slices[..n], slices[n].startTS)
  }

  /** The oplog has moved on, and what the slice needs of it is still there and can be stored. */
  predicate CanSlice<Op>(log: seq<Entry<Op>>, at: Timestamp, tick: Tick)
    requires tick.oldest <= |log|
  {
    && at.t != 0 && tick.stored
    && (HasFrom(log[tick.oldest..], at) ==> IsSufficient(log[tick.oldest..], at))
  }

  /** The oplog never drops its last entry. */
  predicate NeverEmpty(ticks: seq<Tick>, n: nat) {
    forall i :: 0 <= i < |ticks| ==> ticks[i].oldest < n
  }

  datatype Progress<Op> = Progress(slices: seq<Slice<Op>>, at: Timestamp, failed: bool)

  /** Where a slicer stands after these ticks: every tick with a newer last write makes one slice of all
      the log has up to it, whatever the oplog has dropped by then, or else leaves it to the next one. */
  function Progressed<Op>(log: seq<Entry<Op>>, start: Timestamp, ticks: seq<Tick>): Progress<Op>
    requires NeverEmpty(ticks, |log|)
  {
    if ticks == [] then Progress([], start, false)
    else
      var p, tick := Progressed(log, start, ticks[..|ticks| - 1]), ticks[|ticks| - 1];
      if tick.lastWrite.None? || !Before(p.at, tick.lastWrite.value) then p
      else if !CanSlice(log, p.at, tick) then p.(failed := true)
      else
        var to := tick.lastWrite.value;
        Progress(p.slices + [Slice(p.at, to, Between(log, p.at, to))], to, false)
  }

  /** Writes what the oplog holds from `from` to `to` and stores it. */
  method Upload<Op>(log: seq<Entry<Op>>, from: Timestamp, to: Timestamp, tick: Tick)
    returns (entries: seq<Entry<Op>>, ok: bool)
    requires Ordered(log) && tick.oldest < |log| && Before(from, to)
    ensures ok <==> CanSlice(log, from, tick)
    ensures ok ==> entries == Between(log, from, to)
  {
    var err: WriteError;
    OrderedTail(log, tick.oldest);
    entries, err := WriteTo(log[tick.oldest..], from, to);
    ok := err == NoError && tick.stored;
    if ok {
      SufficientIsComplete(log, tick.oldest, from, to);
    }
  }

  /** Runs until it is told to stop, which is after the last tick. */
  method OplogSlicer<Op(==)>(log: seq<Entry<Op>>, start: Timestamp, ticks: seq<Tick>)
    returns (slices: seq<Slice<Op>>, saved: Timestamp, failed: bool)
    requires Ordered(log) && log != []
    requires NeverEmpty(ticks, |log|)
    ensures Continues(log, start, slices, saved)
    ensures Progress(slices, saved, failed) == Progressed(log, start, ticks)
  {
    slices, failed := [], false;
    var startOpTime := start;
    for i := 0 to |ticks|
      invariant Continues(log, start, slices, startOpTime)
      invariant Progress(slices, startOpTime, failed) == Progressed(log, start, ticks[..i])
    {
      assert ticks[..i + 1][..i] == ticks[..i];
      if ticks[i].lastWrite.None? {
        continue;
      }
      var currOpTime := ticks[i].lastWrite.value;
      if !Before(startOpTime, currOpTime) {
        continue;
      }
      var entries, ok := Upload(log, startOpTime, currOpTime, ticks[i]);
      if !ok {
        failed := true;
        continue;
      }
      failed := false;
      var slice := Slice(startOpTime, currOpTime, entries);
      assert (slices + [slice])[..|slices|] == slices;
      slices := slices + [slice];
      startOpTime := currOpTime;
    }
    saved := startOpTime;
    assert ticks[..|ticks|] == ticks;
  }

  /** The last writes that are read never go back. */
  predicate NeverBack(ticks: seq<Tick>) {
    forall i, j :: 0 <= i < j < |ticks| && ticks[i].lastWrite.Some? && ticks[j].lastWrite.Some? ==>
      AtMost(ticks[i].lastWrite.value, ticks[j].lastWrite.value)
  }

  predicate IsBehind(ticks: seq<Tick>, at: Timestamp) {
    exists i :: 0 <= i < |ticks| && ticks[i].lastWrite.Some? && Before(at, ticks[i].lastWrite.value)
  }

  /** The slicer reports a failure exactly as long as it is behind: some last write that it has read is
      later than what it has saved. */
  lemma {:induction false} FailsExactlyIfBehind<Op>(log: seq<Entry<Op>>, start: Timestamp, ticks: seq<Tick>)
    requires NeverEmpty(ticks, |log|) && NeverBack(ticks)
    ensures Progressed(log, start, ticks).failed <==> IsBehind(ticks, Progressed(log, start, ticks).at)
    decreases |ticks|
  {
    if ticks != [] {
      var before, tick := ticks[..|ticks| - 1], ticks[|ticks| - 1];
      FailsExactlyIfBehind(log, start, before);
      assert ticks == before + [tick];
      TickBehind(before, tick, Progressed(log, start, before).at);
      if tick.lastWrite.Some? {
        UpToDate(before, tick);
      }
    }
  }

  lemma TickBehind(before: seq<Tick>, tick: Tick, at: Timestamp)
    ensures IsBehind(before + [tick], at) <==>
      IsBehind(before, at) || (tick.lastWrite.Some? && Before(at, tick.lastWrite.value))
  {
    assert (before + [tick])[|before|] == tick;
    if i :| 0 <= i < |before| && before[i].lastWrite.Some? && Before(at, before[i].lastWrite.value) {
      assert (before + [tick])[i] == before[i];
    }
  }

  lemma UpToDate(before: seq<Tick>, tick: Tick)
    requires NeverBack(before + [tick]) && tick.lastWrite.Some?
    ensures !IsBehind(before + [tick], tick.lastWrite.value)
  {
    var all := before + [tick];
    assert all[|before|] == tick;
  }

  lemma OrderedTail<Op>(log: seq<Entry<Op>>, k: nat)
    requires Ordered(log) && k <= |log|
    ensures Ordered(log[k..])
  {
  }

  // ---------------------------------------------------------------------------------------------
  // Choosing the chunks for a restore
  // ---------------------------------------------------------------------------------------------

  datatype ChunksResult =
    | Chosen(chunks: seq<T.OplogChunk>)
    | NoChunks
    | NoTarget(last: Timestamp)
    | Violated(expected: Timestamp, got: Timestamp)
    | NoFile(fname: string)

  predicate IsAskedFor(c: T.OplogChunk, rs: string, from: Timestamp, to: Timestamp) {
    && (rs == "" || c.rs == rs)
    && (from == ZeroTS || AtMost(from, c.endTS))
    && (to == ZeroTS || AtMost(c.startTS, to))
  }

  /** The query over the chunk index, which answers in the order of the start times. */
  function ChunksSlice(index: seq<T.OplogChunk>, rs: string, from: Timestamp, to: Timestamp): seq<T.OplogChunk> {
    if index == [] then []
    else
      var before := ChunksSlice(index[..|index| - 1], rs, from, to);
      if IsAskedFor(index[|index| - 1], rs, from, to) then before + [index[|index| - 1]] else before
  }

  /** The chunk has that replica set (any, if none is named), does not end before `from` and does not start
      after `to`; a zero time does not count. */
  predicate Concerns(c: T.OplogChunk, rs: string, from: Timestamp, to: Timestamp) {
    && (rs != "" ==> c.rs == rs)
    && (from.t != 0 || from.i != 0 ==> !Before(c.endTS, from))
    && (to.t != 0 || to.i != 0 ==> !Before(to, c.startTS))
  }

  /** The chunks stand at the positions `at` of the index, in its order, and nothing else there concerns. */
  predicate Stand(
    index: seq<T.OplogChunk>, rs: string, from: Timestamp, to: Timestamp, chunks: seq<T.OplogChunk>, at: seq<nat>)
  {
    && |at| == |chunks|
    && (forall i, j :: 0 <= i < j < |at| ==> at[i] < at[j])
    && (forall i :: 0 <= i < |at| ==> at[i] < |index| && index[at[i]] == chunks[i])
    && (forall k: nat :: k < |index| ==> (k in at <==> Concerns(index[k], rs, from, to)))
  }

  ghost predicate IsSelection(
    index: seq<T.OplogChunk>, rs: string, from: Timestamp, to: Timestamp, chunks: seq<T.OplogChunk>)
  {
    exists at :: Stand(index, rs, from, to, chunks, at)
  }

  lemma OneMoreStands(
    index: seq<T.OplogChunk>, c: T.OplogChunk, rs: string, from: Timestamp, to: Timestamp, chunks: seq<T.OplogChunk>,
    at: seq<nat>)
    requires Stand(index, rs, from, to, chunks, at)
    ensures Concerns(c, rs, from, to) ==> Stand(index + [c], rs, from, to, chunks + [c], at + [|index|])
    ensures !Concerns(c, rs, from, to) ==> Stand(index + [c], rs, from, to, chunks, at)
  {
  }

  /** The answer of the query is all that concerns and nothing else, in the order of the index. */
  lemma {:induction false} SliceIsSelection(index: seq<T.OplogChunk>, rs: string, from: Timestamp, to: Timestamp)
    ensures IsSelection(index, rs, from, to, ChunksSlice(index, rs, from, to))
    decreases |index|
  {
    if index == [] {
      assert Stand(index, rs, from, to, [], []);
    } else {
      var before, c := index[..|index| - 1], index[|index| - 1];
      SliceIsSelection(before, rs, from, to);
      var at :| Stand(before, rs, from, to, ChunksSlice(before, rs, from, to), at);
      OneMoreStands(before, c, rs, from, to, ChunksSlice(before, rs, from, to), at);
      assert index == before + [c];
      assert IsAskedFor(c, rs, from, to) <==> Concerns(c, rs, from, to);
    }
  }

  /** Where the chunk at position `k` has to start at the latest. */
  function Expected(chunks: seq<T.OplogChunk>, from: Timestamp, k: nat): Timestamp
    requires k <= |chunks|
  {
    if k == 0 then from else chunks[k - 1].endTS
  }

  predicate Gapless(chunks: seq<T.OplogChunk>, from: Timestamp) {
    forall k :: 0 <= k < |chunks| ==> AtMost(chunks[k].startTS, Expected(chunks, from, k))
  }

  /** A gapless row of chunks that reaches `to`, all of whose files exist. */
  predicate Accepted(chunks: seq<T.OplogChunk>, from: Timestamp, to: Timestamp, files: set<string>) {
    && chunks != []
    && AtMost(to, chunks[|chunks| - 1].endTS)
    && Gapless(chunks, from)
    && forall k :: 0 <= k < |chunks| ==> chunks[k].fname in files
  }

  predicate Fits(chunks: seq<T.OplogChunk>, from: Timestamp, files: set<string>, k: nat)
    requires k < |chunks|
  {
    AtMost(chunks[k].startTS, Expected(chunks, from, k)) && chunks[k].fname in files
  }

  predicate IsFirstWrong(chunks: seq<T.OplogChunk>, from: Timestamp, files: set<string>, k: nat) {
    k < |chunks| && !Fits(chunks, from, files, k) && forall j :: 0 <= j < k ==> Fits(chunks, from, files, j)
  }

  /** There is a gap in front of the chunk, from the end of the one before (or from `from`) to its start. */
  predicate IsGapAt(chunks: seq<T.OplogChunk>, from: Timestamp, k: nat, r: ChunksResult) {
    && r.Violated? && k < |chunks|
    && r.expected == (if k == 0 then from else chunks[k - 1].endTS) && r.got == chunks[k].startTS
    && Before(r.expected, r.got)
  }

  /** There is none, but its file is missing. */
  predicate IsMissingAt(chunks: seq<T.OplogChunk>, from: Timestamp, files: set<string>, k: nat, r: ChunksResult) {
    && r.NoFile? && k < |chunks| && r.fname == chunks[k].fname && r.fname !in files
    && !Before(if k == 0 then from else chunks[k - 1].endTS, chunks[k].startTS)
  }

  lemma WrongIsRejected(chunks: seq<T.OplogChunk>, from: Timestamp, to: Timestamp, files: set<string>, k: nat)
    requires IsFirstWrong(chunks, from, files, k)
    ensures !Accepted(chunks, from, to, files)
  {
  }

  /** The row itself if it is accepted, and otherwise the first thing that is wrong with it. */
  ghost predicate IsOutcome(
    chunks: seq<T.OplogChunk>, from: Timestamp, to: Timestamp, files: set<string>, r: ChunksResult)
  {
    && (r.Chosen? <==> Accepted(chunks, from, to, files))
    && (r.Chosen? ==> r.chunks == chunks)
    && (r.NoChunks? <==> chunks == [])
    && (r.NoTarget? <==> chunks != [] && Before(chunks[|chunks| - 1].endTS, to))
    && (r.NoTarget? ==> r.last == chunks[|chunks| - 1].endTS)
    && (r.Violated? ==> exists k :: IsFirstWrong(chunks, from, files, k) && IsGapAt(chunks, from, k, r))
    && (r.NoFile? ==> exists k :: IsFirstWrong(chunks, from, files, k) && IsMissingAt(chunks, from, files, k, r))
  }

  method CheckChunks(chunks: seq<T.OplogChunk>, from: Timestamp, to: Timestamp, files: set<string>)
    returns (r: ChunksResult)
    ensures IsOutcome(chunks, from, to, files, r)
  {
    if |chunks| == 0 {
      return NoChunks;
    }
    if Before(chunks[|chunks| - 1].endTS, to) {
      return NoTarget(chunks[|chunks| - 1].endTS);
    }
    var last := from;
    for k := 0 to |chunks|
      invariant last == Expected(chunks, from, k)
      invariant forall j :: 0 <= j < k ==> Fits(chunks, from, files, j)
    {
      if Before(last, chunks[k].startTS) {
        assert IsFirstWrong(chunks, from, files, k) && IsGapAt(chunks, from, k, Violated(last, chunks[k].startTS));
        WrongIsRejected(chunks, from, to, files, k);
        return Violated(last, chunks[k].startTS);
      }
      last := chunks[k].endTS;
      if chunks[k].fname !in files {
        assert IsFirstWrong(chunks, from, files, k) && IsMissingAt(chunks, from, files, k, NoFile(chunks[k].fname));
        WrongIsRejected(chunks, from, to, files, k);
        return NoFile(chunks[k].fname);
      }
    }
    assert forall k: nat :: k < |chunks| ==> Fits(chunks, from, files, k) && chunks[k].fname in files;
    r := Chosen(chunks);
  }

  /** The chunks of a replica set for a restore, if they form an unbroken row that is all there. */
  method Chunks(index: seq<T.OplogChunk>, rs: string, from: Timestamp, to: Timestamp, files: set<string>)
    returns (r: ChunksResult)
    ensures IsSelection(index, rs, from, to, ChunksSlice(index, rs, from, to))
    ensures IsOutcome(ChunksSlice(index, rs, from, to), from, to, files, r)
  {
    SliceIsSelection(index, rs, from, to);
    r := CheckChunks(ChunksSlice(index, rs, from, to), from, to, files);
  }

  /** An accepted row covers every moment from the start of its first chunk (or from `from`) to `to`. */
  lemma {:induction false} AcceptedCovers(
    chunks: seq<T.OplogChunk>, from: Timestamp, to: Timestamp, files: set<string>, ts: Timestamp, k: nat)
    returns (c: T.OplogChunk)
    requires Accepted(chunks, from, to, files) && AtMost(chunks[0].startTS, ts) && AtMost(ts, to)
    requires k < |chunks| && AtMost(ts, chunks[k].endTS)
    ensures c in chunks && InRange(ts, c.startTS, c.endTS)
    decreases k
  {
    if AtMost(chunks[k].startTS, ts) {
      c := chunks[k];
    } else {
      assert AtMost(chunks[k].startTS, Expected(chunks, from, k));
      c := AcceptedCovers(chunks, from, to, files, ts, k - 1);
    }
  }

  /** A reported violation is a real one: between the two times reported, no chunk asked for holds
      anything, given that later chunks neither start nor end earlier. */
  lemma ViolationIsGap(chunks: seq<T.OplogChunk>, from: Timestamp, k: nat, ts: Timestamp, c: T.OplogChunk)
    requires forall i, j :: 0 <= i < j < |chunks| ==>
      AtMost(chunks[i].startTS, chunks[j].startTS) && AtMost(chunks[i].endTS, chunks[j].endTS)
    requires k < |chunks| && Before(Expected(chunks, from, k), ts) && Before(ts, chunks[k].startTS)
    requires c in chunks
    ensures !InRange(ts, c.startTS, c.endTS)
  {
    var i :| 0 <= i < |chunks| && chunks[i] == c;
    if i < k {
      assert i == k - 1 || AtMost(chunks[i].endTS, chunks[k - 1].endTS);
    } else {
      assert i == k || AtMost(chunks[k].startTS, chunks[i].startTS);
    }
  }

  // ---------------------------------------------------------------------------------------------
  // Replaying the chunks
  // ---------------------------------------------------------------------------------------------

  /** What the time frame lets through of the files of these chunks, one file after the other. */
  function Frames<Op>(
    startTS: Timestamp, endTS: Timestamp, chunks: seq<T.OplogChunk>, files: map<string, seq<Entry<Op>>>): seq<Entry<Op>>
  {
    if chunks == [] then []
    else
      var c := chunks[|chunks| - 1];
      Frames(startTS, endTS, chunks[..|chunks| - 1], files)
      + InFrame(startTS, endTS, if c.fname in files then files[c.fname] else [])
  }

  method ReplayChunks<DB, Op(==)>(
    o: OplogRestore<DB, Op>, chunks: seq<T.OplogChunk>, files: map<string, seq<Entry<Op>>>) returns (ok: bool)
    requires o.Valid()
    requires forall k :: 0 <= k < |chunks| ==> chunks[k].fname in files
    modifies o`db, o`txnData, o`lastOpT, o.txnCommit
    ensures o.Valid() && o.At(o.db, ok) ==
      HandleAll(o.exec, old(o.At(o.db, true)), Events(Frames(o.startTS, o.endTS, chunks, files)))
  {
    ok := true;
    for k := 0 to |chunks|
      invariant o.Valid() && ok
      invariant o.At(o.db, ok) ==
        HandleAll(o.exec, old(o.At(o.db, true)), Events(Frames(o.startTS, o.endTS, chunks[..k], files)))
    {
      assert chunks[..k + 1][..k] == chunks[..k];
      ghost var before := Frames(o.startTS, o.endTS, chunks[..k], files);
      ghost var next := InFrame(o.startTS, o.endTS, files[chunks[k].fname]);
      EventsConcat(before, next);
      HandleAllConcat(o.exec, old(o.At(o.db, true)), Events(before), Events(next));
      var lts: Timestamp;
      lts, ok := o.Apply(files[chunks[k].fname]);
      if !ok {
        FramesStopped(o.exec, old(o.At(o.db, true)), o.startTS, o.endTS, chunks, files, k + 1);
        return;
      }
    }
    assert chunks[..|chunks|] == chunks;
  }

  lemma {:induction false} HandleAllConcat<DB, Op>(
    exec: (DB, Op) -> Option<DB>, s: Site<DB, Op>, a: seq<Event<Op>>, b: seq<Event<Op>>)
    ensures HandleAll(exec, s, a + b) ==
      if HandleAll(exec, s, a).ok then HandleAll(exec, HandleAll(exec, s, a), b) else HandleAll(exec, s, a)
    decreases |b|
  {
    if b == [] {
      assert a + b == a;
    } else {
      assert (a + b)[..|a + b| - 1] == a + b[..|b| - 1];
      HandleAllConcat(exec, s, a, b[..|b| - 1]);
    }
  }

  lemma {:induction false} FramesStopped<DB, Op>(
    exec: (DB, Op) -> Option<DB>, s: Site<DB, Op>, startTS: Timestamp, endTS: Timestamp,
    chunks: seq<T.OplogChunk>, files: map<string, seq<Entry<Op>>>, k: nat)
    requires k <= |chunks| && !HandleAll(exec, s, Events(Frames(startTS, endTS, chunks[..k], files))).ok
    ensures HandleAll(exec, s, Events(Frames(startTS, endTS, chunks, files))) ==
      HandleAll(exec, s, Events(Frames(startTS, endTS, chunks[..k], files)))
    decreases |chunks|
  {
    if k == |chunks| {
      assert chunks[..k] == chunks;
    } else {
      var before := chunks[..|chunks| - 1];
      assert before[..k] == chunks[..k];
      FramesStopped(exec, s, startTS, endTS, before, files, k);
      var c := chunks[|chunks| - 1];
      var last := InFrame(startTS, endTS, if c.fname in files then files[c.fname] else []);
      EventsConcat(Frames(startTS, endTS, before, files), last);
      StoppedStays(exec, s, Events(Frames(startTS, endTS, before, files)), Events(last));
    }
  }

  // ---------------------------------------------------------------------------------------------
  // Slice, then replay
  // ---------------------------------------------------------------------------------------------

  /** The entries with a time in `marks` twice in a row, the others once. */
  function Repeated<Op>(es: seq<Entry<Op>>, marks: set<Timestamp>): seq<Entry<Op>> {
    if es == [] then []
    else
      var before, e := Repeated(es[..|es| - 1], marks), es[|es| - 1];
      if e.ts in marks then before + [e, e] else before + [e]
  }

  lemma {:induction false} BetweenFront<Op>(log: seq<Entry<Op>>, from: Timestamp, to: Timestamp)
    requires log != []
    ensures Between(log, from, to) ==
      (if InRange(log[0].ts, from, to) then [log[0]] else []) + Between(log[1..], from, to)
    decreases |log|
  {
    if |log| == 1 {
      assert log[..0] == [] && log[1..] == [];
    } else {
      var before := log[..|log| - 1];
      BetweenFront(before, from, to);
      assert log[1..][..|log[1..]| - 1] == before[1..];
    }
  }

  /** On an ordered chunk the time frame is a range. */
  lemma {:induction false} FrameIsRange<Op>(startTS: Timestamp, endTS: Timestamp, src: seq<Entry<Op>>)
    requires Ordered(src) && endTS.t > 0
    ensures InFrame(startTS, endTS, src) == Between(src, startTS, endTS)
    decreases |src|
  {
    if src != [] {
      BetweenFront(src, startTS, endTS);
      if PastEnd(endTS, src[0]) {
        NothingAfter(src, 0, startTS, endTS);
        assert src[..0] == [];
      }
      FrameIsRange(startTS, endTS, src[1..]);
    }
  }

  /** A part of a log is ordered, and a part of a part is a part. */
  lemma {:induction false} BetweenBetween<Op>(
    log: seq<Entry<Op>>, a: Timestamp, b: Timestamp, from: Timestamp, to: Timestamp)
    requires Ordered(log)
    ensures Ordered(Between(log, a, b))
    ensures forall e :: e in Between(log, a, b) ==> e in log
    ensures Between(Between(log, a, b), from, to) == Between(log, Later(from, a), Earlier(to, b))
    decreases |log|
  {
    if log != [] {
      var before, e := log[..|log| - 1], log[|log| - 1];
      var part := Between(before, a, b);
      BetweenBetween(before, a, b, from, to);
      assert forall d :: d in before ==> Before(d.ts, e.ts);
      assert forall i :: 0 <= i < |part| ==> part[i] in before;
      if InRange(e.ts, a, b) {
        assert (part + [e])[..|part|] == part;
      }
    }
  }

  /** Two parts that meet at `b`: an entry at `b` is in both, the others are in one. */
  ghost predicate Meet<Op>(log: seq<Entry<Op>>, a: Timestamp, b: Timestamp, c: Timestamp, marks: set<Timestamp>) {
    Repeated(Between(log, a, b), marks) + Between(log, b, c) == Repeated(Between(log, a, c), marks + {b})
  }

  lemma LaterEntryMeets<Op>(
    log: seq<Entry<Op>>, a: Timestamp, b: Timestamp, c: Timestamp, marks: set<Timestamp>)
    requires log != [] && Meet(log[..|log| - 1], a, b, c, marks) && AtMost(a, b)
    requires Before(b, log[|log| - 1].ts) && forall t :: t in marks ==> Before(t, b)
    ensures Meet(log, a, b, c, marks)
  {
    var before, e := log[..|log| - 1], log[|log| - 1];
    var l, m := Repeated(Between(before, a, b), marks), Between(before, b, c);
    assert Between(log, a, b) == Between(before, a, b);
    if AtMost(e.ts, c) {
      assert Between(log, b, c) == m + [e] && Between(log, a, c) == Between(before, a, c) + [e];
      RepeatedAppend(Between(before, a, c), e, marks + {b});
      assert l + (m + [e]) == (l + m) + [e];
    }
  }

  lemma EarlierEntryMeets<Op>(
    log: seq<Entry<Op>>, a: Timestamp, b: Timestamp, c: Timestamp, marks: set<Timestamp>)
    requires Ordered(log) && log != [] && Meet(log[..|log| - 1], a, b, c, marks)
    requires AtMost(a, b) && AtMost(b, c)
    requires AtMost(log[|log| - 1].ts, b) && forall t :: t in marks ==> Before(t, b)
    ensures Meet(log, a, b, c, marks)
  {
    var before, e := log[..|log| - 1], log[|log| - 1];
    NoneBelow(before, b, c);
    var l := Repeated(Between(before, a, b), marks);
    assert l + [] == l;
    if AtMost(a, e.ts) {
      assert Between(log, a, b) == Between(before, a, b) + [e] && Between(log, a, c) == Between(before, a, c) + [e];
      RepeatedAppend(Between(before, a, b), e, marks);
      RepeatedAppend(Between(before, a, c), e, marks + {b});
      if e.ts == b {
        assert Between(log, b, c) == [e];
        assert (l + [e]) + [e] == l + [e, e];
      } else {
        assert Between(log, b, c) == [];
        assert Repeated(Between(log, a, b), marks) + [] == Repeated(Between(log, a, b), marks);
      }
    }
  }

  lemma {:induction false} PartsMeet<Op>(
    log: seq<Entry<Op>>, a: Timestamp, b: Timestamp, c: Timestamp, marks: set<Timestamp>)
    requires Ordered(log) && AtMost(a, b) && AtMost(b, c)
    requires forall t :: t in marks ==> Before(t, b)
    ensures Meet(log, a, b, c, marks)
    decreases |log|
  {
    if log == [] {
    } else {
      PartsMeet(log[..|log| - 1], a, b, c, marks);
      if Before(b, log[|log| - 1].ts) {
        LaterEntryMeets(log, a, b, c, marks);
      } else {
        EarlierEntryMeets(log, a, b, c, marks);
      }
    }
  }

  lemma RepeatedAppend<Op>(es: seq<Entry<Op>>, e: Entry<Op>, marks: set<Timestamp>)
    ensures Repeated(es + [e], marks) == Repeated(es, marks) + if e.ts in marks then [e, e] else [e]
  {
    assert (es + [e])[..|es + [e]| - 1] == es;
  }

  lemma {:induction false} Unmarked<Op>(es: seq<Entry<Op>>, marks: set<Timestamp>)
    requires forall i :: 0 <= i < |es| ==> es[i].ts !in marks
    ensures Repeated(es, marks) == es
    decreases |es|
  {
    if es != [] {
      Unmarked(es[..|es| - 1], marks);
    }
  }

  lemma {:induction false} PartInRange<Op>(log: seq<Entry<Op>>, from: Timestamp, to: Timestamp, i: nat)
    requires i < |Between(log, from, to)|
    ensures InRange(Between(log, from, to)[i].ts, from, to)
    decreases |log|
  {
    if i < |Between(log[..|log| - 1], from, to)| {
      PartInRange(log[..|log| - 1], from, to, i);
    }
  }

  /** When the time frame starts after all the boundaries, the earlier chunks contribute nothing. */
  lemma {:induction false} FrameAfterBoundaries<Op>(
    log: seq<Entry<Op>>, from: Timestamp, b: Timestamp, to: Timestamp, marks: set<Timestamp>)
    requires Before(b, from) && forall t :: t in marks ==> AtMost(t, b)
    ensures Between(log, from, b) == []
    ensures Repeated(Between(log, from, to), marks) == Between(log, from, to)
  {
    if Between(log, from, b) != [] {
      PartInRange(log, from, b, 0);
    }
    forall i | 0 <= i < |Between(log, from, to)| ensures Between(log, from, to)[i].ts !in marks {
      PartInRange(log, from, to, i);
    }
    Unmarked(Between(log, from, to), marks);
  }

  /** As the slicer leaves them: each chunk starts where the one before ends. */
  predicate BackToBack(chunks: seq<T.OplogChunk>) {
    && (forall k :: 0 <= k < |chunks| ==> Before(chunks[k].startTS, chunks[k].endTS))
    && (forall k :: 0 < k < |chunks| ==> chunks[k].startTS == chunks[k - 1].endTS)
  }

  predicate HoldsPart<Op(==)>(log: seq<Entry<Op>>, files: map<string, seq<Entry<Op>>>, c: T.OplogChunk) {
    c.fname in files && files[c.fname] == Between(log, c.startTS, c.endTS)
  }

  /** The times at which one chunk ends and the next one starts. */
  function Boundaries(chunks: seq<T.OplogChunk>): set<Timestamp> {
    set k | 0 < k < |chunks| :: chunks[k].startTS
  }

  lemma {:induction false} BoundariesBefore(chunks: seq<T.OplogChunk>)
    requires BackToBack(chunks) && chunks != []
    ensures forall t :: t in Boundaries(chunks) ==> Before(t, chunks[|chunks| - 1].endTS)
    ensures AtMost(chunks[0].startTS, chunks[|chunks| - 1].startTS)
    decreases |chunks|
  {
    if |chunks| > 1 {
      var before := chunks[..|chunks| - 1];
      BoundariesBefore(before);
      forall t | t in Boundaries(chunks) ensures Before(t, chunks[|chunks| - 1].endTS) {
        var k :| 0 < k < |chunks| && t == chunks[k].startTS;
        if k < |before| {
          assert before[k].startTS in Boundaries(before);
        }
      }
    }
  }

  /** One chunk, cut to the time frame. */
  lemma FrameOfChunk<Op>(
    log: seq<Entry<Op>>, startTS: Timestamp, to: Timestamp, c: T.OplogChunk, files: map<string, seq<Entry<Op>>>)
    requires Ordered(log) && to.t > 0 && HoldsPart(log, files, c)
    ensures InFrame(startTS, to, files[c.fname]) == Between(log, Later(startTS, c.startTS), Earlier(to, c.endTS))
  {
    BetweenBetween(log, c.startTS, c.endTS, startTS, to);
    FrameIsRange(startTS, to, files[c.fname]);
  }

  lemma BoundariesGrow(chunks: seq<T.OplogChunk>)
    requires |chunks| > 1
    ensures Boundaries(chunks) == Boundaries(chunks[..|chunks| - 1]) + {chunks[|chunks| - 1].startTS}
  {
    var before := chunks[..|chunks| - 1];
    assert forall k :: 0 < k < |before| ==> before[k].startTS == chunks[k].startTS;
    forall t | t in Boundaries(chunks) ensures t in Boundaries(before) + {chunks[|chunks| - 1].startTS} {
      var k :| 0 < k < |chunks| && t == chunks[k].startTS;
      assert k < |before| ==> before[k].startTS in Boundaries(before);
    }
    forall t | t in Boundaries(before) ensures t in Boundaries(chunks) {
      var k :| 0 < k < |before| && t == before[k].startTS;
      assert chunks[k].startTS in Boundaries(chunks);
    }
  }

  /** What replaying these chunks amounts to. */
  ghost predicate Handles<Op>(
    log: seq<Entry<Op>>, startTS: Timestamp, to: Timestamp, chunks: seq<T.OplogChunk>,
    files: map<string, seq<Entry<Op>>>)
    requires chunks != []
  {
    Frames(startTS, to, chunks, files) ==
      Repeated(
        Between(log, Later(startTS, chunks[0].startTS), Earlier(to, chunks[|chunks| - 1].endTS)), Boundaries(chunks))
  }

  lemma OneChunk<Op>(
    log: seq<Entry<Op>>, startTS: Timestamp, to: Timestamp, c: T.OplogChunk, files: map<string, seq<Entry<Op>>>)
    requires Ordered(log) && to.t > 0 && HoldsPart(log, files, c)
    ensures Handles(log, startTS, to, [c], files)
  {
    FrameOfChunk(log, startTS, to, c, files);
    assert Boundaries([c]) == {} && [c][..0] == [];
    Unmarked(Between(log, Later(startTS, c.startTS), Earlier(to, c.endTS)), {});
  }

  lemma OneMoreChunk<Op>(
    log: seq<Entry<Op>>, startTS: Timestamp, to: Timestamp, before: seq<T.OplogChunk>, c: T.OplogChunk,
    files: map<string, seq<Entry<Op>>>)
    requires Ordered(log) && to.t > 0 && before != [] && BackToBack(before + [c]) && HoldsPart(log, files, c)
    requires AtMost(c.startTS, to) && Handles(log, startTS, to, before, files)
    ensures Handles(log, startTS, to, before + [c], files)
  {
    var chunks := before + [c];
    var from, b, e := Later(startTS, before[0].startTS), c.startTS, Earlier(to, c.endTS);
    RowGrows(before, c);
    FrameOfChunk(log, startTS, to, c, files);
    BoundariesBefore(before);
    BoundariesGrow(chunks);
    TimesOfNextChunk(startTS, before[0].startTS, b, to, c.endTS);
    assert Frames(startTS, to, chunks, files) ==
      Frames(startTS, to, before, files) + Between(log, Later(startTS, b), e);
    NextPart(log, from, b, e, Boundaries(before));
  }

  lemma RowGrows(before: seq<T.OplogChunk>, c: T.OplogChunk)
    requires before != [] && BackToBack(before + [c])
    ensures BackToBack(before) && c.startTS == before[|before| - 1].endTS && Before(c.startTS, c.endTS)
    ensures (before + [c])[..|before|] == before
    ensures AtMost(before[0].startTS, c.startTS)
  {
    var chunks := before + [c];
    assert forall k :: 0 <= k < |before| ==> before[k] == chunks[k];
    assert chunks[|before|] == c;
    BoundariesBefore(before);
  }

  lemma TimesOfNextChunk(startTS: Timestamp, first: Timestamp, b: Timestamp, to: Timestamp, end: Timestamp)
    requires AtMost(first, b) && AtMost(b, to) && Before(b, end)
    ensures Earlier(to, b) == b && AtMost(b, Earlier(to, end))
    ensures Later(startTS, b) == if AtMost(Later(startTS, first), b) then b else Later(startTS, first)
  {
  }

  /** The part from `b` on, next to what came before it. */
  lemma NextPart<Op>(log: seq<Entry<Op>>, from: Timestamp, b: Timestamp, e: Timestamp, marks: set<Timestamp>)
    requires Ordered(log) && AtMost(b, e) && forall t :: t in marks ==> Before(t, b)
    ensures Repeated(Between(log, from, b), marks) + Between(log, if AtMost(from, b) then b else from, e) ==
      Repeated(Between(log, from, e), marks + {b})
  {
    if AtMost(from, b) {
      PartsMeet(log, from, b, e, marks);
    } else {
      FrameAfterBoundaries(log, from, b, e, marks + {b});
    }
  }

  /** Replay of back-to-back chunks handles exactly the entries of the log from the start of the first
      chunk (or of the time frame, if later) up to `to`, in order, each once, except that an entry at
      the boundary of two chunks is met twice in a row. */
  lemma {:induction false} SliceThenReplay<Op>(
    log: seq<Entry<Op>>, startTS: Timestamp, to: Timestamp, chunks: seq<T.OplogChunk>,
    files: map<string, seq<Entry<Op>>>)
    requires Ordered(log) && to.t > 0 && chunks != [] && BackToBack(chunks)
    requires forall k :: 0 <= k < |chunks| ==> HoldsPart(log, files, chunks[k]) && AtMost(chunks[k].startTS, to)
    ensures Frames(startTS, to, chunks, files) ==
      Repeated(
        Between(log, Later(startTS, chunks[0].startTS), Earlier(to, chunks[|chunks| - 1].endTS)), Boundaries(chunks))
    decreases |chunks|
  {
    var n := |chunks| - 1;
    if n == 0 {
      assert chunks == [chunks[0]];
      OneChunk(log, startTS, to, chunks[0], files);
    } else {
      var before := chunks[..n];
      assert chunks == before + [chunks[n]];
      SliceThenReplay(log, startTS, to, before, files);
      OneMoreChunk(log, startTS, to, before, chunks[n], files);
    }
  }

  /** The positions of the entries met twice. */
  function Marked<Op>(es: seq<Entry<Op>>, marks: set<Timestamp>): set<nat> {
    set i: nat | i < |es| && es[i].ts in marks
  }

  lemma {:induction false} RepeatedIsDoubled<Op>(es: seq<Entry<Op>>, marks: set<Timestamp>, at: set<nat>)
    requires forall i: nat :: i < |es| ==> (i in at <==> es[i].ts in marks)
    ensures Events(Repeated(es, marks)) == Doubled(Events(es), at)
    decreases |es|
  {
    if es != [] {
      var before, e := es[..|es| - 1], es[|es| - 1];
      RepeatedIsDoubled(before, marks, at);
      assert Events(es)[..|es| - 1] == Events(before);
    }
  }

  /** From the live oplog to the restored database: chunks that the check accepts for `from` and `to`,
      replayed up to `to`, leave the database that the log itself leaves, handled once from the start
      of the first chunk (or of the time frame, if later) to `to`. */
  lemma ReplayIsFaithful<DB(!new), Op(!new)>(
    exec: (DB, Op) -> Option<DB>, s: Site<DB, Op>, log: seq<Entry<Op>>, startTS: Timestamp, from: Timestamp,
    to: Timestamp, chunks: seq<T.OplogChunk>, files: map<string, seq<Entry<Op>>>)
    requires Idempotent(exec) && s.ok
    requires Ordered(log) && forall e :: e in log ==> WellFormed(Classify(e))
    requires to.t > 0 && Accepted(chunks, from, to, files.Keys) && BackToBack(chunks)
    requires forall k :: 0 <= k < |chunks| ==> HoldsPart(log, files, chunks[k]) && AtMost(chunks[k].startTS, to)
    ensures SameSite(exec,
      HandleAll(exec, s, Events(Between(log, Later(startTS, chunks[0].startTS), to))),
      HandleAll(exec, s, Events(Frames(startTS, to, chunks, files))))
  {
    SliceThenReplay(log, startTS, to, chunks, files);
    var es := Between(log, Later(startTS, chunks[0].startTS), to);
    BetweenBetween(log, Later(startTS, chunks[0].startTS), to, ZeroTS, ZeroTS);
    var at := Marked(es, Boundaries(chunks));
    RepeatedIsDoubled(es, Boundaries(chunks), at);
    forall e | e in Events(es) ensures WellFormed(e) {
      var i :| 0 <= i < |es| && Classify(es[i]) == e;
      assert es[i] in log;
    }
    RepeatsAreHarmless(exec, s, Events(es), at);
  }

  /** The slices of one slicer run, saved as chunks, are such a row. */
  lemma {:induction false} SlicesAreBackToBack<Op>(
    log: seq<Entry<Op>>, from: Timestamp, slices: seq<Slice<Op>>, to: Timestamp,
    chunks: seq<T.OplogChunk>, files: map<string, seq<Entry<Op>>>)
    requires Continues(log, from, slices, to) && |chunks| == |slices| > 0
    requires forall k :: 0 <= k < |slices| ==>
      && chunks[k].startTS == slices[k].startTS && chunks[k].endTS == slices[k].endTS
      && chunks[k].fname in files && files[chunks[k].fname] == slices[k].entries
    ensures BackToBack(chunks) && chunks[0].startTS == from && chunks[|chunks| - 1].endTS == to
    ensures forall k :: 0 <= k < |chunks| ==> HoldsPart(log, files, chunks[k])
    decreases |slices|
  {
    var n := |slices| - 1;
    if n > 0 {
      SlicesAreBackToBack(log, from, slices[..n], slices[n].startTS, chunks[..n], files);
      assert forall k :: 0 <= k < n ==> chunks[..n][k] == chunks[k];
      assert chunks[n].startTS == chunks[n - 1].endTS;
    }
  }
}
