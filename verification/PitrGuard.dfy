/** The guard of the PITR base (pbm/backup/delete.go, pbm/lifecycle/manager.go): while PITR runs, the
    last base snapshot that the saved oplog needs must not be deleted, and a lifecycle report must not
    propose what the guard refuses. */
module PitrGuard {
  import opened Options
  import opened Timestamps
  import opened Backups
  import opened Lifecycle
  import opened Retention
  import opened Deletion
  import T = Timelines
  import O = OplogSlicing

  // ---------------------------------------------------------------------------------------------
  // Is a base required?
  // ---------------------------------------------------------------------------------------------

  /** The replica sets of the cluster and the index of saved chunks, in the order of their start. */
  datatype Oplog = Oplog(shards: seq<string>, index: seq<T.OplogChunk>)

  function LinesOfShards(o: Oplog, from: Timestamp, until: Timestamp): (sets: seq<seq<T.Timeline>>)
    ensures |sets| == |o.shards|
    ensures forall i :: 0 <= i < |sets| ==> sets[i] == T.TimelinesOf(O.ChunksSlice(o.index, o.shards[i], from, until))
  {
    seq(|o.shards|, i requires 0 <= i < |o.shards| => T.TimelinesOf(O.ChunksSlice(o.index, o.shards[i], from, until)))
  }

  /** The timelines of the whole cluster between two times. */
  function LinesBetween(o: Oplog, from: Timestamp, until: Timestamp): seq<T.Timeline> {
    T.Merged(LinesOfShards(o, from, until))
  }

  ghost predicate HasBaseAfter(db: seq<Meta>, lw: Timestamp) {
    exists b :: b in db && IsMainPITRBaseSnapshot(b) && Before(lw, b.lastWriteTS)
  }

  /** The last write of the newest base before `lw`, other than `exclude`; zero if there is none. */
  function BaseBefore(db: seq<Meta>, lw: Timestamp, exclude: Timestamp): Timestamp {
    if db == [] then ZeroTS
    else
      var prev, b := BaseBefore(db[..|db| - 1], lw, exclude), db[|db| - 1];
      if IsMainPITRBaseSnapshot(b) && Before(b.lastWriteTS, lw) && b.lastWriteTS != exclude
         && Before(prev, b.lastWriteTS)
      then b.lastWriteTS
      else prev
  }

  lemma {:induction false} BaseBeforeIs(db: seq<Meta>, lw: Timestamp, exclude: Timestamp)
    ensures var prev := BaseBefore(db, lw, exclude);
      && (forall b :: b in db && IsMainPITRBaseSnapshot(b) && Before(b.lastWriteTS, lw) && b.lastWriteTS != exclude ==>
            AtMost(b.lastWriteTS, prev))
      && (prev == ZeroTS ||
          exists b :: b in db && IsMainPITRBaseSnapshot(b) && Before(prev, lw) && prev != exclude
                      && b.lastWriteTS == prev)
    decreases |db|
  {
    if db != [] {
      var before, b := db[..|db| - 1], db[|db| - 1];
      assert db == before + [b];
      BaseBeforeIs(before, lw, exclude);
      if BaseBefore(db, lw, exclude) != BaseBefore(before, lw, exclude) {
        assert b in db;
      } else if BaseBefore(before, lw, exclude) != ZeroTS {
        var x :| x in before && IsMainPITRBaseSnapshot(x) && x.lastWriteTS == BaseBefore(before, lw, exclude);
        assert x in db;
      }
    }
  }

  predicate IsRequiredPITRBase(prev: Timestamp, lines: seq<T.Timeline>) {
    |lines| == 1 && prev.t < lines[0].start
  }

  ghost predicate Required(db: seq<Meta>, o: Oplog, lw: Timestamp, baseLW: Timestamp) {
    var prev := BaseBefore(db, lw, baseLW);
    !HasBaseAfter(db, lw) && IsRequiredPITRBase(prev, LinesBetween(o, prev, lw))
  }

  /** `prev` is the last write of the newest base before `lw`, not counting `exclude`, or zero. */
  ghost predicate IsNewestBefore(db: seq<Meta>, lw: Timestamp, exclude: Timestamp, prev: Timestamp) {
    && (forall b :: b in db && IsMainBase(b) && Before(b.lastWriteTS, lw) && b.lastWriteTS != exclude ==>
          AtMost(b.lastWriteTS, prev))
    && (prev == ZeroTS ||
        exists b :: b in db && IsMainBase(b) && Before(prev, lw) && prev != exclude && b.lastWriteTS == prev)
  }

  /** No base is later, and the oplog saved since the newest one before is one line that begins after it. */
  ghost predicate OplogNeeds(db: seq<Meta>, o: Oplog, lw: Timestamp, baseLW: Timestamp) {
    && (forall b :: b in db && IsMainBase(b) ==> AtMost(b.lastWriteTS, lw))
    && exists prev :: IsNewestBefore(db, lw, baseLW, prev) && BeginsLate(LinesBetween(o, prev, lw), prev)
  }

  predicate BeginsLate(lines: seq<T.Timeline>, prev: Timestamp) {
    |lines| == 1 && lines[0].start > prev.t
  }

  lemma OneNewestBefore(db: seq<Meta>, lw: Timestamp, exclude: Timestamp, a: Timestamp, b: Timestamp)
    requires IsNewestBefore(db, lw, exclude, a) && IsNewestBefore(db, lw, exclude, b)
    ensures a == b
  {
    assert a != ZeroTS ==> AtMost(a, b);
    assert b != ZeroTS ==> AtMost(b, a);
  }

  /** Which backup is required, over the fields of the backups. */
  lemma RequiredIs(db: seq<Meta>, o: Oplog, lw: Timestamp, baseLW: Timestamp)
    ensures Required(db, o, lw, baseLW) <==> OplogNeeds(db, o, lw, baseLW)
  {
    var prev := BaseBefore(db, lw, baseLW);
    BaseBeforeIs(db, lw, baseLW);
    assert forall b: Meta :: IsMainBase(b) <==> IsMainPITRBaseSnapshot(b);
    assert IsNewestBefore(db, lw, baseLW, prev);
    forall p | IsNewestBefore(db, lw, baseLW, p) ensures p == prev {
      OneNewestBefore(db, lw, baseLW, p, prev);
    }
    if OplogNeeds(db, o, lw, baseLW) {
      assert BeginsLate(LinesBetween(o, prev, lw), prev);
    }
  }

  method IsRequiredForOplogSlicing(db: seq<Meta>, o: Oplog, pitrOn: bool, lw: Timestamp, baseLW: Timestamp)
    returns (required: bool)
    ensures required <==> pitrOn && Required(db, o, lw, baseLW)
    ensures required <==> pitrOn && OplogNeeds(db, o, lw, baseLW)
  {
    RequiredIs(db, o, lw, baseLW);
    if !pitrOn {
      return false;
    }
    var newer := exists b :: b in db && IsMainPITRBaseSnapshot(b) && Before(lw, b.lastWriteTS);
    if newer {
      return false;
    }
    var prev := BaseBefore(db, lw, baseLW);
    var timelines := LinesBetween(o, prev, lw);
    if |timelines| != 1 || prev.t >= timelines[0].start {
      return false;
    }
    return true;
  }

  // ---------------------------------------------------------------------------------------------
  // May it be deleted?
  // ---------------------------------------------------------------------------------------------

  datatype Verdict = Allowed | InProgress | NonIncremental | NotBase | BelongsToChain | BaseForPITR

  function LastDoneOf(bs: seq<Meta>): Option<Meta> {
    if bs == [] then None
    else if bs[|bs| - 1].status == Done then Some(bs[|bs| - 1])
    else LastDoneOf(bs[..|bs| - 1])
  }

  /** The time a chain restores to: that of its last done increment, or of its base. */
  function LastWrite(base: Meta, increments: seq<Meta>): Timestamp {
    match LastDoneOf(increments)
    case Some(b) => b.lastWriteTS
    case None => base.lastWriteTS
  }

  ghost predicate VerdictOnBackup(db: seq<Meta>, o: Oplog, pitrOn: bool, b: Meta, v: Verdict) {
    v == if b.status == Active then InProgress
         else if b.status != Done || b.kind == External || b.selective then Allowed
         else if b.kind == Incremental then BelongsToChain
         else if pitrOn && Required(db, o, b.lastWriteTS, ZeroTS) then BaseForPITR
         else Allowed
  }

  ghost predicate VerdictOnChain(db: seq<Meta>, o: Oplog, pitrOn: bool, b: Meta, increments: seq<Meta>, v: Verdict) {
    v == if b.status == Active then InProgress
         else if b.kind != Incremental then NonIncremental
         else if b.src != "" then NotBase
         else if pitrOn && Required(db, o, LastWrite(b, increments), b.lastWriteTS) then BaseForPITR
         else Allowed
  }

  method CanDeleteBackup(db: seq<Meta>, o: Oplog, pitrOn: bool, b: Meta) returns (v: Verdict)
    ensures VerdictOnBackup(db, o, pitrOn, b, v)
  {
    if IsRunning(b) {
      return InProgress;
    }
    if !IsValidBaseSnapshot(b) {
      return Allowed;
    }
    if b.kind == Incremental {
      return BelongsToChain;
    }
    var required := IsRequiredForOplogSlicing(db, o, pitrOn, b.lastWriteTS, ZeroTS);
    v := if required then BaseForPITR else Allowed;
  }

  method CanDeleteIncrementalChain(db: seq<Meta>, o: Oplog, pitrOn: bool, base: Meta, increments: seq<seq<Meta>>)
    returns (v: Verdict)
    ensures VerdictOnChain(db, o, pitrOn, base, Flat(increments), v)
  {
    if IsRunning(base) {
      return InProgress;
    }
    if base.kind != Incremental {
      return NonIncremental;
    }
    if base.src != "" {
      return NotBase;
    }
    var last := LastDoneIn(increments);
    var lastWrite := if last.Some? then last.value.lastWriteTS else base.lastWriteTS;
    var required := IsRequiredForOplogSlicing(db, o, pitrOn, lastWrite, base.lastWriteTS);
    v := if required then BaseForPITR else Allowed;
  }

  /** The last done increment of the last level that has one. */
  method LastDoneIn(increments: seq<seq<Meta>>) returns (last: Option<Meta>)
    ensures last == LastDoneOf(Flat(increments))
  {
    last := None;
    for i := 0 to |increments|
      invariant last == LastDoneOf(Flat(increments[..i]))
    {
      assert increments[..i + 1][..i] == increments[..i];
      var level := increments[i];
      ghost var before := Flat(increments[..i]);
      assert before + level[..0] == before;
      for j := 0 to |level|
        invariant last == LastDoneOf(before + level[..j])
      {
        assert (before + level[..j + 1])[..|before| + j] == before + level[..j];
        if level[j].status == Done {
          last := Some(level[j]);
        }
      }
      assert level[..|level|] == level;
    }
    assert increments[..|increments|] == increments;
  }

  /** What the deletion of `b` by name would be answered. */
  ghost predicate IsVerdict(db: seq<Meta>, o: Oplog, b: Meta, v: Verdict) {
    if b.kind == Incremental then
      exists chain :: IsFetched(db, b.name, chain) && VerdictOnChain(db, o, true, b, Flat(chain), v)
    else VerdictOnBackup(db, o, true, b, v)
  }

  // ---------------------------------------------------------------------------------------------
  // What a refusal means
  // ---------------------------------------------------------------------------------------------

  /** In every replica set the chunks form one timeline from the base before on. */
  predicate Reaches(o: Oplog, prev: Timestamp, lw: Timestamp, till: int) {
    forall rs :: rs in o.shards ==> T.HasLine(T.TimelinesOf(O.ChunksSlice(o.index, rs, prev, lw)), prev.t, till)
  }

  predicate AllShardsHaveChunks(o: Oplog, from: Timestamp, until: Timestamp) {
    forall rs :: rs in o.shards ==> O.ChunksSlice(o.index, rs, from, until) != []
  }

  lemma {:induction false} SliceIsProper(index: seq<T.OplogChunk>, rs: string, from: Timestamp, until: Timestamp)
    requires T.ProperIndex(index)
    ensures T.ProperIndex(O.ChunksSlice(index, rs, from, until))
    ensures forall c :: c in O.ChunksSlice(index, rs, from, until) ==> c in index
    decreases |index|
  {
    if index != [] {
      var before, last := index[..|index| - 1], index[|index| - 1];
      assert index == before + [last];
      SliceIsProper(before, rs, from, until);
      var picked := O.ChunksSlice(before, rs, from, until);
      forall i | 0 <= i < |picked| ensures AtMost(picked[i].startTS, last.startTS) {
        assert picked[i] in before;
        var k :| 0 <= k < |before| && before[k] == picked[i];
        assert AtMost(index[k].startTS, index[|index| - 1].startTS);
      }
    }
  }

  lemma ShardLinesWellFormed(o: Oplog, from: Timestamp, until: Timestamp)
    requires T.ProperIndex(o.index) && AllShardsHaveChunks(o, from, until)
    ensures T.AllWellFormed(LinesOfShards(o, from, until))
  {
    var sets := LinesOfShards(o, from, until);
    forall lines: seq<T.Timeline> | lines in sets ensures T.WellFormed(lines) {
      var i :| 0 <= i < |sets| && sets[i] == lines;
      assert o.shards[i] in o.shards;
      SliceIsProper(o.index, o.shards[i], from, until);
      T.TimelinesAreWellFormed(O.ChunksSlice(o.index, o.shards[i], from, until));
    }
  }

  lemma ReachesIsMergedLine(o: Oplog, prev: Timestamp, lw: Timestamp, till: int)
    requires T.ProperIndex(o.index) && o.shards != [] && AllShardsHaveChunks(o, prev, lw) && prev.t < till
    ensures Reaches(o, prev, lw, till) <==> T.HasLine(LinesBetween(o, prev, lw), prev.t, till)
  {
    var sets := LinesOfShards(o, prev, lw);
    ShardLinesWellFormed(o, prev, lw);
    if Reaches(o, prev, lw, till) {
      forall lines: seq<T.Timeline> | lines in sets ensures T.HasLine(lines, prev.t, till) {
        var i :| 0 <= i < |sets| && sets[i] == lines;
        assert o.shards[i] in o.shards;
      }
      T.OneEachGivesMergedLine(sets, prev.t, till);
    }
    if T.HasLine(LinesBetween(o, prev, lw), prev.t, till) {
      forall rs | rs in o.shards ensures T.HasLine(T.TimelinesOf(O.ChunksSlice(o.index, rs, prev, lw)), prev.t, till) {
        var i :| 0 <= i < |o.shards| && o.shards[i] == rs;
        assert sets[i] in sets;
        T.MergedLineInsideOne(sets, sets[i], prev.t, till);
      }
    }
  }

  /** For any merged lines, when the guard is right. It takes the last base for required if it cannot be
      reached from the one before: with one line, it errs exactly if that line begins in time and ends too
      early; with several or none, exactly if none of them reaches on. */
  lemma GuardAgreesExactly(o: Oplog, prev: Timestamp, lw: Timestamp, till: int)
    requires T.ProperIndex(o.index) && o.shards != [] && AllShardsHaveChunks(o, prev, lw) && prev.t < till
    ensures var lines := LinesBetween(o, prev, lw);
      (IsRequiredPITRBase(prev, lines) <==> !Reaches(o, prev, lw, till)) <==>
        if |lines| == 1 then prev.t < lines[0].start || till <= lines[0].end
        else exists line :: line in lines && line.start <= prev.t && till <= line.end
  {
    ReachesIsMergedLine(o, prev, lw, till);
    AgreesByLines(LinesBetween(o, prev, lw), prev, till, Reaches(o, prev, lw, till));
  }

  lemma AgreesByLines(lines: seq<T.Timeline>, prev: Timestamp, till: int, reaches: bool)
    requires reaches <==> T.HasLine(lines, prev.t, till)
    ensures (IsRequiredPITRBase(prev, lines) <==> !reaches) <==>
      if |lines| == 1 then prev.t < lines[0].start || till <= lines[0].end
      else exists line :: line in lines && line.start <= prev.t && till <= line.end
  {
    if |lines| == 1 {
      assert lines[0] in lines;
    }
  }

  /** Without chunks in some replica set nothing reaches on. */
  lemma MissingChunksReachNothing(o: Oplog, prev: Timestamp, lw: Timestamp, till: int)
    requires !AllShardsHaveChunks(o, prev, lw) && 0 < till
    ensures !Reaches(o, prev, lw, till)
  {
    var rs :| rs in o.shards && O.ChunksSlice(o.index, rs, prev, lw) == [];
    assert T.TimelinesOf([]) == [T.ZeroTimeline];
  }

  /** The chunks of the replica set between the two times form one line, or there are none. */
  predicate OneLine(o: Oplog, rs: string, from: Timestamp, until: Timestamp) {
    |T.TimelinesOf(O.ChunksSlice(o.index, rs, from, until))| == 1
  }

  predicate BeginsAfter(o: Oplog, rs: string, from: Timestamp, until: Timestamp)
    requires OneLine(o, rs, from, until)
  {
    from.t < T.TimelinesOf(O.ChunksSlice(o.index, rs, from, until))[0].start
  }

  /** For any number of replica sets, with chunks or without: when none has a gap, the last base is
      required exactly if some replica set has chunks and they begin after the base before. */
  lemma RequiredWithoutGaps(o: Oplog, prev: Timestamp, lw: Timestamp)
    requires forall rs :: rs in o.shards ==> OneLine(o, rs, prev, lw)
    ensures IsRequiredPITRBase(prev, LinesBetween(o, prev, lw)) <==>
      exists rs :: rs in o.shards && BeginsAfter(o, rs, prev, lw)
  {
    var sets := LinesOfShards(o, prev, lw);
    forall i | 0 <= i < |sets| ensures |sets[i]| == 1 {
      assert o.shards[i] in o.shards;
    }
    LatestOfSingles(sets, prev.t);
    if |sets| > 1 {
      T.NoGapPath(sets);
    } else if |sets| == 1 {
      assert sets[..0] == [];
    }
    if i :| 0 <= i < |sets| && prev.t < sets[i][0].start {
      assert o.shards[i] in o.shards && BeginsAfter(o, o.shards[i], prev, lw);
    }
    if rs :| rs in o.shards && BeginsAfter(o, rs, prev, lw) {
      var i :| 0 <= i < |o.shards| && o.shards[i] == rs;
      assert prev.t < sets[i][0].start;
    }
  }

  lemma {:induction false} LatestOfSingles(sets: seq<seq<T.Timeline>>, x: int)
    requires forall i :: 0 <= i < |sets| ==> |sets[i]| == 1
    requires 0 <= x
    ensures T.AllGaps(sets) == []
    ensures x < T.LatestStart(sets) <==> exists i :: 0 <= i < |sets| && x < sets[i][0].start
    decreases |sets|
  {
    if sets != [] {
      var before, last := sets[..|sets| - 1], sets[|sets| - 1];
      assert sets == before + [last];
      LatestOfSingles(before, x);
      assert T.GapsIn(last) == [] && T.LatestStart(sets) == T.LaterStart(T.LatestStart(before), last);
      if i :| 0 <= i < |before| && x < before[i][0].start {
        assert x < sets[i][0].start;
      }
    }
  }

  /** An oplog that has nothing yet turns the guard off, however many replica sets there are: no base is
      required. */
  lemma NoChunksNoGuard(db: seq<Meta>, o: Oplog, lw: Timestamp, baseLW: Timestamp)
    requires forall rs :: rs in o.shards ==> O.ChunksSlice(o.index, rs, BaseBefore(db, lw, baseLW), lw) == []
    ensures !Required(db, o, lw, baseLW)
  {
    assert T.TimelinesOf([]) == [T.ZeroTimeline];
    RequiredWithoutGaps(o, BaseBefore(db, lw, baseLW), lw);
  }

  /** So does a last replica set without chunks, as soon as another has a gap: the end of the range is
      then 0, and no line is left. */
  lemma LastWithoutChunksNoGuard(o: Oplog, prev: Timestamp, lw: Timestamp)
    requires |o.shards| > 1 && O.ChunksSlice(o.index, o.shards[|o.shards| - 1], prev, lw) == []
    requires exists rs :: rs in o.shards && !OneLine(o, rs, prev, lw)
    ensures LinesBetween(o, prev, lw) == []
  {
    var sets := LinesOfShards(o, prev, lw);
    var rs :| rs in o.shards && !OneLine(o, rs, prev, lw);
    var i :| 0 <= i < |o.shards| && o.shards[i] == rs;
    assert T.TimelinesOf([]) == [T.ZeroTimeline];
    assert T.EarliestEnd(sets) == 0;
    T.GapOfSet(sets, sets[i]);
    assert T.GapsIn(sets[i])[|T.GapsIn(sets[i])| - 1] in T.GapsIn(sets[i]);
    T.SortGapsSorts(T.AllGaps(sets));
    NothingMelts(T.SortGaps(T.AllGaps(sets)), T.LatestStart(sets));
  }

  lemma {:induction false} NothingMelts(gs: seq<T.Gap>, start: uint32)
    ensures T.MeltGaps(gs, start, 0, []) == []
    decreases |gs|
  {
    if gs != [] && gs[0].e <= start {
      NothingMelts(gs[1..], start);
    }
  }

  /** Reaching on means an unbroken chain of chunks in every replica set. */
  lemma ReachesByChain(o: Oplog, prev: Timestamp, lw: Timestamp, till: int, rs: string)
    requires T.ProperIndex(o.index) && AllShardsHaveChunks(o, prev, lw) && Reaches(o, prev, lw, till) && rs in o.shards
    ensures T.SpannedByChain(O.ChunksSlice(o.index, rs, prev, lw), prev.t, till)
  {
    SliceIsProper(o.index, rs, prev, lw);
    T.LineSpansChain(O.ChunksSlice(o.index, rs, prev, lw), prev.t, till);
  }

  function Chunk(start: uint32, end: uint32): T.OplogChunk {
    T.OplogChunk("rs", "", Timestamp(start, 0), Timestamp(end, 0), 0)
  }

  function Snapshot(name: string, lw: uint32): Meta {
    Meta(name, Logical, Done, "", false, false, Timestamp(lw, 0), 0)
  }

  function TwoBases(): seq<Meta> {
    [Snapshot("a", 10), Snapshot("b", 100)]
  }

  function OplogWithGap(): Oplog {
    Oplog(["rs"], [Chunk(10, 50), Chunk(90, 110)])
  }

  /** A gap in the oplog before the last base turns the guard off: that base may be deleted although the
      oplog goes on from it, and from no other base. */
  lemma GapLetsLastBaseGo(v: Verdict)
    requires VerdictOnBackup(TwoBases(), OplogWithGap(), true, Snapshot("b", 100), v)
    ensures v == Allowed && !HasBaseAfter(TwoBases(), Timestamp(100, 0))
    ensures !Reaches(OplogWithGap(), Timestamp(10, 0), Timestamp(100, 0), 100)
    ensures Reaches(OplogWithGap(), Timestamp(100, 0), Timestamp(110, 0), 110)
  {
    PrevOfTwo();
    LinesWithGap();
    LineAfterGap();
  }

  lemma LinesWithGap()
    ensures |LinesBetween(OplogWithGap(), Timestamp(10, 0), Timestamp(100, 0))| == 2
    ensures !Reaches(OplogWithGap(), Timestamp(10, 0), Timestamp(100, 0), 100)
  {
    PairLines(Chunk(10, 50), Chunk(90, 110), Timestamp(10, 0), Timestamp(100, 0));
    assert "rs" in OplogWithGap().shards;
  }

  lemma LineAfterGap()
    ensures Reaches(OplogWithGap(), Timestamp(100, 0), Timestamp(110, 0), 110)
  {
    PairLines(Chunk(10, 50), Chunk(90, 110), Timestamp(100, 0), Timestamp(110, 0));
    assert T.Timeline(90, 110, 0) in [T.Timeline(90, 110, 0)];
  }

  /** The lines of a replica set that has two chunks with a gap between them, both asked for or the later
      one only. */
  lemma PairLines(a: T.OplogChunk, b: T.OplogChunk, from: Timestamp, until: Timestamp)
    requires a.rs == b.rs == "rs" && 0 < a.endTS.t && Before(a.endTS, b.startTS)
    requires O.IsAskedFor(b, "rs", from, until)
    ensures var la, lb := T.Timeline(a.startTS.t, a.endTS.t, a.size), T.Timeline(b.startTS.t, b.endTS.t, b.size);
      var lines := T.TimelinesOf(O.ChunksSlice([a, b], "rs", from, until));
      && lines == (if O.IsAskedFor(a, "rs", from, until) then [la, lb] else [lb])
      && LinesBetween(Oplog(["rs"], [a, b]), from, until) == lines
  {
    SliceOfTwo(a, b, from, until);
    LinesOfTwo(a, b);
    LineOfOne(b);
    assert [a] + [b] == [a, b] && [] + [b] == [b];
    OneShard([a, b], from, until);
  }

  lemma OneShard(index: seq<T.OplogChunk>, from: Timestamp, until: Timestamp)
    ensures LinesBetween(Oplog(["rs"], index), from, until) == T.TimelinesOf(O.ChunksSlice(index, "rs", from, until))
  {
    assert LinesOfShards(Oplog(["rs"], index), from, until) == [T.TimelinesOf(O.ChunksSlice(index, "rs", from, until))];
  }

  lemma BaseStep(db: seq<Meta>, b: Meta, lw: Timestamp, exclude: Timestamp)
    ensures BaseBefore(db + [b], lw, exclude) ==
      if IsMainPITRBaseSnapshot(b) && Before(b.lastWriteTS, lw) && b.lastWriteTS != exclude
         && Before(BaseBefore(db, lw, exclude), b.lastWriteTS)
      then b.lastWriteTS else BaseBefore(db, lw, exclude)
  {
    assert (db + [b])[..|db|] == db;
  }

  lemma PrevOfTwo()
    ensures BaseBefore(TwoBases(), Timestamp(100, 0), ZeroTS) == Timestamp(10, 0)
  {
    BaseStep([], Snapshot("a", 10), Timestamp(100, 0), ZeroTS);
    BaseStep([Snapshot("a", 10)], Snapshot("b", 100), Timestamp(100, 0), ZeroTS);
    assert [] + [Snapshot("a", 10)] == [Snapshot("a", 10)];
    assert [Snapshot("a", 10)] + [Snapshot("b", 100)] == TwoBases();
  }

  lemma SliceOfTwo(a: T.OplogChunk, b: T.OplogChunk, from: Timestamp, until: Timestamp)
    requires a.rs == b.rs == "rs"
    ensures O.ChunksSlice([a, b], "rs", from, until) ==
      (if O.IsAskedFor(a, "rs", from, until) then [a] else []) + if O.IsAskedFor(b, "rs", from, until) then [b] else []
  {
    assert [a, b][..1] == [a] && [a][..0] == [];
    assert O.ChunksSlice([a], "rs", from, until) == if O.IsAskedFor(a, "rs", from, until) then [a] else [];
  }

  lemma LineOfOne(a: T.OplogChunk)
    ensures T.TimelinesOf([a]) == [T.Timeline(a.startTS.t, a.endTS.t, a.size)]
  {
    assert [a][..0] == [];
    assert T.ScanChunks([a]) == T.ScanStep(T.ScanChunks([]), a);
  }

  lemma LinesOfTwo(a: T.OplogChunk, b: T.OplogChunk)
    requires 0 < a.endTS.t && Before(a.endTS, b.startTS)
    ensures T.TimelinesOf([a, b]) ==
      [T.Timeline(a.startTS.t, a.endTS.t, a.size), T.Timeline(b.startTS.t, b.endTS.t, b.size)]
  {
    assert [a, b][..1] == [a] && [a][..0] == [];
    assert T.ScanChunks([a]) == T.ScanStep(T.ScanChunks([]), a);
  }

  // ---------------------------------------------------------------------------------------------
  // A report proposes nothing that would be refused
  // ---------------------------------------------------------------------------------------------

  /** The backups selected by storage: increments are stored where their source is. */
  predicate ClosedDown(db: seq<Meta>, bs: seq<Meta>) {
    (forall b :: b in bs ==> b in db) && (forall p, c :: p in bs && c in db && c.src == p.name ==> c in bs)
  }

  /** Keeping `a` is meant to keep `b`: it is `b` itself or a done increment that leads up to it. */
  ghost predicate Anchors(db: seq<Meta>, b: Meta, a: string) {
    a == b.name ||
    (b.kind == Incremental && exists x :: x in db && x.status == Done && x.name == a && InUnit(db, b.name, a))
  }

  /** Whether a target would be refused, and what to keep in that case. */
  method CheckTarget(db: seq<Meta>, o: Oplog, b: Meta) returns (v: Verdict, anchor: string)
    requires Proper(db) && b in db && IsEntryPoint(b) && !IsRunning(b)
    ensures IsVerdict(db, o, b, v) && (v == Allowed || v == BaseForPITR) && Anchors(db, b, anchor)
  {
    anchor := b.name;
    if b.kind == Incremental {
      var increments, err := FetchAllIncrements(db, b);
      v := CanDeleteIncrementalChain(db, o, true, b, increments);
      var last := LastDoneIn(increments);
      if last.Some? {
        LastDoneIsOne(Flat(increments));
        anchor := last.value.name;
      }
    } else {
      v := CanDeleteBackup(db, o, true, b);
    }
  }

  lemma {:induction false} LastDoneIsOne(bs: seq<Meta>)
    ensures LastDoneOf(bs).Some? ==> LastDoneOf(bs).value in bs && LastDoneOf(bs).value.status == Done
    decreases |bs|
  {
    if bs != [] {
      LastDoneIsOne(bs[..|bs| - 1]);
      assert bs == bs[..|bs| - 1] + [bs[|bs| - 1]];
    }
  }

  /** Among the first `n` targets, those that would be refused have an anchor. */
  ghost predicate CheckedUpTo(
    db: seq<Meta>, o: Oplog, bs: seq<Meta>, targets: seq<string>, n: nat, anchors: seq<string>)
    requires n <= |targets|
  {
    forall i, b :: 0 <= i < n && b in bs && b.name == targets[i] ==>
      IsVerdict(db, o, b, Allowed) || exists a :: a in anchors && Anchors(db, b, a)
  }

  /** Asks for every target what its deletion would be answered, and keeps what would be refused. */
  method ApplyPITRDeleteChecks(report: Report, db: seq<Meta>, o: Oplog, bs: seq<Meta>) returns (ok: bool)
    requires Proper(bs) && Proper(db) && (forall b :: b in bs ==> b in db) && report.Settled(bs)
    modifies report`keepReasons, report`backupsKept, report`backupsPurged, report`deleteTargets
    ensures ok && report.Settled(bs) && KeptNames(old(report.keepReasons)) <= KeptNames(report.keepReasons)
    ensures ClosedDown(db, bs) ==> NoneRefused(db, o, bs, report.deleteTargets)
  {
    ok := true;
    ghost var kept := KeptNames(report.keepReasons);
    var targets := report.deleteTargets;
    var anchors: seq<string> := [];
    for i := 0 to |targets|
      invariant unchanged(report) && CheckedUpTo(db, o, bs, targets, i, anchors)
    {
      var b := FindByName(bs, targets[i]);
      TargetIsThere(bs, kept, targets[i]);
      ListsHold(bs, kept, b.value);
      var v, anchor := CheckTarget(db, o, b.value);
      OneMoreChecked(db, o, bs, targets, i, anchors, b.value, v, anchor);
      if v != Allowed {
        anchors := anchors + [anchor];
      }
    }
    if |anchors| == 0 {
      NoAnchorsNoneRefused(db, o, bs, targets);
      return;
    }
    report.ProtectPITRAnchors(anchors, bs);
    if ClosedDown(db, bs) {
      AnchorsHold(db, o, bs, kept, targets, anchors, KeptNames(report.keepReasons));
    }
  }

  ghost predicate NoneRefused(db: seq<Meta>, o: Oplog, bs: seq<Meta>, targets: seq<string>) {
    forall b :: b in bs && b.name in targets ==> IsVerdict(db, o, b, Allowed)
  }

  lemma {:induction false} TargetIsThere(bs: seq<Meta>, kept: set<string>, t: string)
    requires t in TargetList(bs, kept)
    ensures exists b :: b in bs && b.name == t
  {
    ListsAreNames(bs, kept, t);
  }

  lemma OneMoreChecked(
    db: seq<Meta>, o: Oplog, bs: seq<Meta>, targets: seq<string>, n: nat, anchors: seq<string>,
    b: Meta, v: Verdict, anchor: string)
    requires Proper(bs) && n < |targets| && CheckedUpTo(db, o, bs, targets, n, anchors)
    requires b in bs && b.name == targets[n] && IsVerdict(db, o, b, v) && Anchors(db, b, anchor)
    ensures CheckedUpTo(db, o, bs, targets, n + 1, if v == Allowed then anchors else anchors + [anchor])
  {
    var more := anchors + [anchor];
    assert anchor in more && forall a :: a in anchors ==> a in more;
    forall i, x | 0 <= i < n + 1 && x in bs && x.name == targets[i]
      ensures IsVerdict(db, o, x, Allowed) ||
              exists a :: a in (if v == Allowed then anchors else more) && Anchors(db, x, a)
    {
      if i == n {
        SameName(bs, x, b);
      }
    }
  }

  lemma NoAnchorsNoneRefused(db: seq<Meta>, o: Oplog, bs: seq<Meta>, targets: seq<string>)
    requires CheckedUpTo(db, o, bs, targets, |targets|, [])
    ensures NoneRefused(db, o, bs, targets)
  {
    forall b | b in bs && b.name in targets ensures IsVerdict(db, o, b, Allowed) {
      var i :| 0 <= i < |targets| && targets[i] == b.name;
    }
  }

  /** Keeping the anchors takes every target that would be refused off the list. */
  lemma AnchorsHold(
    db: seq<Meta>, o: Oplog, bs: seq<Meta>, kept: set<string>, targets: seq<string>, anchors: seq<string>,
    kept': set<string>)
    requires Proper(bs) && Proper(db) && ClosedDown(db, bs) && targets == TargetList(bs, kept)
    requires CheckedUpTo(db, o, bs, targets, |targets|, anchors)
    requires WithChains(bs, kept + NamesOf(anchors), kept') && ChainsWhole(bs, kept')
    ensures NoneRefused(db, o, bs, TargetList(bs, kept'))
  {
    forall b | b in bs && b.name in TargetList(bs, kept') ensures IsVerdict(db, o, b, Allowed) {
      ListsHold(bs, kept', b);
      ListsHold(bs, kept, b);
      var i :| 0 <= i < |targets| && targets[i] == b.name;
      if a :| a in anchors && Anchors(db, b, a) {
        AnchorKeeps(db, bs, kept', b, a);
      }
    }
  }

  lemma AnchorKeeps(db: seq<Meta>, bs: seq<Meta>, kept: set<string>, b: Meta, a: string)
    requires Proper(bs) && Proper(db) && ClosedDown(db, bs) && ChainsWhole(bs, kept)
    requires b in bs && IsEntryPoint(b) && !IsRunning(b) && Anchors(db, b, a) && a in kept
    ensures b.name in kept
  {
    if a != b.name {
      var x :| x in db && x.status == Done && x.name == a && InUnit(db, b.name, a);
      var path: seq<Meta> :| LeadsTo(db, path, b.name, a);
      SameName(db, path[0], b);
      SameName(db, path[|path| - 1], x);
      PathIsSelected(db, bs, path);
      PathIsDistinct(bs, path);
      ByNameFinds(bs);
      PathHasBase(bs, path, |path| - 1, {});
      PathStartsAtBase(bs, bs, path, x);
      assert InChain(bs, x, b) && InChain(bs, b, b);
      ChainsShareFate(bs, kept, x, b, b);
    }
  }

  lemma {:induction false} PathIsSelected(db: seq<Meta>, bs: seq<Meta>, path: seq<Meta>)
    requires ClosedDown(db, bs) && IsPath(db, path) && path[0] in bs
    ensures IsPath(bs, path)
    decreases |path|
  {
    if |path| > 1 {
      var before := path[..|path| - 1];
      PathIsSelected(db, bs, before);
      assert before[|before| - 1] in bs && path[|path| - 1] in db;
      forall i | 0 <= i < |path| ensures path[i] in bs {
        assert i < |before| ==> before[i] in bs && before[i] == path[i];
      }
    }
  }

  /** The search for the base goes up the path and meets nothing twice. */
  lemma {:induction false} PathHasBase(bs: seq<Meta>, path: seq<Meta>, i: nat, seen: set<string>)
    requires Proper(bs) && IsPath(bs, path) && Distinct(path) && i < |path| && path[0].kind == Incremental
    requires forall k :: 0 <= k <= i ==> path[k].name !in seen
    ensures path[i].kind == Incremental && path[i].name in ByName(bs) && Indexes(ByName(bs))
    ensures FindBase(path[i], ByName(bs), seen).Some?
    decreases i
  {
    ByNameFinds(bs);
    var b := path[i];
    assert b in bs && b.name != "";
    if i > 0 {
      assert path[i - 1] in bs && b.src == path[i - 1].name != "";
      forall k | 0 <= k < i ensures path[k].name !in seen + {b.name} {
        if path[k].name == b.name {
          SameName(bs, path[k], b);
        }
      }
      PathHasBase(bs, path, i - 1, seen + {b.name});
    }
  }

  // ---------------------------------------------------------------------------------------------
  // A report keeps the newest base
  // ---------------------------------------------------------------------------------------------

  /** No base is purged that is the newest of all and required, seen from the newest older survivor. */
  ghost predicate NoRequiredBaseGoes(bs: seq<Meta>, purged: seq<string>, o: Oplog) {
    forall b, prev ::
      && b in bs && IsPurgedSnapshot(b, purged)
      && (forall x :: x in bs && IsPurgedSnapshot(x, purged) ==> AtMost(x.lastWriteTS, b.lastWriteTS))
      && !HasNewerSurvivor(bs, purged, b.lastWriteTS)
      && IsPrevious(bs, |bs|, purged, b.lastWriteTS, prev) ==>
        !IsRequiredPITRBase(prev, LinesBetween(o, prev, b.lastWriteTS))
  }

  method ApplyPITRProtection(report: Report, o: Oplog, bs: seq<Meta>) returns (ok: bool)
    requires Proper(bs) && report.Settled(bs)
    modifies report`keepReasons, report`backupsKept, report`backupsPurged, report`deleteTargets
    ensures ok && report.Settled(bs) && KeptNames(old(report.keepReasons)) <= KeptNames(report.keepReasons)
    ensures NoRequiredBaseGoes(bs, report.backupsPurged, o)
  {
    ok := true;
    ghost var kept := KeptNames(report.keepReasons);
    ghost var purged := report.backupsPurged;
    var r := report.FindPITRBaseCandidates(bs);
    NoErrors(bs, kept, r);
    if |r.c.anchors| == 0 {
      NoCandidatesNoneGoes(bs, purged, r.c, o);
      return;
    }
    var timelines := LinesBetween(o, r.c.previousRestoreTime, r.c.restoreTime);
    if !IsRequiredPITRBase(r.c.previousRestoreTime, timelines) {
      NotRequiredMayGo(bs, purged, r.c, o);
      return;
    }
    report.ProtectPITRAnchors(r.c.anchors, bs);
    AnchorsStay(bs, kept, KeptNames(report.keepReasons), r.c, o);
  }

  /** The two errors of the search for candidates do not occur. */
  lemma NoErrors(bs: seq<Meta>, kept: set<string>, r: Found)
    requires Proper(bs) && ChainsWhole(bs, kept)
    requires r.NoBaseFor? ==>
      exists b :: b in bs && b.name in PurgedList(bs, kept) && b.kind == Incremental && BaseOf(bs, b).None?
    requires r.TargetNotFound? ==>
      exists b :: b in bs && b.name in PurgedList(bs, kept) && TargetOf(bs, b) == Some(r.name)
                  && r.name !in TargetList(bs, kept)
    ensures r.Ok?
  {
    if r.NoBaseFor? {
      var b :| b in bs && b.name in PurgedList(bs, kept) && b.kind == Incremental && BaseOf(bs, b).None?;
      ErrorsAreUnreachable(bs, kept, b);
    }
    if r.TargetNotFound? {
      var b :|
        b in bs && b.name in PurgedList(bs, kept) && TargetOf(bs, b) == Some(r.name) && r.name !in TargetList(bs, kept);
      ErrorsAreUnreachable(bs, kept, b);
    }
  }

  lemma NoCandidatesNoneGoes(bs: seq<Meta>, purged: seq<string>, c: Candidates, o: Oplog)
    requires AreCandidates(bs, purged, c) && c.anchors == []
    ensures NoRequiredBaseGoes(bs, purged, o)
  {
    forall b | b in bs && IsPurgedSnapshot(b, purged) ensures HasNewerSurvivor(bs, purged, b.lastWriteTS) {
      var d :| d in bs && IsMainPITRBaseSnapshot(d) && d.name !in purged && Before(b.lastWriteTS, d.lastWriteTS);
      var j :| 0 <= j < |bs| && bs[j] == d;
    }
  }

  lemma NotRequiredMayGo(bs: seq<Meta>, purged: seq<string>, c: Candidates, o: Oplog)
    requires AreCandidates(bs, purged, c) && c.anchors != []
    requires !IsRequiredPITRBase(c.previousRestoreTime, LinesBetween(o, c.previousRestoreTime, c.restoreTime))
    ensures NoRequiredBaseGoes(bs, purged, o)
  {
    forall b, prev |
      && b in bs && IsPurgedSnapshot(b, purged)
      && (forall x :: x in bs && IsPurgedSnapshot(x, purged) ==> AtMost(x.lastWriteTS, b.lastWriteTS))
      && !HasNewerSurvivor(bs, purged, b.lastWriteTS)
      && IsPrevious(bs, |bs|, purged, b.lastWriteTS, prev)
      ensures !IsRequiredPITRBase(prev, LinesBetween(o, prev, b.lastWriteTS))
    {
      assert c.anchors[0] in c.anchors;
      var x :| x in bs && x.name == c.anchors[0];
      assert b.lastWriteTS == c.restoreTime;
      OnePrevious(bs, purged, c.restoreTime, prev, c.previousRestoreTime);
    }
  }

  lemma OnePrevious(bs: seq<Meta>, purged: seq<string>, w: Timestamp, a: Timestamp, b: Timestamp)
    requires IsPrevious(bs, |bs|, purged, w, a) && IsPrevious(bs, |bs|, purged, w, b)
    ensures a == b
  {
  }

  lemma AnchorsStay(bs: seq<Meta>, kept: set<string>, kept': set<string>, c: Candidates, o: Oplog)
    requires Proper(bs) && AreCandidates(bs, PurgedList(bs, kept), c) && c.anchors != []
    requires WithChains(bs, kept + NamesOf(c.anchors), kept')
    ensures NoRequiredBaseGoes(bs, PurgedList(bs, kept'), o)
  {
    var purged, purged' := PurgedList(bs, kept), PurgedList(bs, kept');
    assert c.anchors[0] in c.anchors;
    var x :| x in bs && x.name == c.anchors[0];
    ListsHold(bs, kept', x);
    forall b | b in bs && IsPurgedSnapshot(b, purged') ensures HasNewerSurvivor(bs, purged', b.lastWriteTS) {
      ListsHold(bs, kept', b);
      ListsHold(bs, kept, b);
      assert b.name !in c.anchors;
      var j :| 0 <= j < |bs| && bs[j] == x;
      assert IsSurvivingSnapshot(bs[j], purged') && Before(b.lastWriteTS, bs[j].lastWriteTS);
    }
  }

  // ---------------------------------------------------------------------------------------------
  // The whole report, up to the guard of the minimum
  // ---------------------------------------------------------------------------------------------

  lemma NothingProposedNothingGoes(bs: seq<Meta>, kept: set<string>, o: Oplog)
    requires Proper(bs) && ChainsWhole(bs, kept) && TargetList(bs, kept) == []
    ensures NoRequiredBaseGoes(bs, PurgedList(bs, kept), o)
  {
    forall b | b in bs ensures b.name !in PurgedList(bs, kept) {
      if b.name in PurgedList(bs, kept) {
        ErrorsAreUnreachable(bs, kept, b);
      }
    }
  }

  /** The policy, then, while PITR runs, the checks of every target and on the main storage the protection
      of the newest base. Neither the policy's own decisions nor whole chains are given up on the way. */
  method BuildReport(p: Policy, clock: Clock, db: seq<Meta>, o: Oplog, bs: seq<Meta>, pitrOn: bool, isMain: bool)
    returns (report: Report, ok: bool)
    requires Proper(bs) && Proper(db) && forall b :: b in bs ==> b in db
    ensures fresh(report) && report.enabled == p.enabled && report.minKeep == p.minKeep && !report.aborted
    ensures ok && report.Settled(bs)
    ensures p.enabled ==> PolicyKeeps(p, clock, bs) <= KeptNames(report.keepReasons)
    ensures !p.enabled ==> report.deleteTargets == []
    ensures pitrOn && ClosedDown(db, bs) ==> NoneRefused(db, o, bs, report.deleteTargets)
    ensures pitrOn && isMain ==> NoRequiredBaseGoes(bs, report.backupsPurged, o)
  {
    ok := true;
    report := EvaluateRetentionPolicy(p, clock, bs);
    if !pitrOn {
      return;
    }
    if |report.deleteTargets| == 0 {
      NothingProposedNothingGoes(bs, KeptNames(report.keepReasons), o);
      return;
    }
    ok := ApplyPITRDeleteChecks(report, db, o, bs);
    ghost var kept := KeptNames(report.keepReasons);
    if !isMain {
      return;
    }
    if |report.deleteTargets| == 0 {
      NothingProposedNothingGoes(bs, KeptNames(report.keepReasons), o);
      return;
    }
    ok := ApplyPITRProtection(report, o, bs);
    FewerTargets(db, o, bs, kept, KeptNames(report.keepReasons));
  }

  lemma FewerTargets(db: seq<Meta>, o: Oplog, bs: seq<Meta>, kept: set<string>, kept': set<string>)
    requires Proper(bs) && kept <= kept'
    ensures NoneRefused(db, o, bs, TargetList(bs, kept)) ==> NoneRefused(db, o, bs, TargetList(bs, kept'))
  {
    ListsMove(bs, kept, kept');
  }
}
