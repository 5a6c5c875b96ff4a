/** PITR timelines (pbm/oplog/chunk.go): how saved oplog chunks become ranges of seconds, how the
    ranges of several replica sets are intersected, and when a range is covered without a gap.

    A timeline is read as the half-open range of seconds [start, end). */
module Timelines {
  import opened Timestamps

  datatype OplogChunk =
    OplogChunk(rs: string, fname: string, startTS: Timestamp, endTS: Timestamp, size: int)

  datatype Timeline = Timeline(start: uint32, end: uint32, size: int)

  const ZeroTimeline := Timeline(0, 0, 0)

  predicate Within(line: Timeline, s: int) {
    line.start <= s < line.end
  }

  /** Second `s` lies in one of the timelines. */
  predicate Covers(lines: seq<Timeline>, s: int) {
    exists line :: line in lines && Within(line, s)
  }

  predicate Holds(c: OplogChunk, s: int) {
    c.startTS.t <= s < c.endTS.t
  }

  /** Second `s` lies in one of the chunks. */
  predicate Held(chunks: seq<OplogChunk>, s: int) {
    exists c :: c in chunks && Holds(c, s)
  }

  // ---------------------------------------------------------------------------------------------
  // Chunks to timelines
  // ---------------------------------------------------------------------------------------------

  datatype Scan = Scan(tlines: seq<Timeline>, tl: Timeline, prevEnd: Timestamp)

  /** One pass of the loop: a chunk that starts after the previous end closes the open timeline. */
  function ScanStep(s: Scan, c: OplogChunk): Scan {
    var closed := s.prevEnd.t != 0 && Before(s.prevEnd, c.startTS);
    var tlines := if closed then s.tlines + [s.tl] else s.tlines;
    var tl := if closed then ZeroTimeline else s.tl;
    Scan(tlines,
         Timeline(if tl.start == 0 then c.startTS.t else tl.start, c.endTS.t, tl.size + c.size),
         c.endTS)
  }

  function ScanChunks(chunks: seq<OplogChunk>): Scan {
    if chunks == [] then Scan([], ZeroTimeline, ZeroTS)
    else ScanStep(ScanChunks(chunks[..|chunks| - 1]), chunks[|chunks| - 1])
  }

  function TimelinesOf(chunks: seq<OplogChunk>): seq<Timeline> {
    var s := ScanChunks(chunks);
    s.tlines + [s.tl]
  }

  method GetTimelines(chunks: seq<OplogChunk>) returns (tlines: seq<Timeline>)
    ensures tlines == TimelinesOf(chunks)
  {
    var tl := ZeroTimeline;
    var prevEnd := ZeroTS;
    tlines := [];
    for i := 0 to |chunks|
      invariant Scan(tlines, tl, prevEnd) == ScanChunks(chunks[..i])
    {
      var s := chunks[i];
      assert chunks[..i + 1][..i] == chunks[..i];
      if prevEnd.t != 0 && Before(prevEnd, s.startTS) {
        tlines := tlines + [tl];
        tl := ZeroTimeline;
      }
      if tl.start == 0 {
        tl := tl.(start := s.startTS.t);
      }
      prevEnd := s.endTS;
      tl := tl.(end := s.endTS.t, size := tl.size + s.size);
    }
    assert chunks[..|chunks|] == chunks;
    tlines := tlines + [tl];
  }

  /** What saved chunks satisfy: real start times, and no chunk ends before it starts. */
  predicate ProperChunk(c: OplogChunk) {
    c.startTS.t > 0 && AtMost(c.startTS, c.endTS)
  }

  predicate Proper(chunks: seq<OplogChunk>) {
    forall c :: c in chunks ==> ProperChunk(c)
  }

  predicate StartSorted(chunks: seq<OplogChunk>) {
    forall i, j :: 0 <= i <= j < |chunks| ==> AtMost(chunks[i].startTS, chunks[j].startTS)
  }

  predicate EndSorted(chunks: seq<OplogChunk>) {
    forall i, j :: 0 <= i <= j < |chunks| ==> AtMost(chunks[i].endTS, chunks[j].endTS)
  }

  function TotalSize(chunks: seq<OplogChunk>): int {
    if chunks == [] then 0 else TotalSize(chunks[..|chunks| - 1]) + chunks[|chunks| - 1].size
  }

  function TotalLineSize(lines: seq<Timeline>): int {
    if lines == [] then 0 else TotalLineSize(lines[..|lines| - 1]) + lines[|lines| - 1].size
  }

  /** Chunk `k` starts no later than its predecessor ends: no oplog entry is missing between them. */
  predicate Linked(chunks: seq<OplogChunk>, k: int)
    requires 0 < k < |chunks|
  {
    AtMost(chunks[k].startTS, chunks[k - 1].endTS)
  }

  /** Chunks i to j (exclusive) form a non-empty chain without a missing entry. */
  predicate Unbroken(chunks: seq<OplogChunk>, i: int, j: int) {
    0 <= i < j <= |chunks| && forall k :: i < k < j ==> Linked(chunks, k)
  }

  /** Shape of the open timeline: it ends with the last chunk and, for sorted chunks, starts no
      later than that chunk does. */
  lemma {:induction false} OpenLine(chunks: seq<OplogChunk>)
    requires Proper(chunks) && chunks != []
    ensures var s, last := ScanChunks(chunks), chunks[|chunks| - 1];
      s.prevEnd == last.endTS && s.prevEnd.t > 0 && s.tl.end == last.endTS.t && s.tl.start > 0
    ensures StartSorted(chunks) ==> ScanChunks(chunks).tl.start <= chunks[|chunks| - 1].startTS.t
    decreases |chunks|
  {
    var n := |chunks|;
    assert ProperChunk(chunks[n - 1]);
    if n > 1 {
      var before := chunks[..n - 1];
      assert forall c :: c in before ==> c in chunks;
      assert before[n - 2] == chunks[n - 2];
      OpenLine(before);
    }
  }

  /** No timeline ever reports a second that no chunk holds. */
  lemma {:induction false} TimelinesAreSound(chunks: seq<OplogChunk>, line: Timeline, s: int)
    requires Proper(chunks) && chunks != []
    requires line in TimelinesOf(chunks) && Within(line, s)
    ensures Held(chunks, s)
    decreases |chunks|
  {
    var n := |chunks|;
    var before, c := chunks[..n - 1], chunks[n - 1];
    assert chunks == before + [c];
    assert ProperChunk(c);
    if n == 1 {
      assert ScanChunks(before) == Scan([], ZeroTimeline, ZeroTS);
      assert Holds(c, s);
    } else if !Holds(c, s) {
      assert forall d :: d in before ==> d in chunks;
      OpenLine(before);
      var prior := ScanChunks(before);
      var line' := if line in prior.tlines then line else prior.tl;
      assert line' in TimelinesOf(before);
      TimelinesAreSound(before, line', s);
      var d :| d in before && Holds(d, s);
      assert d in chunks;
    }
  }

  /** A timeline is an unbroken chain of consecutive chunks, from its first start to its last end. */
  lemma {:induction false} LineIsChain(chunks: seq<OplogChunk>, line: Timeline) returns (i: nat, j: nat)
    requires Proper(chunks) && chunks != [] && line in TimelinesOf(chunks)
    ensures Unbroken(chunks, i, j)
    ensures line.start == chunks[i].startTS.t && line.end == chunks[j - 1].endTS.t
    decreases |chunks|
  {
    var n := |chunks|;
    if line in ScanChunks(chunks).tlines {
      var before := chunks[..n - 1];
      assert forall d :: d in before ==> d in chunks;
      assert n == 1 ==> ScanChunks(before) == Scan([], ZeroTimeline, ZeroTS);
      assert line in TimelinesOf(before);
      i, j := LineIsChain(before, line);
      LinkedInPrefix(chunks, i, j);
    } else {
      OpenLine(chunks);
      i := OpenLineIsChain(chunks);
      j := n;
    }
  }

  lemma LinkedInPrefix(chunks: seq<OplogChunk>, i: nat, j: nat)
    requires chunks != [] && Unbroken(chunks[..|chunks| - 1], i, j)
    ensures Unbroken(chunks, i, j)
  {
    forall k | i < k < j ensures Linked(chunks, k) {
      assert Linked(chunks[..|chunks| - 1], k);
    }
  }

  lemma {:induction false} OpenLineIsChain(chunks: seq<OplogChunk>) returns (i: nat)
    requires Proper(chunks) && chunks != []
    ensures Unbroken(chunks, i, |chunks|)
    ensures ScanChunks(chunks).tl.start == chunks[i].startTS.t
    decreases |chunks|
  {
    var n := |chunks|;
    var before, c := chunks[..n - 1], chunks[n - 1];
    assert ProperChunk(c);
    i := n - 1;
    if n == 1 {
      assert ScanChunks(before) == Scan([], ZeroTimeline, ZeroTS);
    } else {
      assert forall d :: d in before ==> d in chunks;
      OpenLine(before);
      if !Before(ScanChunks(before).prevEnd, c.startTS) {
        i := OpenLineIsChain(before);
        LinkedInPrefix(chunks, i, n - 1);
        assert Linked(chunks, n - 1);
      }
    }
  }

  /** When starts and ends both come in order, every held second is reported too. */
  lemma {:induction false} TimelinesAreComplete(chunks: seq<OplogChunk>, s: int)
    requires Proper(chunks) && StartSorted(chunks) && EndSorted(chunks) && Held(chunks, s)
    ensures Covers(TimelinesOf(chunks), s)
    decreases |chunks|
  {
    var n := |chunks|;
    var before, c := chunks[..n - 1], chunks[n - 1];
    assert chunks == before + [c];
    OpenLine(chunks);
    var lines, open := TimelinesOf(chunks), ScanChunks(chunks).tl;
    assert open in lines;
    if Holds(c, s) {
      assert Within(open, s);
    } else {
      assert Held(before, s);
      assert before[n - 2] == chunks[n - 2] && AtMost(chunks[n - 2].endTS, c.endTS);
      OpenLine(before);
      TimelinesAreComplete(before, s);
      var line :| line in TimelinesOf(before) && Within(line, s);
      if line !in lines {
        assert Within(open, s);
      }
    }
  }

  /** For chunks in order the timelines report exactly the held seconds. */
  lemma TimelinesAreExact(chunks: seq<OplogChunk>, s: int)
    requires Proper(chunks) && chunks != [] && StartSorted(chunks) && EndSorted(chunks)
    ensures Covers(TimelinesOf(chunks), s) <==> Held(chunks, s)
  {
    if Held(chunks, s) {
      TimelinesAreComplete(chunks, s);
    }
    if line :| line in TimelinesOf(chunks) && Within(line, s) {
      TimelinesAreSound(chunks, line, s);
    }
  }

  // --- when seconds are lost -------------------------------------------------------------------

  /** Chunk `j` begins a new timeline: it starts after its predecessor ends. */
  predicate IsBreak(chunks: seq<OplogChunk>, j: int) {
    0 < j < |chunks| && Before(chunks[j - 1].endTS, chunks[j].startTS)
  }

  /** Up to `bound`, no chunk goes on after the last one has ended. */
  predicate LastEndsLast(chunks: seq<OplogChunk>, bound: int)
    requires chunks != []
  {
    forall c :: c in chunks ==> c.endTS.t <= chunks[|chunks| - 1].endTS.t || bound <= chunks[|chunks| - 1].endTS.t
  }

  /** Wherever a timeline ends, its last chunk ends last of all so far, up to the start of the next. */
  ghost predicate LinesEndLast(chunks: seq<OplogChunk>, bound: int)
    requires chunks != []
  {
    && LastEndsLast(chunks, bound)
    && forall j :: IsBreak(chunks, j) ==> LastEndsLast(chunks[..j], chunks[j].startTS.t)
  }

  ghost predicate NoneLost(chunks: seq<OplogChunk>, bound: int) {
    forall s :: s < bound && Held(chunks, s) ==> Covers(TimelinesOf(chunks), s)
  }

  /** Where the last timeline starts. */
  function RunStart(chunks: seq<OplogChunk>): (i: nat)
    requires chunks != []
    ensures i < |chunks|
  {
    if |chunks| == 1 || IsBreak(chunks, |chunks| - 1) then |chunks| - 1 else RunStart(chunks[..|chunks| - 1])
  }

  lemma {:induction false} RunHasNoBreak(chunks: seq<OplogChunk>)
    requires chunks != []
    ensures var i := RunStart(chunks); (i == 0 || IsBreak(chunks, i)) && forall j :: i < j < |chunks| ==>
      !IsBreak(chunks, j)
    decreases |chunks|
  {
    var n := |chunks|;
    if n > 1 && !IsBreak(chunks, n - 1) {
      var before := chunks[..n - 1];
      RunHasNoBreak(before);
      assert forall j :: 0 < j < n - 1 ==> (IsBreak(before, j) <==> IsBreak(chunks, j));
    }
  }

  lemma {:induction false} LastRun(chunks: seq<OplogChunk>)
    requires Proper(chunks) && chunks != []
    ensures var i, s := RunStart(chunks), ScanChunks(chunks);
      && s.tl.start == chunks[i].startTS.t && s.tl.end == chunks[|chunks| - 1].endTS.t
      && s.prevEnd == chunks[|chunks| - 1].endTS
      && s.tlines == if i == 0 then [] else TimelinesOf(chunks[..i])
    decreases |chunks|
  {
    var n := |chunks|;
    var before, c := chunks[..n - 1], chunks[n - 1];
    assert ProperChunk(c);
    if n > 1 {
      assert forall d :: d in before ==> d in chunks;
      assert before[n - 2] == chunks[n - 2] && ProperChunk(before[n - 2]);
      LastRun(before);
      if !IsBreak(chunks, n - 1) {
        assert before[..RunStart(before)] == chunks[..RunStart(before)];
      }
    } else {
      assert ScanChunks(before) == Scan([], ZeroTimeline, ZeroTS);
    }
  }

  /** From the start of the last timeline on, covered is what lies before its end. */
  lemma {:induction false} CoveredByLast(chunks: seq<OplogChunk>, s: int)
    requires Proper(chunks) && chunks != [] && StartSorted(chunks)
    ensures var i, n := RunStart(chunks), |chunks|;
      Covers(TimelinesOf(chunks), s) <==>
        if chunks[i].startTS.t <= s then s < chunks[n - 1].endTS.t else i > 0 && Covers(TimelinesOf(chunks[..i]), s)
  {
    LastRun(chunks);
    TimelinesAreWellFormed(chunks);
    var lines, sc := TimelinesOf(chunks), ScanChunks(chunks);
    assert lines == sc.tlines + [sc.tl] && lines[|lines| - 1] == sc.tl;
    forall line | line in sc.tlines ensures line.end <= sc.tl.start {
      var k :| 0 <= k < |sc.tlines| && sc.tlines[k] == line;
      assert lines[k].end <= lines[|lines| - 1].start;
    }
    assert Covers(lines, s) <==> Covers(sc.tlines, s) || Within(sc.tl, s);
    assert Covers([], s) == false;
  }

  lemma HeldBefore(chunks: seq<OplogChunk>, i: nat, s: int)
    requires StartSorted(chunks) && i < |chunks| && s < chunks[i].startTS.t
    ensures Held(chunks, s) <==> Held(chunks[..i], s)
  {
    if c :| c in chunks && Holds(c, s) {
      var k :| 0 <= k < |chunks| && chunks[k] == c;
      assert k < i && chunks[..i][k] == c;
    }
  }

  /** In the last timeline. */
  lemma LastRunLoses(chunks: seq<OplogChunk>, bound: int)
    requires Proper(chunks) && chunks != [] && StartSorted(chunks)
    ensures (forall s :: chunks[RunStart(chunks)].startTS.t <= s < bound && Held(chunks, s) ==>
               Covers(TimelinesOf(chunks), s))
            <==> LastEndsLast(chunks, bound)
  {
    var n, i := |chunks|, RunStart(chunks);
    var last := chunks[n - 1];
    assert ProperChunk(last) && AtMost(chunks[i].startTS, last.startTS);
    CoveredByLast(chunks, last.endTS.t);
    forall s | LastEndsLast(chunks, bound) && chunks[i].startTS.t <= s < bound && Held(chunks, s)
      ensures Covers(TimelinesOf(chunks), s)
    {
      CoveredByLast(chunks, s);
    }
    if c :| c in chunks && c.endTS.t > last.endTS.t && bound > last.endTS.t {
      var k :| 0 <= k < n && chunks[k] == c;
      assert AtMost(chunks[k].startTS, last.startTS);
      assert Holds(c, last.endTS.t);
    }
  }

  /** Of the seconds before `bound`, none is lost exactly if each timeline's last chunk ends last. */
  lemma {:induction false} NoneLostExactly(chunks: seq<OplogChunk>, bound: int)
    requires Proper(chunks) && chunks != [] && StartSorted(chunks) && chunks[RunStart(chunks)].startTS.t <= bound
    ensures NoneLost(chunks, bound) <==> LinesEndLast(chunks, bound)
    decreases |chunks|
  {
    var i := RunStart(chunks);
    RunHasNoBreak(chunks);
    LastRunLoses(chunks, bound);
    forall s | s < chunks[i].startTS.t
      ensures Held(chunks, s) <==> Held(chunks[..i], s)
      ensures Covers(TimelinesOf(chunks), s) <==> i > 0 && Covers(TimelinesOf(chunks[..i]), s)
    {
      HeldBefore(chunks, i, s);
      CoveredByLast(chunks, s);
    }
    if i > 0 {
      var before := chunks[..i];
      assert forall c :: c in before ==> c in chunks;
      assert AtMost(before[RunStart(before)].startTS, chunks[i].startTS);
      NoneLostExactly(before, chunks[i].startTS.t);
      BreaksBefore(chunks, i);
    }
  }

  lemma BreaksBefore(chunks: seq<OplogChunk>, i: nat)
    requires 0 < i < |chunks| && IsBreak(chunks, i) && forall j :: i < j < |chunks| ==> !IsBreak(chunks, j)
    ensures (forall j :: IsBreak(chunks, j) ==> LastEndsLast(chunks[..j], chunks[j].startTS.t))
            <==> LinesEndLast(chunks[..i], chunks[i].startTS.t)
  {
    var before := chunks[..i];
    forall j | IsBreak(before, j) || (IsBreak(chunks, j) && j < i)
      ensures IsBreak(before, j) && IsBreak(chunks, j) && before[..j] == chunks[..j] && before[j] == chunks[j]
    {
    }
  }

  /** For chunks in the order of their starts: the timelines lose no second exactly if, wherever one of
      them ends, its last chunk ends last of all chunks so far, or not before the next one starts. */
  lemma NoSecondLostExactly(chunks: seq<OplogChunk>)
    requires Proper(chunks) && chunks != [] && StartSorted(chunks)
    ensures (forall s :: Held(chunks, s) ==> Covers(TimelinesOf(chunks), s)) <==> LinesEndLast(chunks, 0x1_0000_0000)
  {
    NoneLostExactly(chunks, 0x1_0000_0000);
    forall s | Held(chunks, s) ensures s < 0x1_0000_0000 {
    }
  }

  /** Ends out of order lose seconds: a timeline stops at the end of its last chunk. */
  lemma OutOfOrderEndsLoseSeconds()
    ensures exists chunks, s ::
      Proper(chunks) && StartSorted(chunks) && Held(chunks, s) && !Covers(TimelinesOf(chunks), s)
  {
    var a := OplogChunk("rs", "", Timestamp(1, 0), Timestamp(9, 0), 0);
    var b := OplogChunk("rs", "", Timestamp(2, 0), Timestamp(5, 0), 0);
    var chunks := [a, b];
    assert chunks[..1] == [a] && [a][..0] == [];
    assert ScanChunks([a]) == ScanStep(ScanChunks([]), a);
    assert TimelinesOf(chunks) == [Timeline(1, 5, 0)];
    assert a in chunks && Holds(a, 7);
    assert Proper(chunks) && StartSorted(chunks) && Held(chunks, 7) && !Covers(TimelinesOf(chunks), 7);
  }

  /** Sizes are conserved for every chunk list. */
  lemma {:induction false} TimelinesConserveSize(chunks: seq<OplogChunk>)
    ensures TotalLineSize(TimelinesOf(chunks)) == TotalSize(chunks)
    decreases |chunks|
  {
    var lines := TimelinesOf(chunks);
    var s := ScanChunks(chunks);
    assert lines[..|lines| - 1] == s.tlines;
    if chunks != [] {
      var before := chunks[..|chunks| - 1];
      TimelinesConserveSize(before);
      var s' := ScanChunks(before);
      assert TimelinesOf(before)[..|s'.tlines|] == s'.tlines;
      if s.tlines != s'.tlines {
        assert s.tlines[..|s.tlines| - 1] == s'.tlines;
      }
    }
  }

  // ---------------------------------------------------------------------------------------------
  // Intersecting the timelines of several sets
  // ---------------------------------------------------------------------------------------------

  predicate ProperLine(line: Timeline) {
    0 < line.start <= line.end
  }

  /** Sorted, not starting from 0, no line inverted: what the merge presumes. */
  predicate WellFormed(lines: seq<Timeline>) {
    && (forall line :: line in lines ==> ProperLine(line))
    && (forall i, j :: 0 <= i < j < |lines| ==> lines[i].end <= lines[j].start)
  }

  predicate AllWellFormed(sets: seq<seq<Timeline>>) {
    forall lines: seq<Timeline> :: lines in sets ==> WellFormed(lines)
  }

  lemma AppendWellFormed(lines: seq<Timeline>, line: Timeline)
    requires WellFormed(lines) && ProperLine(line)
    requires lines != [] ==> lines[|lines| - 1].end <= line.start
    ensures WellFormed(lines + [line])
  {
    var n := |lines|;
    if n > 0 {
      assert ProperLine(lines[n - 1]);
      assert forall i :: 0 <= i < n - 1 ==> lines[i].end <= lines[n - 1].start;
    }
  }

  /** Timelines of chunks sorted by start time are what the merge presumes. */
  lemma {:induction false} TimelinesAreWellFormed(chunks: seq<OplogChunk>)
    requires Proper(chunks) && chunks != [] && StartSorted(chunks)
    ensures WellFormed(TimelinesOf(chunks))
    decreases |chunks|
  {
    var n := |chunks|;
    var before, c := chunks[..n - 1], chunks[n - 1];
    var prior, next := ScanChunks(before), ScanChunks(chunks);
    OpenLine(chunks);
    assert ProperChunk(c) && ProperLine(next.tl);
    if n > 1 {
      assert forall d :: d in before ==> d in chunks;
      assert before[n - 2] == chunks[n - 2];
      OpenLine(before);
      TimelinesAreWellFormed(before);
      var lines' := TimelinesOf(before);
      assert prior.tlines == lines'[..|lines'| - 1];
      assert prior.tl == lines'[|lines'| - 1];
      if next.tlines != prior.tlines {
        assert next.tlines == lines';
      }
      AppendWellFormed(next.tlines, next.tl);
    } else {
      assert prior == Scan([], ZeroTimeline, ZeroTS);
    }
  }

  datatype Gap = Gap(s: uint32, e: uint32)

  predicate InGap(g: Gap, x: int) {
    g.s <= x < g.e
  }

  predicate InAnyGap(gs: seq<Gap>, x: int) {
    exists g :: g in gs && InGap(g, x)
  }

  predicate GapLess(a: Gap, b: Gap) {
    a.s < b.s || (a.s == b.s && a.e < b.e)
  }

  /** The gaps between consecutive lines of one set. */
  function GapsIn(lines: seq<Timeline>): seq<Gap> {
    if |lines| < 2 then []
    else GapsIn(lines[..|lines| - 1]) + [Gap(lines[|lines| - 2].end, lines[|lines| - 1].start)]
  }

  function AllGaps(sets: seq<seq<Timeline>>): seq<Gap> {
    if sets == [] then [] else AllGaps(sets[..|sets| - 1]) + GapsIn(sets[|sets| - 1])
  }

  function LaterStart(start: uint32, lines: seq<Timeline>): uint32 {
    if lines != [] && lines[0].start > start then lines[0].start else start
  }

  function EarlierEnd(end: uint32, lines: seq<Timeline>): uint32 {
    if lines != [] && (end == 0 || lines[|lines| - 1].end < end) then lines[|lines| - 1].end else end
  }

  /** Latest first start of any non-empty set, 0 if there is none. */
  function LatestStart(sets: seq<seq<Timeline>>): uint32 {
    if sets == [] then 0 else LaterStart(LatestStart(sets[..|sets| - 1]), sets[|sets| - 1])
  }

  /** Earliest last end of any non-empty set, 0 if there is none. */
  function EarliestEnd(sets: seq<seq<Timeline>>): uint32 {
    if sets == [] then 0 else EarlierEnd(EarliestEnd(sets[..|sets| - 1]), sets[|sets| - 1])
  }

  predicate GapSorted(gs: seq<Gap>) {
    forall i, j :: 0 <= i < j < |gs| ==> !GapLess(gs[j], gs[i])
  }

  function InsertGap(g: Gap, gs: seq<Gap>): seq<Gap> {
    if gs == [] || !GapLess(gs[0], g) then [g] + gs else [gs[0]] + InsertGap(g, gs[1..])
  }

  /** The library sort, by its result. */
  function SortGaps(gs: seq<Gap>): seq<Gap> {
    if gs == [] then [] else InsertGap(gs[0], SortGaps(gs[1..]))
  }

  lemma {:induction false} InsertGapSorts(g: Gap, gs: seq<Gap>)
    requires GapSorted(gs)
    ensures GapSorted(InsertGap(g, gs)) && multiset(InsertGap(g, gs)) == multiset(gs) + multiset{g}
    decreases |gs|
  {
    if gs == [] || !GapLess(gs[0], g) {
      assert forall j :: 0 < j < |gs| ==> !GapLess(gs[j], gs[0]);
    } else {
      var tail := InsertGap(g, gs[1..]);
      InsertGapSorts(g, gs[1..]);
      assert gs == [gs[0]] + gs[1..];
      forall h | h in tail ensures !GapLess(h, gs[0]) {
        assert h in multiset(tail);
        if h != g {
          assert h in multiset(gs[1..]);
          var j :| 0 <= j < |gs[1..]| && gs[1..][j] == h;
          assert gs[j + 1] == h;
        }
      }
    }
  }

  /** The sorted list is the sorted arrangement of the gaps. */
  lemma {:induction false} SortGapsSorts(gs: seq<Gap>)
    ensures GapSorted(SortGaps(gs)) && multiset(SortGaps(gs)) == multiset(gs)
    ensures forall g :: g in SortGaps(gs) <==> g in gs
    ensures SortGaps(gs) == [] <==> gs == []
    decreases |gs|
  {
    if gs != [] {
      SortGapsSorts(gs[1..]);
      InsertGapSorts(gs[0], SortGaps(gs[1..]));
      assert gs == [gs[0]] + gs[1..];
      assert forall g :: g in SortGaps(gs) <==> g in multiset(SortGaps(gs));
      assert forall g :: g in gs <==> g in multiset(gs);
    }
  }

  /** What one gap of the sorted list does to the merged gaps. */
  function Melt(g: Gap, start: uint32, merged: seq<Gap>): seq<Gap> {
    var n := |merged|;
    if g.e <= start then merged
    else if n == 0 then if g.s > 0 then [g] else []
    else if g.s > merged[n - 1].e then merged + [g]
    else if g.e > merged[n - 1].e then merged[..n - 1] + [merged[n - 1].(e := g.e)]
    else merged
  }

  /** Overlapping or touching gaps inside (start, end) melt into one. */
  function MeltGaps(gs: seq<Gap>, start: uint32, end: uint32, merged: seq<Gap>): seq<Gap>
    decreases |gs|
  {
    if gs == [] || (gs[0].e > start && gs[0].s >= end) then merged
    else MeltGaps(gs[1..], start, end, Melt(gs[0], start, merged))
  }

  /** The available range without the merged gaps. */
  function SplitRange(start: uint32, gaps: seq<Gap>, end: uint32): seq<Timeline>
    decreases |gaps|
  {
    if gaps == [] then if start < end then [Timeline(start, end, 0)] else []
    else
      (if start < gaps[0].s then [Timeline(start, gaps[0].s, 0)] else []) + SplitRange(gaps[0].e, gaps[1..], end)
  }

  function Merged(sets: seq<seq<Timeline>>): seq<Timeline> {
    if sets == [] then []
    else if |sets| == 1 then sets[0]
    else
      var start, end, gs := LatestStart(sets), EarliestEnd(sets), SortGaps(AllGaps(sets));
      if gs == [] then [Timeline(start, end, 0)]
      else SplitRange(start, MeltGaps(gs, start, end, []), end)
  }

  /** First loop of the merge: the available range and the gaps. */
  method CollectGaps(sets: seq<seq<Timeline>>) returns (start: uint32, end: uint32, g: seq<Gap>)
    ensures start == LatestStart(sets) && end == EarliestEnd(sets) && g == AllGaps(sets)
  {
    start, end, g := 0, 0, [];
    for i := 0 to |sets|
      invariant start == LatestStart(sets[..i]) && end == EarliestEnd(sets[..i]) && g == AllGaps(sets[..i])
    {
      var tln := sets[i];
      assert sets[..i + 1][..i] == sets[..i];
      if |tln| == 0 {
        continue;
      }
      if tln[0].start > start {
        start := tln[0].start;
      }
      if end == 0 || tln[|tln| - 1].end < end {
        end := tln[|tln| - 1].end;
      }
      if |tln| == 1 {
        continue;
      }
      ghost var others := g;
      var ls: uint32 := tln[0].end;
      for j := 1 to |tln|
        invariant ls == tln[j - 1].end && g == others + GapsIn(tln[..j])
      {
        assert tln[..j + 1][..j] == tln[..j];
        g := g + [Gap(ls, tln[j].start)];
        ls := tln[j].end;
      }
      assert tln[..|tln|] == tln;
    }
    assert sets[..|sets|] == sets;
  }

  /** Second loop of the merge: melt overlapping gaps of the sorted list. */
  method MeltOverlapping(g: seq<Gap>, start: uint32, end: uint32) returns (g2: seq<Gap>)
    requires forall gp :: gp in g ==> gp.s > 0
    ensures g2 == MeltGaps(g, start, end, [])
  {
    g2 := [];
    var cend: uint32 := 0;
    var i := 0;
    while i < |g|
      invariant 0 <= i <= |g|
      invariant g2 == [] ==> cend == 0
      invariant MeltGaps(g, start, end, []) == MeltGaps(g[i..], start, end, g2)
    {
      var gp := g[i];
      ghost var was := g2;
      assert g[i..][0] == gp && g[i..][1..] == g[i + 1..];
      if gp.e <= start {
        i := i + 1;
        continue;
      }
      if gp.s >= end {
        return;
      }
      assert MeltGaps(g, start, end, []) == MeltGaps(g[i + 1..], start, end, Melt(gp, start, g2));
      if |g2| > 0 {
        cend := g2[|g2| - 1].e;
      }
      if gp.s > cend {
        g2 := g2 + [gp];
      } else if gp.e > cend {
        assert g2 != [] by {
          assert gp in g;
        }
        g2 := g2[..|g2| - 1] + [g2[|g2| - 1].(e := gp.e)];
      }
      assert g2 == Melt(gp, start, was);
      i := i + 1;
    }
    assert g[i..] == [];
  }

  method MergeTimelines(sets: seq<seq<Timeline>>) returns (ret: seq<Timeline>)
    requires AllWellFormed(sets)
    ensures ret == Merged(sets)
  {
    if |sets| == 0 {
      return [];
    }
    if |sets| == 1 {
      return sets[0];
    }
    var start: uint32, end: uint32, g := CollectGaps(sets);
    AllGapsPositive(sets);
    SortGapsSorts(g);
    g := SortGaps(g);
    if |g| == 0 {
      return [Timeline(start, end, 0)];
    }
    var g2 := MeltOverlapping(g, start, end);

    ret := CutAtGaps(start, g2, end);
  }

  /** Last loop of the merge: split the available range at the merged gaps. */
  method CutAtGaps(from: uint32, g2: seq<Gap>, end: uint32) returns (ret: seq<Timeline>)
    ensures ret == SplitRange(from, g2, end)
  {
    var start: uint32 := from;
    ret := [];
    for k := 0 to |g2|
      invariant SplitRange(from, g2, end) == ret + SplitRange(start, g2[k..], end)
    {
      assert g2[k..][0] == g2[k] && g2[k..][1..] == g2[k + 1..];
      ghost var was, rest := ret, SplitRange(g2[k].e, g2[k + 1..], end);
      if start < g2[k].s {
        ret := ret + [Timeline(start, g2[k].s, 0)];
        assert ret + rest == was + ([Timeline(start, g2[k].s, 0)] + rest);
      } else {
        assert ret + rest == was + ([] + rest);
      }
      start := g2[k].e;
    }
    assert g2[|g2|..] == [];
    if start < end {
      ret := ret + [Timeline(start, end, 0)];
    }
  }

  predicate ProperGap(g: Gap) {
    0 < g.s <= g.e
  }

  lemma {:induction false} GapsPositive(lines: seq<Timeline>)
    requires WellFormed(lines)
    ensures forall g :: g in GapsIn(lines) ==> ProperGap(g)
    decreases |lines|
  {
    if |lines| > 1 {
      GapsPositive(lines[..|lines| - 1]);
      assert lines[|lines| - 2] in lines;
    }
  }

  lemma {:induction false} AllGapsPositive(sets: seq<seq<Timeline>>)
    requires AllWellFormed(sets)
    ensures forall g :: g in AllGaps(sets) ==> ProperGap(g)
    decreases |sets|
  {
    if sets != [] {
      AllGapsPositive(sets[..|sets| - 1]);
      GapsPositive(sets[|sets| - 1]);
    }
  }

  // --- pointwise meaning -----------------------------------------------------------------------

  lemma {:induction false} GapsBelowLast(lines: seq<Timeline>)
    requires WellFormed(lines) && lines != []
    ensures forall g :: g in GapsIn(lines) ==> lines[0].end <= g.s && g.e <= lines[|lines| - 1].start
    decreases |lines|
  {
    var n := |lines|;
    if n > 1 {
      GapsBelowLast(lines[..n - 1]);
      assert ProperLine(lines[n - 2]);
    }
  }

  /** One set covers a second iff the second is in its overall range and in none of its gaps. */
  lemma {:induction false} CoversByGaps(lines: seq<Timeline>, x: int)
    requires WellFormed(lines) && lines != []
    ensures Covers(lines, x) <==> lines[0].start <= x < lines[|lines| - 1].end && !InAnyGap(GapsIn(lines), x)
    decreases |lines|
  {
    var n := |lines|;
    if n > 1 {
      var before, last := lines[..n - 1], lines[n - 1];
      CoversByGaps(before, x);
      GapsBelowLast(before);
      assert lines == before + [last];
      assert Covers(lines, x) <==> Covers(before, x) || Within(last, x);
      var g := Gap(lines[n - 2].end, last.start);
      assert InAnyGap(GapsIn(lines), x) <==> InAnyGap(GapsIn(before), x) || InGap(g, x);
      assert ProperLine(lines[0]) && ProperLine(lines[n - 2]) && ProperLine(last);
    } else {
      assert Covers(lines, x) <==> Within(lines[0], x);
    }
  }

  /** Every non-empty set covers second `x`. */
  predicate AllCover(sets: seq<seq<Timeline>>, x: int) {
    forall lines: seq<Timeline> :: lines in sets && lines != [] ==> Covers(lines, x)
  }

  predicate SomeNonEmpty(sets: seq<seq<Timeline>>) {
    exists lines: seq<Timeline> :: lines in sets && lines != []
  }

  lemma {:induction false} RangeIsSet(sets: seq<seq<Timeline>>)
    requires AllWellFormed(sets)
    ensures SomeNonEmpty(sets) <==> EarliestEnd(sets) > 0
    ensures !SomeNonEmpty(sets) ==> LatestStart(sets) == 0 && AllGaps(sets) == []
    decreases |sets|
  {
    if sets != [] {
      var before, last := sets[..|sets| - 1], sets[|sets| - 1];
      assert sets == before + [last];
      RangeIsSet(before);
      assert last in sets;
      if lines: seq<Timeline> :| lines in before && lines != [] {
        assert lines in sets;
      }
      if last != [] {
        assert last in sets && ProperLine(last[|last| - 1]);
      }
    }
  }

  /** The available range without all the gaps is the intersection of the sets. */
  lemma {:induction false} AllCoverByGaps(sets: seq<seq<Timeline>>, x: int)
    requires AllWellFormed(sets) && SomeNonEmpty(sets)
    ensures AllCover(sets, x) <==> LatestStart(sets) <= x < EarliestEnd(sets) && !InAnyGap(AllGaps(sets), x)
    decreases |sets|
  {
    var n := |sets|;
    var before, last := sets[..n - 1], sets[n - 1];
    assert sets == before + [last];
    RangeIsSet(before);
    if last != [] {
      CoversByGaps(last, x);
    }
    AllCoverAppend(before, last, x);
    InAnyGapConcat(AllGaps(before), GapsIn(last), x);
    if SomeNonEmpty(before) {
      AllCoverByGaps(before, x);
    } else {
      assert AllCover(before, x);
      assert last != [];
    }
  }

  lemma AllCoverAppend(sets: seq<seq<Timeline>>, last: seq<Timeline>, x: int)
    ensures AllCover(sets + [last], x) <==> AllCover(sets, x) && (last != [] ==> Covers(last, x))
  {
    assert last in sets + [last];
    assert forall lines: seq<Timeline> :: lines in sets ==> lines in sets + [last];
  }

  lemma InAnyGapConcat(a: seq<Gap>, b: seq<Gap>, x: int)
    ensures InAnyGap(a + b, x) <==> InAnyGap(a, x) || InAnyGap(b, x)
  {
  }

  predicate Inside(m: Gap, start: int, end: int) {
    m.s <= m.e && start < m.e && m.s < end
  }

  /** Merged gaps: strictly apart, each ending after `start` and beginning before `end`. */
  predicate Tidy(merged: seq<Gap>, start: int, end: int) {
    && (forall m :: m in merged ==> Inside(m, start, end))
    && (forall i, j :: 0 <= i < j < |merged| ==> merged[i].e < merged[j].s)
  }

  /** Gap `g` lies inside one of the merged gaps. */
  predicate Swallowed(g: Gap, merged: seq<Gap>) {
    exists m :: m in merged && m.s <= g.s && g.e <= m.e
  }

  predicate Relevant(g: Gap, start: int, end: int) {
    start < g.e && g.s < end
  }

  /** The merged gaps so far may be extended by gaps that begin at or after `s`. */
  predicate OpenAt(merged: seq<Gap>, s: int) {
    merged != [] ==> merged[|merged| - 1].s <= s
  }

  lemma MeltTidy(g: Gap, start: uint32, end: uint32, merged: seq<Gap>)
    requires Tidy(merged, start, end) && ProperGap(g) && OpenAt(merged, g.s)
    requires g.e <= start || g.s < end
    ensures Tidy(Melt(g, start, merged), start, end) && OpenAt(Melt(g, start, merged), g.s)
  {
    var n := |merged|;
    if n > 0 {
      assert merged[n - 1] in merged;
      var r := Melt(g, start, merged);
      if r != merged {
        forall i, j | 0 <= i < j < |r| ensures r[i].e < r[j].s {
          if j < |r| - 1 {
            assert merged[i].e < merged[j].s;
          } else if i < n - 1 {
            assert merged[i].e < merged[n - 1].s;
          }
        }
      }
    }
  }

  lemma MeltSwallows(g: Gap, start: uint32, end: uint32, merged: seq<Gap>, h: Gap)
    requires Tidy(merged, start, end) && ProperGap(g) && OpenAt(merged, g.s)
    requires Swallowed(h, merged) || (h == g && start < g.e)
    ensures Swallowed(h, Melt(g, start, merged))
  {
    var r, n := Melt(g, start, merged), |merged|;
    if r != merged {
      assert r[|r| - 1] in r;
      if Swallowed(h, merged) {
        var m :| m in merged && m.s <= h.s && h.e <= m.e;
        if m !in r {
          assert merged == merged[..n - 1] + [merged[n - 1]];
        }
      }
    } else if !Swallowed(h, merged) {
      assert merged[n - 1] in merged;
    }
  }

  lemma MeltAddsNothing(g: Gap, start: uint32, end: uint32, merged: seq<Gap>, x: int)
    requires Tidy(merged, start, end) && ProperGap(g) && OpenAt(merged, g.s)
    requires InAnyGap(Melt(g, start, merged), x)
    ensures InGap(g, x) || InAnyGap(merged, x)
  {
    var n := |merged|;
    var m :| m in Melt(g, start, merged) && InGap(m, x);
    if m !in merged && n > 0 {
      assert merged[n - 1] in merged;
      if x < merged[n - 1].e && m != g {
        assert InGap(merged[n - 1], x);
      }
    }
  }

  /** A merged gap begins where one of the gaps it came from begins. */
  predicate Begins(m: Gap, gs: seq<Gap>) {
    exists g :: g in gs && g.s == m.s
  }

  lemma MeltBegins(g: Gap, start: uint32, merged: seq<Gap>, m: Gap)
    requires m in Melt(g, start, merged)
    ensures m == g || Begins(m, merged)
  {
    var n := |merged|;
    if m in merged {
    } else if n > 0 && m != g {
      assert merged[n - 1] in merged;
    }
  }

  lemma SortedTail(gs: seq<Gap>)
    requires GapSorted(gs) && gs != []
    ensures GapSorted(gs[1..])
    ensures forall g :: g in gs ==> gs[0].s <= g.s
    ensures |gs| > 1 ==> gs[0].s <= gs[1].s
  {
    forall g | g in gs ensures gs[0].s <= g.s {
      var k :| 0 <= k < |gs| && gs[k] == g;
      assert k > 0 ==> !GapLess(gs[k], gs[0]);
    }
  }

  lemma {:induction false} MeltGapsTidy(gs: seq<Gap>, start: uint32, end: uint32, merged: seq<Gap>)
    requires GapSorted(gs) && (forall g :: g in gs ==> ProperGap(g))
    requires Tidy(merged, start, end) && (gs != [] ==> OpenAt(merged, gs[0].s))
    ensures Tidy(MeltGaps(gs, start, end, merged), start, end)
    decreases |gs|
  {
    if gs != [] && !(gs[0].e > start && gs[0].s >= end) {
      SortedTail(gs);
      MeltTidy(gs[0], start, end, merged);
      MeltGapsTidy(gs[1..], start, end, Melt(gs[0], start, merged));
    }
  }

  lemma {:induction false} MeltGapsSwallow(gs: seq<Gap>, start: uint32, end: uint32, merged: seq<Gap>, h: Gap)
    requires GapSorted(gs) && (forall g :: g in gs ==> ProperGap(g))
    requires Tidy(merged, start, end) && (gs != [] ==> OpenAt(merged, gs[0].s))
    requires Swallowed(h, merged) || (h in gs && Relevant(h, start, end))
    ensures Swallowed(h, MeltGaps(gs, start, end, merged))
    decreases |gs|
  {
    if gs != [] {
      SortedTail(gs);
      if !(gs[0].e > start && gs[0].s >= end) {
        MeltTidy(gs[0], start, end, merged);
        assert gs == [gs[0]] + gs[1..];
        if Swallowed(h, merged) || h == gs[0] {
          MeltSwallows(gs[0], start, end, merged, h);
        }
        MeltGapsSwallow(gs[1..], start, end, Melt(gs[0], start, merged), h);
      }
    }
  }

  lemma {:induction false} MeltGapsAddNothing(gs: seq<Gap>, start: uint32, end: uint32, merged: seq<Gap>, x: int)
    requires GapSorted(gs) && (forall g :: g in gs ==> ProperGap(g))
    requires Tidy(merged, start, end) && (gs != [] ==> OpenAt(merged, gs[0].s))
    requires InAnyGap(MeltGaps(gs, start, end, merged), x)
    ensures InAnyGap(gs, x) || InAnyGap(merged, x)
    decreases |gs|
  {
    if gs != [] && !(gs[0].e > start && gs[0].s >= end) {
      SortedTail(gs);
      MeltTidy(gs[0], start, end, merged);
      var next := Melt(gs[0], start, merged);
      MeltGapsAddNothing(gs[1..], start, end, next, x);
      if InAnyGap(next, x) {
        MeltAddsNothing(gs[0], start, end, merged, x);
      } else {
        var g :| g in gs[1..] && InGap(g, x);
        assert g in gs;
      }
    }
  }

  lemma {:induction false} MeltGapsBegin(gs: seq<Gap>, start: uint32, end: uint32, merged: seq<Gap>, m: Gap)
    requires m in MeltGaps(gs, start, end, merged)
    ensures Begins(m, gs) || Begins(m, merged)
    decreases |gs|
  {
    if gs != [] && !(gs[0].e > start && gs[0].s >= end) {
      var next := Melt(gs[0], start, merged);
      MeltGapsBegin(gs[1..], start, end, next, m);
      if Begins(m, gs[1..]) {
        var g :| g in gs[1..] && g.s == m.s;
        assert g in gs;
      } else {
        var g :| g in next && g.s == m.s;
        MeltBegins(gs[0], start, merged, g);
        if !Begins(m, merged) {
          assert gs[0] in gs;
        }
      }
    }
  }

  lemma TidyTail(gaps: seq<Gap>, low: int, end: int)
    requires gaps != [] && Tidy(gaps, low, end)
    ensures Tidy(gaps[1..], low, end)
    ensures forall h :: h in gaps[1..] ==> gaps[0].e < h.s
  {
    forall h | h in gaps[1..] ensures gaps[0].e < h.s {
      var k :| 0 <= k < |gaps[1..]| && gaps[1..][k] == h;
      assert gaps[0].e < gaps[k + 1].s;
    }
  }

  /** The split lines cover exactly what the merged gaps leave of the range. */
  lemma {:induction false} SplitCovers(start: uint32, gaps: seq<Gap>, end: uint32, low: int, x: int)
    requires Tidy(gaps, low, end) && low <= start && (gaps != [] ==> start <= gaps[0].e)
    ensures Covers(SplitRange(start, gaps, end), x) <==> start <= x < end && !InAnyGap(gaps, x)
    decreases |gaps|
  {
    if gaps == [] {
      if start < end {
        assert Timeline(start, end, 0) in SplitRange(start, gaps, end);
      }
    } else {
      var g, rest := gaps[0], gaps[1..];
      assert gaps == [g] + rest;
      TidyTail(gaps, low, end);
      assert rest != [] ==> Inside(rest[0], low, end) && g.e < rest[0].s;
      assert Inside(g, low, end);
      SplitCovers(g.e, rest, end, low, x);
      var head := if start < g.s then [Timeline(start, g.s, 0)] else [];
      assert SplitRange(start, gaps, end) == head + SplitRange(g.e, rest, end);
      assert Covers(head + SplitRange(g.e, rest, end), x) <==> Covers(head, x) || Covers(SplitRange(g.e, rest, end), x);
      assert Covers(head, x) <==> start <= x < g.s by {
        if start <= x < g.s {
          assert Timeline(start, g.s, 0) in head;
        }
      }
      assert InAnyGap(gaps, x) <==> InGap(g, x) || InAnyGap(rest, x);
    }
  }

  /** A line that does not run into any of the gaps. */
  predicate Clear(line: Timeline, gaps: seq<Gap>) {
    forall g :: g in gaps ==> line.end <= g.s || g.e <= line.start
  }

  lemma {:induction false} SplitLines(start: uint32, gaps: seq<Gap>, end: uint32, low: int, line: Timeline)
    requires Tidy(gaps, low, end) && low <= start && (gaps != [] ==> start <= gaps[0].e)
    requires line in SplitRange(start, gaps, end)
    ensures start <= line.start < line.end <= end && Clear(line, gaps)
    ensures line.end == end || exists g :: g in gaps && g.s == line.end
    decreases |gaps|
  {
    if gaps != [] {
      var g, rest := gaps[0], gaps[1..];
      assert gaps == [g] + rest;
      TidyTail(gaps, low, end);
      assert rest != [] ==> Inside(rest[0], low, end) && g.e < rest[0].s;
      assert Inside(g, low, end);
      if line in SplitRange(g.e, rest, end) {
        SplitLines(g.e, rest, end, low, line);
        assert Clear(line, rest);
      } else {
        assert line == Timeline(start, g.s, 0) && g in gaps;
      }
    }
  }

  predicate ManyWithGaps(sets: seq<seq<Timeline>>) {
    AllWellFormed(sets) && |sets| > 1 && AllGaps(sets) != []
  }

  function MeltedGaps(sets: seq<seq<Timeline>>): seq<Gap> {
    MeltGaps(SortGaps(AllGaps(sets)), LatestStart(sets), EarliestEnd(sets), [])
  }

  lemma GeneralPathSetup(sets: seq<seq<Timeline>>)
    requires ManyWithGaps(sets)
    ensures Merged(sets) == SplitRange(LatestStart(sets), MeltedGaps(sets), EarliestEnd(sets))
    ensures Tidy(MeltedGaps(sets), LatestStart(sets), EarliestEnd(sets))
    ensures MeltedGaps(sets) != [] ==> LatestStart(sets) <= MeltedGaps(sets)[0].e
  {
    var all := AllGaps(sets);
    SortGapsSorts(all);
    AllGapsPositive(sets);
    MeltGapsTidy(SortGaps(all), LatestStart(sets), EarliestEnd(sets), []);
    if MeltedGaps(sets) != [] {
      assert MeltedGaps(sets)[0] in MeltedGaps(sets);
    }
  }

  /** On the general path the result covers the available range without the gaps. */
  lemma GeneralPathCovers(sets: seq<seq<Timeline>>, x: int)
    requires ManyWithGaps(sets)
    ensures Covers(Merged(sets), x) <==> LatestStart(sets) <= x < EarliestEnd(sets) && !InAnyGap(AllGaps(sets), x)
  {
    var start, end, all := LatestStart(sets), EarliestEnd(sets), AllGaps(sets);
    var gs := SortGaps(all);
    GeneralPathSetup(sets);
    SortGapsSorts(all);
    AllGapsPositive(sets);
    var melted := MeltedGaps(sets);
    SplitCovers(start, melted, end, start, x);
    if start <= x < end && InAnyGap(all, x) {
      var g :| g in all && InGap(g, x);
      MeltGapsSwallow(gs, start, end, [], g);
      var m :| m in melted && m.s <= g.s && g.e <= m.e;
      assert InGap(m, x);
    }
    if InAnyGap(melted, x) {
      MeltGapsAddNothing(gs, start, end, [], x);
      var g :| g in gs && InGap(g, x);
      assert g in all;
    }
  }

  /** On the general path no result line runs into a gap of any set. */
  lemma GeneralPathLines(sets: seq<seq<Timeline>>, line: Timeline)
    requires ManyWithGaps(sets) && line in Merged(sets)
    ensures LatestStart(sets) <= line.start < line.end <= EarliestEnd(sets) && Clear(line, AllGaps(sets))
    ensures line.end == EarliestEnd(sets) || exists g :: g in AllGaps(sets) && g.s == line.end
  {
    var start, end, all := LatestStart(sets), EarliestEnd(sets), AllGaps(sets);
    var gs := SortGaps(all);
    GeneralPathSetup(sets);
    SortGapsSorts(all);
    AllGapsPositive(sets);
    var melted := MeltedGaps(sets);
    SplitLines(start, melted, end, start, line);
    forall g | g in all ensures line.end <= g.s || g.e <= line.start {
      if Relevant(g, start, end) {
        MeltGapsSwallow(gs, start, end, [], g);
        var m :| m in melted && m.s <= g.s && g.e <= m.e;
      }
    }
    if line.end != end {
      var m :| m in melted && m.s == line.end;
      MeltGapsBegin(gs, start, end, [], m);
      var g :| g in gs && g.s == m.s;
      assert g in all;
    }
  }

  lemma NoGapPath(sets: seq<seq<Timeline>>)
    requires |sets| > 1 && AllGaps(sets) == []
    ensures Merged(sets) == [Timeline(LatestStart(sets), EarliestEnd(sets), 0)]
  {
    SortGapsSorts(AllGaps(sets));
  }

  /** The merge is pointwise intersection of the non-empty sets. */
  lemma MergeIsIntersection(sets: seq<seq<Timeline>>, x: int)
    requires AllWellFormed(sets) && SomeNonEmpty(sets)
    ensures Covers(Merged(sets), x) <==> AllCover(sets, x)
  {
    if |sets| == 1 {
      assert sets == [sets[0]];
    } else {
      AllCoverByGaps(sets, x);
      if AllGaps(sets) == [] {
        NoGapPath(sets);
        assert Merged(sets)[0] in Merged(sets);
      } else {
        GeneralPathCovers(sets, x);
      }
    }
  }

  /** A merged line is inverted or empty exactly if no set has a gap and the first set to end does so no
      later than the last one starts. */
  lemma InvertedExactly(sets: seq<seq<Timeline>>)
    requires AllWellFormed(sets) && |sets| > 1
    ensures (exists line :: line in Merged(sets) && line.end <= line.start)
            <==> AllGaps(sets) == [] && EarliestEnd(sets) <= LatestStart(sets)
  {
    if AllGaps(sets) == [] {
      NoGapPath(sets);
      assert Merged(sets)[0] in Merged(sets);
    } else {
      forall line | line in Merged(sets) ensures line.start < line.end {
        GeneralPathLines(sets, line);
      }
    }
  }

  /** Such a line stands for nothing: the sets share no second. */
  lemma InvertedMeansNothingShared(sets: seq<seq<Timeline>>, x: int)
    requires AllWellFormed(sets) && |sets| > 1 && SomeNonEmpty(sets)
    requires exists line :: line in Merged(sets) && line.end <= line.start
    ensures !AllCover(sets, x)
  {
    InvertedExactly(sets);
    AllCoverByGaps(sets, x);
  }

  /** Without any gap the two ends of the result may cross: the sets then share no second. */
  lemma NoGapResultMayBeInverted()
    ensures exists sets :: AllWellFormed(sets) && |Merged(sets)| == 1 && Merged(sets)[0].end < Merged(sets)[0].start
  {
    var a, b := [Timeline(1, 3, 0)], [Timeline(5, 8, 0)];
    var sets := [a, b];
    assert sets[..1] == [a] && [a][..0] == [];
    assert AllGaps([a]) == AllGaps([]) + GapsIn(a);
    assert AllGaps(sets) == [];
    assert LatestStart([a]) == 1 && EarliestEnd([a]) == 3;
    NoGapPath(sets);
    assert Merged(sets) == [Timeline(5, 3, 0)];
    assert AllWellFormed(sets);
  }

  // --- order independence ----------------------------------------------------------------------

  lemma {:induction false} SortedUnique(a: seq<Gap>, b: seq<Gap>)
    requires GapSorted(a) && GapSorted(b) && multiset(a) == multiset(b)
    ensures a == b
    decreases |a|
  {
    assert |multiset(a)| == |a| && |multiset(b)| == |b|;
    if a != [] {
      assert a[0] in multiset(b) && b[0] in multiset(a);
      FirstIsLeast(a, b[0]);
      FirstIsLeast(b, a[0]);
      assert a == [a[0]] + a[1..] && b == [b[0]] + b[1..];
      assert multiset(a[1..]) == multiset(a) - multiset{a[0]};
      assert multiset(b[1..]) == multiset(b) - multiset{b[0]};
      SortedTail(a);
      SortedTail(b);
      SortedUnique(a[1..], b[1..]);
    }
  }

  lemma FirstIsLeast(gs: seq<Gap>, g: Gap)
    requires GapSorted(gs) && g in gs
    ensures !GapLess(g, gs[0])
  {
    var k :| 0 <= k < |gs| && gs[k] == g;
    if k > 0 {
      assert !GapLess(gs[k], gs[0]);
    }
  }

  lemma {:induction false} AllGapsConcat(a: seq<seq<Timeline>>, b: seq<seq<Timeline>>)
    ensures AllGaps(a + b) == AllGaps(a) + AllGaps(b)
    decreases |b|
  {
    if b == [] {
      assert a + b == a;
    } else {
      var b', last := b[..|b| - 1], b[|b| - 1];
      assert (a + b)[..|a + b| - 1] == a + b';
      AllGapsConcat(a, b');
    }
  }

  /** Take the last element of one arrangement out of both. */
  lemma TakeLastOutOfBoth<T>(a: seq<T>, b: seq<T>) returns (left: seq<T>, right: seq<T>)
    requires multiset(a) == multiset(b) && a != []
    ensures b == left + [a[|a| - 1]] + right
    ensures multiset(a[..|a| - 1]) == multiset(left + right)
  {
    var last := a[|a| - 1];
    assert last in multiset(b);
    var k :| 0 <= k < |b| && b[k] == last;
    left, right := b[..k], b[k + 1..];
    assert a == a[..|a| - 1] + [last];
    assert b == left + [last] + right;
    assert multiset(a[..|a| - 1]) == multiset(a) - multiset{last};
    assert multiset(left + right) == multiset(b) - multiset{last};
  }

  lemma {:induction false} AllGapsPermute(a: seq<seq<Timeline>>, b: seq<seq<Timeline>>)
    requires multiset(a) == multiset(b)
    ensures multiset(AllGaps(a)) == multiset(AllGaps(b))
    decreases |a|
  {
    if a == [] {
      assert |multiset(b)| == 0;
    } else {
      var left, right := TakeLastOutOfBoth(a, b);
      AllGapsPermute(a[..|a| - 1], left + right);
      AllGapsAround(left, a[|a| - 1], right);
    }
  }

  lemma AllGapsAround(left: seq<seq<Timeline>>, lines: seq<Timeline>, right: seq<seq<Timeline>>)
    ensures multiset(AllGaps(left + [lines] + right)) == multiset(AllGaps(left + right)) + multiset(GapsIn(lines))
  {
    AllGapsConcat(left, right);
    AllGapsConcat(left, [lines]);
    AllGapsConcat(left + [lines], right);
    assert [lines][..0] == [];
    assert AllGaps([lines]) == AllGaps([]) + GapsIn(lines);
  }

  /** The latest start is an upper bound that one of the sets attains. */
  lemma {:induction false} LatestStartIsMax(sets: seq<seq<Timeline>>)
    ensures forall lines: seq<Timeline> :: lines in sets && lines != [] ==> lines[0].start <= LatestStart(sets)
    ensures LatestStart(sets) == 0 ||
            exists lines: seq<Timeline> :: lines in sets && lines != [] && lines[0].start == LatestStart(sets)
    decreases |sets|
  {
    if sets != [] {
      var before, last := sets[..|sets| - 1], sets[|sets| - 1];
      assert sets == before + [last];
      LatestStartIsMax(before);
      if LatestStart(sets) != LatestStart(before) {
        assert last in sets && last != [] && last[0].start == LatestStart(sets);
      }
    }
  }

  lemma {:induction false} EarliestEndIsMin(sets: seq<seq<Timeline>>)
    requires AllWellFormed(sets)
    ensures forall lines: seq<Timeline> :: lines in sets && lines != [] ==>
      0 < EarliestEnd(sets) <= lines[|lines| - 1].end
    ensures EarliestEnd(sets) == 0 ||
      exists lines: seq<Timeline> :: lines in sets && lines != [] && lines[|lines| - 1].end == EarliestEnd(sets)
    decreases |sets|
  {
    if sets != [] {
      var before, last := sets[..|sets| - 1], sets[|sets| - 1];
      assert sets == before + [last];
      EarliestEndIsMin(before);
      if last != [] {
        assert last in sets && ProperLine(last[|last| - 1]);
      }
      if EarliestEnd(sets) != EarliestEnd(before) {
        assert last in sets && last != [] && last[|last| - 1].end == EarliestEnd(sets);
      }
    }
  }

  lemma SameBounds(a: seq<seq<Timeline>>, b: seq<seq<Timeline>>)
    requires AllWellFormed(a) && AllWellFormed(b)
    requires forall lines: seq<Timeline> :: lines in a ==> lines in b
    ensures LatestStart(a) <= LatestStart(b)
    ensures EarliestEnd(a) != 0 ==> 0 < EarliestEnd(b) <= EarliestEnd(a)
  {
    LatestStartIsMax(a);
    LatestStartIsMax(b);
    EarliestEndIsMin(a);
    EarliestEndIsMin(b);
  }

  /** For two or more sets the merged list is the same in whatever order the sets are given. */
  lemma MergeIgnoresOrder(a: seq<seq<Timeline>>, b: seq<seq<Timeline>>)
    requires AllWellFormed(a) && |a| > 1
    requires multiset(a) == multiset(b)
    ensures Merged(a) == Merged(b)
  {
    assert |multiset(a)| == |a| && |multiset(b)| == |b|;
    assert forall lines: seq<Timeline> :: lines in a ==> lines in multiset(a);
    assert forall lines: seq<Timeline> :: lines in b ==> lines in multiset(b);
    SameBounds(a, b);
    SameBounds(b, a);
    AllGapsPermute(a, b);
    SortGapsSorts(AllGaps(a));
    SortGapsSorts(AllGaps(b));
    SortedUnique(SortGaps(AllGaps(a)), SortGaps(AllGaps(b)));
  }

  // ---------------------------------------------------------------------------------------------
  // One unbroken range for every replica set
  // ---------------------------------------------------------------------------------------------

  function OwnChunks(chunks: seq<OplogChunk>, rs: string): seq<OplogChunk> {
    if chunks == [] then []
    else
      var rest, c := OwnChunks(chunks[..|chunks| - 1], rs), chunks[|chunks| - 1];
      if c.rs == rs then rest + [c] else rest
  }

  function ReplsetsOf(chunks: seq<OplogChunk>): set<string> {
    set c | c in chunks :: c.rs
  }

  /** One line spans the whole closed range [from, till]. */
  predicate HasLine(lines: seq<Timeline>, from: int, till: int) {
    exists line :: line in lines && line.start <= from && till <= line.end
  }

  /** An unbroken chain of consecutive chunks spans the whole closed range [from, till]. */
  ghost predicate SpannedByChain(chunks: seq<OplogChunk>, from: int, till: int) {
    exists i, j :: Unbroken(chunks, i, j) && chunks[i].startTS.t <= from && till <= chunks[j - 1].endTS.t
  }

  predicate ProperIndex(chunks: seq<OplogChunk>) {
    Proper(chunks) && StartSorted(chunks)
  }

  lemma {:induction false} OwnChunksProper(chunks: seq<OplogChunk>, rs: string)
    requires ProperIndex(chunks)
    ensures ProperIndex(OwnChunks(chunks, rs))
    ensures forall c :: c in OwnChunks(chunks, rs) <==> c in chunks && c.rs == rs
    decreases |chunks|
  {
    if chunks != [] {
      var n := |chunks|;
      var before, last := chunks[..n - 1], chunks[n - 1];
      assert chunks == before + [last];
      OwnChunksProper(before, rs);
      var own, own' := OwnChunks(chunks, rs), OwnChunks(before, rs);
      forall c | c in own' ensures AtMost(c.startTS, last.startTS) {
        var k :| 0 <= k < |before| && before[k] == c;
        assert AtMost(chunks[k].startTS, chunks[n - 1].startTS);
      }
      forall i, j | 0 <= i <= j < |own| ensures AtMost(own[i].startTS, own[j].startTS) {
        if j < |own'| {
          assert own[i] == own'[i] && own[j] == own'[j];
        }
      }
    }
  }

  lemma {:induction false} OwnChunksExist(chunks: seq<OplogChunk>, rs: string)
    requires ProperIndex(chunks)
    ensures rs in ReplsetsOf(chunks) <==> OwnChunks(chunks, rs) != []
  {
    OwnChunksProper(chunks, rs);
    if rs in ReplsetsOf(chunks) {
      var c :| c in chunks && c.rs == rs;
      assert c in OwnChunks(chunks, rs);
    }
    if OwnChunks(chunks, rs) != [] {
      assert OwnChunks(chunks, rs)[0] in OwnChunks(chunks, rs);
    }
  }

  /** A range inside one timeline is spanned by a chain of chunks with no missing entry. */
  lemma LineSpansChain(chunks: seq<OplogChunk>, from: int, till: int)
    requires Proper(chunks) && chunks != [] && HasLine(TimelinesOf(chunks), from, till)
    ensures SpannedByChain(chunks, from, till)
  {
    var line :| line in TimelinesOf(chunks) && line.start <= from && till <= line.end;
    var i, j := LineIsChain(chunks, line);
  }

  lemma {:induction false} GapOfSet(sets: seq<seq<Timeline>>, lines: seq<Timeline>)
    requires lines in sets
    ensures forall g :: g in GapsIn(lines) ==> g in AllGaps(sets)
    decreases |sets|
  {
    if lines != sets[|sets| - 1] {
      assert sets == sets[..|sets| - 1] + [sets[|sets| - 1]];
      GapOfSet(sets[..|sets| - 1], lines);
    }
  }

  lemma {:induction false} GapFromSet(sets: seq<seq<Timeline>>, g: Gap) returns (lines: seq<Timeline>)
    requires g in AllGaps(sets)
    ensures lines in sets && g in GapsIn(lines)
    decreases |sets|
  {
    var n := |sets|;
    if g in GapsIn(sets[n - 1]) {
      lines := sets[n - 1];
    } else {
      lines := GapFromSet(sets[..n - 1], g);
    }
  }

  /** A gap keeps clear of every line of its own set. */
  lemma {:induction false} GapsClearLines(lines: seq<Timeline>, line: Timeline, g: Gap)
    requires WellFormed(lines) && line in lines && g in GapsIn(lines)
    ensures line.end <= g.s || g.e <= line.start
    decreases |lines|
  {
    var n := |lines|;
    var before := lines[..n - 1];
    assert lines == before + [lines[n - 1]];
    GapsBelowLast(lines);
    if line in before {
      if g in GapsIn(before) {
        GapsClearLines(before, line, g);
      } else {
        var k :| 0 <= k < n - 1 && lines[k] == line;
        assert ProperLine(lines[n - 2]);
        assert k < n - 2 ==> lines[k].end <= lines[n - 2].start;
      }
    }
  }

  /** The line that covers second x but ends before the set does is followed by a gap. */
  lemma {:induction false} LineEndIsGap(lines: seq<Timeline>, line: Timeline)
    requires WellFormed(lines) && line in lines && line != lines[|lines| - 1]
    ensures exists g :: g in GapsIn(lines) && g.s == line.end
    decreases |lines|
  {
    var n := |lines|;
    var before := lines[..n - 1];
    assert lines == before + [lines[n - 1]];
    assert before != [];
    if line == lines[n - 2] {
      assert Gap(line.end, lines[n - 1].start) in GapsIn(lines);
    } else {
      LineEndIsGap(before, line);
      var g :| g in GapsIn(before) && g.s == line.end;
      assert g in GapsIn(lines);
    }
  }

  lemma {:induction false} NoGapsMeansOneLine(sets: seq<seq<Timeline>>)
    ensures AllGaps(sets) == [] <==> forall lines: seq<Timeline> :: lines in sets ==> |lines| < 2
    decreases |sets|
  {
    if sets != [] {
      var before, last := sets[..|sets| - 1], sets[|sets| - 1];
      assert sets == before + [last];
      NoGapsMeansOneLine(before);
      assert last in sets;
    }
  }

  /** A merged line lies inside one single line of every non-empty set. */
  lemma MergedLineInsideOne(sets: seq<seq<Timeline>>, lines: seq<Timeline>, from: int, till: int)
    requires AllWellFormed(sets) && lines in sets && lines != []
    requires from <= till && HasLine(Merged(sets), from, till)
    ensures HasLine(lines, from, till)
  {
    if |sets| == 1 {
      assert lines == sets[0];
    } else if AllGaps(sets) == [] {
      NoGapPath(sets);
      LatestStartIsMax(sets);
      EarliestEndIsMin(sets);
      NoGapsMeansOneLine(sets);
      assert lines[0] in lines;
    } else {
      var r :| r in Merged(sets) && r.start <= from && till <= r.end;
      ClearLineInsideOne(sets, lines, r);
    }
  }

  lemma ClearLineInsideOne(sets: seq<seq<Timeline>>, lines: seq<Timeline>, r: Timeline)
    requires ManyWithGaps(sets) && lines in sets && lines != [] && r in Merged(sets)
    ensures exists line :: line in lines && line.start <= r.start && r.end <= line.end
  {
    GeneralPathLines(sets, r);
    GeneralPathCovers(sets, r.start);
    assert SomeNonEmpty(sets);
    AllCoverByGaps(sets, r.start);
    assert Within(r, r.start);
    assert Covers(lines, r.start);
    var line :| line in lines && Within(line, r.start);
    if line.end < r.end {
      EarliestEndIsMin(sets);
      LineEndIsGap(lines, line);
      var g :| g in GapsIn(lines) && g.s == line.end;
      GapOfSet(sets, lines);
      AllGapsPositive(sets);
      assert false;
    }
  }

  /** The other way round: one line of each set over a non-empty range gives one merged line. */
  lemma OneEachGivesMergedLine(sets: seq<seq<Timeline>>, from: int, till: int)
    requires AllWellFormed(sets) && sets != [] && from < till
    requires forall lines: seq<Timeline> :: lines in sets ==> HasLine(lines, from, till)
    ensures HasLine(Merged(sets), from, till)
  {
    forall lines: seq<Timeline> | lines in sets
      ensures lines != [] && lines[0].start <= from && till <= lines[|lines| - 1].end
    {
      LineInRange(lines, from, till);
    }
    LatestStartIsMax(sets);
    EarliestEndIsMin(sets);
    assert sets[0] in sets;
    var start, end := LatestStart(sets), EarliestEnd(sets);
    assert start <= from && till <= end;
    if |sets| > 1 {
      if AllGaps(sets) == [] {
        NoGapPath(sets);
        assert Merged(sets)[0] in Merged(sets);
      } else {
        NoGapAt(sets, from, till);
        GeneralPathCovers(sets, from);
        var r :| r in Merged(sets) && Within(r, from);
        GeneralPathLines(sets, r);
      }
    }
  }

  lemma LineInRange(lines: seq<Timeline>, from: int, till: int)
    requires WellFormed(lines) && HasLine(lines, from, till)
    ensures lines != [] && lines[0].start <= from && till <= lines[|lines| - 1].end
  {
    var line :| line in lines && line.start <= from && till <= line.end;
    var k :| 0 <= k < |lines| && lines[k] == line;
    assert ProperLine(lines[0]) && ProperLine(lines[|lines| - 1]);
    assert k > 0 ==> lines[0].end <= lines[k].start;
    assert k < |lines| - 1 ==> lines[k].end <= lines[|lines| - 1].start;
  }

  lemma NoGapAt(sets: seq<seq<Timeline>>, from: int, till: int)
    requires AllWellFormed(sets) && from < till
    requires forall lines: seq<Timeline> :: lines in sets ==> HasLine(lines, from, till)
    ensures forall g :: g in AllGaps(sets) ==> till <= g.s || g.e <= from
    ensures !InAnyGap(AllGaps(sets), from)
    ensures forall g :: g in AllGaps(sets) ==> !(from < g.s < till)
  {
    forall g | g in AllGaps(sets) ensures (till <= g.s || g.e <= from) && g.s <= g.e {
      var lines := GapFromSet(sets, g);
      var line :| line in lines && line.start <= from && till <= line.end;
      GapsClearLines(lines, line, g);
      GapsPositive(lines);
    }
  }

  /** What the verdict of the last loop means, whatever the order of the sets. */
  lemma Verdict(chunks: seq<OplogChunk>, sets: seq<seq<Timeline>>, from: int, till: int)
    requires ProperIndex(chunks) && chunks != []
    requires forall rs :: rs in ReplsetsOf(chunks) ==> TimelinesOf(OwnChunks(chunks, rs)) in sets
    requires forall lines: seq<Timeline> :: lines in sets ==>
      exists rs :: rs in ReplsetsOf(chunks) && lines == TimelinesOf(OwnChunks(chunks, rs))
    ensures AllWellFormed(sets)
    ensures HasLine(Merged(sets), from, till) && from <= till ==>
      forall rs :: rs in ReplsetsOf(chunks) ==> SpannedByChain(OwnChunks(chunks, rs), from, till)
    ensures from < till ==>
      (HasLine(Merged(sets), from, till) <==>
       forall rs :: rs in ReplsetsOf(chunks) ==> HasLine(TimelinesOf(OwnChunks(chunks, rs)), from, till))
  {
    forall lines | lines in sets ensures WellFormed(lines) {
      var rs :| rs in ReplsetsOf(chunks) && lines == TimelinesOf(OwnChunks(chunks, rs));
      OwnChunksProper(chunks, rs);
      OwnChunksExist(chunks, rs);
      TimelinesAreWellFormed(OwnChunks(chunks, rs));
    }
    if HasLine(Merged(sets), from, till) && from <= till {
      forall rs | rs in ReplsetsOf(chunks)
        ensures HasLine(TimelinesOf(OwnChunks(chunks, rs)), from, till)
        ensures SpannedByChain(OwnChunks(chunks, rs), from, till)
      {
        OwnChunksProper(chunks, rs);
        OwnChunksExist(chunks, rs);
        MergedLineInsideOne(sets, TimelinesOf(OwnChunks(chunks, rs)), from, till);
        LineSpansChain(OwnChunks(chunks, rs), from, till);
      }
    }
    if && from < till
       && forall rs :: rs in ReplsetsOf(chunks) ==> HasLine(TimelinesOf(OwnChunks(chunks, rs)), from, till)
    {
      assert chunks[0].rs in ReplsetsOf(chunks);
      OneEachGivesMergedLine(sets, from, till);
    }
  }

  // --- the range of a single second --------------------------------------------------------------

  /** The merge has a line without any length at `t`. */
  predicate HasPoint(sets: seq<seq<Timeline>>, t: int) {
    if |sets| == 1 then exists line :: line in sets[0] && line.start == line.end == t
    else AllGaps(sets) == [] && LatestStart(sets) == EarliestEnd(sets) == t
  }

  /** A merged line reaches `t` exactly if all sets cover the second at `t`, or the one before it, or only
      the point is left of the range. */
  lemma MergedReaches(sets: seq<seq<Timeline>>, t: int)
    requires AllWellFormed(sets) && SomeNonEmpty(sets)
    ensures HasLine(Merged(sets), t, t) <==> AllCover(sets, t) || AllCover(sets, t - 1) || HasPoint(sets, t)
  {
    MergeIsIntersection(sets, t);
    MergeIsIntersection(sets, t - 1);
    if |sets| == 1 {
      assert Merged(sets) == sets[0];
    } else {
      InvertedExactly(sets);
      if AllGaps(sets) == [] {
        NoGapPath(sets);
        assert Merged(sets)[0] in Merged(sets);
      }
    }
    if r :| r in Merged(sets) && r.start <= t <= r.end {
      if t < r.end {
        assert Within(r, t);
      } else if r.start < t {
        assert Within(r, t - 1);
      }
    }
  }

  predicate HasOneLine(lines: seq<Timeline>, t: int) {
    |lines| == 1 && lines[0].start <= t <= lines[0].end
  }

  /** The same said of the replica sets: a single one has a timeline without length at `t`, or of several
      each has one timeline only, all of which contain `t`, one starts there and one ends there. */
  ghost predicate MeetAt(chunks: seq<OplogChunk>, t: int) {
    if |ReplsetsOf(chunks)| == 1 then
      exists rs, line ::
        rs in ReplsetsOf(chunks) && line in TimelinesOf(OwnChunks(chunks, rs)) && line.start == line.end == t
    else
      && (forall rs :: rs in ReplsetsOf(chunks) ==> HasOneLine(TimelinesOf(OwnChunks(chunks, rs)), t))
      && (exists rs :: rs in ReplsetsOf(chunks) && TimelinesOf(OwnChunks(chunks, rs))[0].start == t)
      && (exists rs :: rs in ReplsetsOf(chunks) && TimelinesOf(OwnChunks(chunks, rs))[0].end == t)
  }

  ghost predicate AllReplsetsCover(chunks: seq<OplogChunk>, x: int) {
    forall rs :: rs in ReplsetsOf(chunks) ==> Covers(TimelinesOf(OwnChunks(chunks, rs)), x)
  }

  /** A single line leads through the point `t`. */
  ghost predicate Passes(chunks: seq<OplogChunk>, t: int) {
    AllReplsetsCover(chunks, t) || AllReplsetsCover(chunks, t - 1) || MeetAt(chunks, t)
  }

  /** The sets are the timelines of the replica sets. */
  ghost predicate AreLinesOf(chunks: seq<OplogChunk>, sets: seq<seq<Timeline>>) {
    && |sets| == |ReplsetsOf(chunks)|
    && (forall rs :: rs in ReplsetsOf(chunks) ==> TimelinesOf(OwnChunks(chunks, rs)) in sets)
    && (forall lines: seq<Timeline> :: lines in sets ==>
          exists rs :: rs in ReplsetsOf(chunks) && lines == TimelinesOf(OwnChunks(chunks, rs)))
  }

  /** Of single lines, the range shrinks to the point exactly if all contain it, one starts and one ends there. */
  lemma PointOfSingles(sets: seq<seq<Timeline>>, t: int)
    requires AllWellFormed(sets) && sets != [] && forall lines: seq<Timeline> :: lines in sets ==> |lines| == 1
    ensures LatestStart(sets) == EarliestEnd(sets) == t <==>
      && (forall lines: seq<Timeline> :: lines in sets ==> HasOneLine(lines, t))
      && (exists lines: seq<Timeline> :: lines in sets && lines != [] && lines[0].start == t)
      && (exists lines: seq<Timeline> :: lines in sets && lines != [] && lines[0].end == t)
  {
    LatestStartIsMax(sets);
    EarliestEndIsMin(sets);
    assert sets[0] in sets && ProperLine(sets[0][0]);
  }

  lemma LinesNotEmpty(chunks: seq<OplogChunk>, sets: seq<seq<Timeline>>)
    requires AreLinesOf(chunks, sets)
    ensures forall lines: seq<Timeline> :: lines in sets ==> lines != []
    ensures chunks != [] ==> sets != []
  {
    forall lines: seq<Timeline> | lines in sets ensures lines != [] {
      var rs :| rs in ReplsetsOf(chunks) && lines == TimelinesOf(OwnChunks(chunks, rs));
    }
    if chunks != [] {
      assert chunks[0].rs in ReplsetsOf(chunks);
      assert TimelinesOf(OwnChunks(chunks, chunks[0].rs)) in sets;
    }
  }

  lemma PointOfOne(chunks: seq<OplogChunk>, sets: seq<seq<Timeline>>, t: int)
    requires AreLinesOf(chunks, sets) && |sets| == 1
    ensures HasPoint(sets, t) <==> MeetAt(chunks, t)
  {
    assert sets[0] in sets;
    var rs :| rs in ReplsetsOf(chunks) && sets[0] == TimelinesOf(OwnChunks(chunks, rs));
    if HasPoint(sets, t) {
      var line :| line in sets[0] && line.start == line.end == t;
      assert rs in ReplsetsOf(chunks) && line in TimelinesOf(OwnChunks(chunks, rs));
    }
  }

  lemma SeveralLinesDoNotMeet(chunks: seq<OplogChunk>, sets: seq<seq<Timeline>>, t: int)
    requires AreLinesOf(chunks, sets) && |sets| != 1
    requires exists lines: seq<Timeline> :: lines in sets && |lines| >= 2
    ensures !MeetAt(chunks, t)
  {
    var lines: seq<Timeline> :| lines in sets && |lines| >= 2;
    var rs :| rs in ReplsetsOf(chunks) && lines == TimelinesOf(OwnChunks(chunks, rs));
    assert !HasOneLine(TimelinesOf(OwnChunks(chunks, rs)), t);
  }

  lemma PointIsMeeting(chunks: seq<OplogChunk>, sets: seq<seq<Timeline>>, t: int)
    requires AreLinesOf(chunks, sets) && AllWellFormed(sets) && chunks != []
    ensures HasPoint(sets, t) <==> MeetAt(chunks, t)
  {
    LinesNotEmpty(chunks, sets);
    NoGapsMeansOneLine(sets);
    if |sets| == 1 {
      PointOfOne(chunks, sets, t);
    } else if AllGaps(sets) == [] {
      assert forall lines: seq<Timeline> :: lines in sets ==> |lines| == 1;
      PointOfSingles(sets, t);
      SinglesMeet(chunks, sets, t);
    } else {
      SeveralLinesDoNotMeet(chunks, sets, t);
    }
  }

  lemma SinglesMeet(chunks: seq<OplogChunk>, sets: seq<seq<Timeline>>, t: int)
    requires AreLinesOf(chunks, sets) && |sets| != 1 && forall lines: seq<Timeline> :: lines in sets ==> |lines| == 1
    ensures MeetAt(chunks, t) <==>
      && (forall lines: seq<Timeline> :: lines in sets ==> HasOneLine(lines, t))
      && (exists lines: seq<Timeline> :: lines in sets && lines != [] && lines[0].start == t)
      && (exists lines: seq<Timeline> :: lines in sets && lines != [] && lines[0].end == t)
  {
  }

  lemma VerdictAtPoint(chunks: seq<OplogChunk>, sets: seq<seq<Timeline>>, t: int)
    requires AreLinesOf(chunks, sets) && AllWellFormed(sets) && chunks != []
    ensures HasLine(Merged(sets), t, t) <==> Passes(chunks, t)
  {
    assert chunks[0].rs in ReplsetsOf(chunks);
    assert TimelinesOf(OwnChunks(chunks, chunks[0].rs)) in sets;
    MergedReaches(sets, t);
    PointIsMeeting(chunks, sets, t);
    CoverIsCover(chunks, sets, t);
    CoverIsCover(chunks, sets, t - 1);
  }

  lemma CoverIsCover(chunks: seq<OplogChunk>, sets: seq<seq<Timeline>>, x: int)
    requires AreLinesOf(chunks, sets)
    ensures AllCover(sets, x) <==> AllReplsetsCover(chunks, x)
  {
    LinesNotEmpty(chunks, sets);
  }

  /** Groups the chunks by replica set, keeping their order. */
  method GroupByReplset(chunks: seq<OplogChunk>) returns (rss: map<string, seq<OplogChunk>>)
    ensures rss.Keys == ReplsetsOf(chunks)
    ensures forall rs :: rs in rss ==> rss[rs] == OwnChunks(chunks, rs)
  {
    rss := map[];
    for i := 0 to |chunks|
      invariant rss.Keys == ReplsetsOf(chunks[..i])
      invariant forall rs :: rs in rss ==> rss[rs] == OwnChunks(chunks[..i], rs)
    {
      var c := chunks[i];
      assert chunks[..i + 1] == chunks[..i] + [c];
      assert ReplsetsOf(chunks[..i + 1]) == ReplsetsOf(chunks[..i]) + {c.rs};
      NoOwnChunks(chunks[..i], c.rs);
      rss := rss[c.rs := (if c.rs in rss then rss[c.rs] else []) + [c]];
    }
    assert chunks[..|chunks|] == chunks;
  }

  lemma {:induction false} NoOwnChunks(chunks: seq<OplogChunk>, rs: string)
    ensures rs !in ReplsetsOf(chunks) ==> OwnChunks(chunks, rs) == []
    decreases |chunks|
  {
    if chunks != [] {
      var n := |chunks|;
      assert chunks == chunks[..n - 1] + [chunks[n - 1]];
      NoOwnChunks(chunks[..n - 1], rs);
    }
  }

  /** The timelines of every replica set, in whatever order the map yields them. */
  method TimelinesByReplset(chunks: seq<OplogChunk>) returns (tlns: seq<seq<Timeline>>)
    ensures AreLinesOf(chunks, tlns)
  {
    var rss := GroupByReplset(chunks);
    var names := rss.Keys;
    tlns := [];
    while names != {}
      invariant names <= rss.Keys && |tlns| + |names| == |rss.Keys|
      invariant forall rs :: rs in rss.Keys - names ==> TimelinesOf(OwnChunks(chunks, rs)) in tlns
      invariant forall lines: seq<Timeline> :: lines in tlns ==>
        exists rs :: rs in rss.Keys && lines == TimelinesOf(OwnChunks(chunks, rs))
      decreases |names|
    {
      var rs :| rs in names;
      names := names - {rs};
      var lines := GetTimelines(rss[rs]);
      tlns := tlns + [lines];
    }
  }

  /** True means: every replica set of the chunks has its own unbroken chain over the whole range.
      Over a range of at least one second it is false only if some set has no such timeline; for a single
      point of time it is true exactly if a merged line passes it. */
  method HasSingleTimelineToCover(chunks: seq<OplogChunk>, from: uint32, till: uint32) returns (r: bool)
    requires ProperIndex(chunks)
    ensures chunks == [] ==> !r
    ensures r && from <= till ==>
      forall rs :: rs in ReplsetsOf(chunks) ==> SpannedByChain(OwnChunks(chunks, rs), from, till)
    ensures chunks != [] && from < till ==>
      (r <==> forall rs :: rs in ReplsetsOf(chunks) ==> HasLine(TimelinesOf(OwnChunks(chunks, rs)), from, till))
    ensures chunks != [] && from == till ==> (r <==> Passes(chunks, from))
  {
    var tlns := TimelinesByReplset(chunks);
    if chunks != [] {
      Verdict(chunks, tlns, from, till);
      VerdictAtPoint(chunks, tlns, from);
    }
    var merged := MergeTimelines(tlns);
    r := AnyLineSpans(merged, from, till);
  }

  method AnyLineSpans(lines: seq<Timeline>, from: uint32, till: uint32) returns (r: bool)
    ensures r <==> HasLine(lines, from, till)
  {
    for i := 0 to |lines|
      invariant forall k :: 0 <= k < i ==> !(lines[k].start <= from && till <= lines[k].end)
    {
      if lines[i].start <= from && till <= lines[i].end {
        assert lines[i] in lines;
        return true;
      }
    }
    r := false;
  }
}
