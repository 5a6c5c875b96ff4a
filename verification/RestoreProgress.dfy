/** What the restore protocol can always still do (pbm/restore/physical.go): as long as nothing has
    failed, however the agents were interleaved, the run can go on until every node holds the restored
    data; and an agent that fails can always report it and leave. */
module RestoreProgress {
  import opened RestoreProtocol

  // ---------------------------------------------------------------------------------------------
  // Runs without a failure
  // ---------------------------------------------------------------------------------------------

  ghost predicate HasPrimary(c: Cluster, rs: string) {
    exists n :: n in c.primaries && n.rs == rs && c.Member(n)
  }

  /** Every replica set has a primary among its members, and one of the replica sets leads. */
  ghost predicate IsComplete(c: Cluster) {
    c.leadRs in c.peers && forall rs :: rs in c.peers ==> HasPrimary(c, rs)
  }

  /** The agent has met no failure, has found none, and leaves only when it is done. */
  predicate NothingFailed(st: NodeState) {
    match st.phase
    case StateFailed(_) | StateFailedCluster(_) | MarkingNode | MarkingReplset | MarkingCluster | Crashed => false
    case Waiting(_, w) => !w.curErr
    case ReadingError | ReadingDone | ReadingPartlyDone | CheckingHeartbeat => st.finished
    case Cleaning(seen) => st.finished && seen == Done
    case Closed(seen) => st.finished && seen == Done
    case _ => true
  }

  ghost predicate WentWell(c: Cluster, run: seq<State>) {
    IsRun(c, run) && forall s, n :: s in run && n in s.nodes ==> NothingFailed(s.nodes[n])
  }

  function Last(run: seq<State>): State
    requires run != []
  {
    run[|run| - 1]
  }

  // --- how far an agent is ---------------------------------------------------------------------

  function Base(status: Status): int {
    match status
    case Starting => 1
    case Running => 7
    case _ => 16
  }

  function WritesAt(level: Level): int {
    match level
    case ForNode => 0
    case ForReplset => 2
    case ForCluster => 4
  }

  function WaitsAt(level: Level): int {
    match level
    case ForReplset => 1
    case ForCluster => 3
    case ForNode => 5
  }

  const END := 28

  function Pos(st: NodeState): int {
    match st.phase
    case Writing(level, status, _) => Base(status) + WritesAt(level)
    case Waiting(level, w) => Base(w.status) + WaitsAt(level)
    case Flushing => 13
    case Flushed => 14
    case Copying => 15
    case Converged => 22
    case ReadingPartlyDone => 23
    case CheckingHeartbeat => 24
    case ReadingError => 25
    case ReadingDone => 26
    case Cleaning(_) => 27
    case Closed(_) => END
    case _ => 0
  }

  /** Whether the agent takes part in agreeing on a status for its replica set, and for the cluster. */
  predicate AgreesForSet(c: Cluster, n: Node, status: Status) {
    n in c.primaries || status == Done
  }

  predicate AgreesForCluster(c: Cluster, n: Node, status: Status) {
    c.IsClusterLeader(n) || status == Done
  }

  /** The files that an agent at `pos` has seen written, of one status. */
  predicate HasSet(c: Cluster, n: Node, files: set<File>, pos: int, status: Status) {
    && (pos > Base(status) ==> File(OfNode(n), status) in files)
    && (pos > Base(status) + 2 && AgreesForSet(c, n, status) ==> File(OfReplset(n.rs), status) in files)
    && (pos > Base(status) + 4 && AgreesForCluster(c, n, status) ==> File(OfCluster, status) in files)
  }

  predicate HasSetAll(c: Cluster, n: Node, files: set<File>, pos: int) {
    HasSet(c, n, files, pos, Starting) && HasSet(c, n, files, pos, Running) && HasSet(c, n, files, pos, Done)
  }

  predicate OnTrack(c: Cluster, n: Node, st: NodeState) {
    match st.phase
    case Writing(level, status, outcome) =>
      && outcome == status && IsGoal(status)
      && (level == ForReplset ==> AgreesForSet(c, n, status))
      && (level == ForCluster ==> AgreesForCluster(c, n, status))
    case Waiting(level, w) =>
      && w.ret == w.status && IsGoal(w.status)
      && (level == ForReplset ==> AgreesForSet(c, n, w.status))
      && (level == ForCluster ==> AgreesForCluster(c, n, w.status))
    case _ => true
  }

  predicate IsHealthy(c: Cluster, n: Node, files: set<File>, st: NodeState) {
    NothingFailed(st) && OnTrack(c, n, st) && HasSetAll(c, n, files, Pos(st))
  }

  predicate OnlyGoals(files: set<File>) {
    forall f :: f in files ==> IsGoal(f.status)
  }

  ghost predicate AllHealthy(c: Cluster, s: State) {
    Inv(c, s) && OnlyGoals(s.files) && forall n :: n in s.nodes ==> IsHealthy(c, n, s.files, s.nodes[n])
  }

  // --- every step without a failure keeps it -----------------------------------------------------

  lemma WritingStaysHealthy(c: Cluster, n: Node, files: set<File>, st: NodeState, files': set<File>, st': NodeState)
    requires IsHealthy(c, n, files, st) && st.phase.Writing? && OnlyGoals(files)
    requires StepWriting(c, n, files, st, files', st') && NothingFailed(st')
    ensures IsHealthy(c, n, files', st') && OnlyGoals(files')
  {
    assert AgreesForCluster(c, n, st.phase.status) ==> AgreesForSet(c, n, st.phase.status);
  }

  lemma WaitingStaysHealthy(c: Cluster, n: Node, files: set<File>, st: NodeState, files': set<File>, st': NodeState)
    requires IsHealthy(c, n, files, st) && st.phase.Waiting? && OnlyGoals(files)
    requires NodeOk(c, n, files, st)
    requires StepWaiting(files, st, files', st') && NothingFailed(st')
    ensures IsHealthy(c, n, files', st') && OnlyGoals(files')
  {
  }

  lemma StepStaysHealthy(c: Cluster, n: Node, files: set<File>, st: NodeState, files': set<File>, st': NodeState)
    requires IsHealthy(c, n, files, st) && OnlyGoals(files) && NodeOk(c, n, files, st)
    requires NodeStep(c, n, files, st, files', st') && NothingFailed(st')
    ensures IsHealthy(c, n, files', st') && OnlyGoals(files')
  {
    match st.phase
    case Writing(_, _, _) => WritingStaysHealthy(c, n, files, st, files', st');
    case Waiting(_, _) => WaitingStaysHealthy(c, n, files, st, files', st');
    case _ =>
  }

  lemma NextStaysHealthy(c: Cluster, s: State, s': State)
    requires AllHealthy(c, s) && Next(c, s, s')
    requires forall n :: n in s'.nodes ==> NothingFailed(s'.nodes[n])
    ensures AllHealthy(c, s')
  {
    NextKeepsInv(c, s, s');
    var n :| n in s.nodes && Moves(c, n, s, s');
    StepStaysHealthy(c, n, s.files, s.nodes[n], s'.files, s'.nodes[n]);
  }

  lemma {:induction false} WellRunsAreHealthy(c: Cluster, run: seq<State>)
    requires WentWell(c, run)
    ensures AllHealthy(c, Last(run))
    decreases |run|
  {
    if |run| == 1 {
      InitInv(c, run[0]);
    } else {
      RunPrefix(c, run);
      var before := run[..|run| - 1];
      assert Last(run) in run;
      WellRunsAreHealthy(c, before);
      NextStaysHealthy(c, Last(before), Last(run));
    }
  }

  // --- some agent can always go on -------------------------------------------------------------

  predicate HasLeft(st: NodeState) {
    st.phase.Closed?
  }

  /** Nothing keeps the agent: it does not wait, or all it waits for is there. */
  predicate IsFree(files: set<File>, st: NodeState) {
    !HasLeft(st) && (st.phase.Waiting? ==> AllWrote(files, st.phase.wait.objs, st.phase.wait.status))
  }

  predicate WaitsWith(st: NodeState, status: Status) {
    st.phase.Waiting? && st.phase.wait.status == status
  }

  /** All who have not left wait, and none for an earlier status. */
  ghost predicate AllWaitFrom(s: State, status: Status) {
    forall n :: n in s.nodes ==> HasLeft(s.nodes[n]) || (s.nodes[n].phase.Waiting? && Pos(s.nodes[n]) > Base(status))
  }

  ghost predicate SomeWaitsAt(s: State, status: Status, level: Level) {
    exists n :: n in s.nodes && WaitsWith(s.nodes[n], status) && s.nodes[n].phase.level == level
  }

  lemma WaitsForPeers(c: Cluster, s: State, status: Status, n: Node)
    requires AllHealthy(c, s) && IsGoal(status) && AllWaitFrom(s, status)
    requires n in s.nodes && WaitsWith(s.nodes[n], status) && s.nodes[n].phase.level == ForReplset
    ensures IsFree(s.files, s.nodes[n])
  {
    forall o | o in c.PeerObjs(n.rs) ensures File(o, status) in s.files {
      var m := o.node;
      assert m in s.nodes && IsHealthy(c, m, s.files, s.nodes[m]);
    }
    assert NodeOk(c, n, s.files, s.nodes[n]);
  }

  lemma WaitsForShards(c: Cluster, s: State, status: Status, n: Node)
    requires IsComplete(c) && AllHealthy(c, s) && IsGoal(status) && AllWaitFrom(s, status)
    requires !SomeWaitsAt(s, status, ForReplset)
    requires n in s.nodes && WaitsWith(s.nodes[n], status) && s.nodes[n].phase.level == ForCluster
    ensures IsFree(s.files, s.nodes[n])
  {
    forall o | o in c.ShardObjs() ensures File(o, status) in s.files {
      assert HasPrimary(c, o.rs);
      var m :| m in c.primaries && m.rs == o.rs && c.Member(m);
      assert m in s.nodes && IsHealthy(c, m, s.files, s.nodes[m]);
      PastTheSet(s, status, m);
    }
    assert NodeOk(c, n, s.files, s.nodes[n]);
  }

  lemma PastTheSet(s: State, status: Status, m: Node)
    requires IsGoal(status) && AllWaitFrom(s, status) && m in s.nodes && !SomeWaitsAt(s, status, ForReplset)
    requires s.nodes[m].phase.Waiting? ==> IsGoal(s.nodes[m].phase.wait.status)
    ensures Pos(s.nodes[m]) > Base(status) + 2
  {
    assert WaitsWith(s.nodes[m], status) ==> s.nodes[m].phase.level != ForReplset;
  }

  lemma LeaderHasWritten(c: Cluster, s: State, status: Status)
    requires IsComplete(c) && AllHealthy(c, s) && IsGoal(status) && AllWaitFrom(s, status)
    requires !SomeWaitsAt(s, status, ForReplset) && !SomeWaitsAt(s, status, ForCluster)
    ensures File(OfCluster, status) in s.files
  {
    assert HasPrimary(c, c.leadRs);
    var m :| m in c.primaries && m.rs == c.leadRs && c.Member(m);
    assert m in s.nodes && IsHealthy(c, m, s.files, s.nodes[m]);
    PastTheSet(s, status, m);
    assert WaitsWith(s.nodes[m], status) ==> s.nodes[m].phase.level != ForCluster;
  }

  lemma WaitsForCluster(c: Cluster, s: State, status: Status, n: Node)
    requires IsComplete(c) && AllHealthy(c, s) && IsGoal(status) && AllWaitFrom(s, status)
    requires !SomeWaitsAt(s, status, ForReplset) && !SomeWaitsAt(s, status, ForCluster)
    requires n in s.nodes && WaitsWith(s.nodes[n], status)
    ensures IsFree(s.files, s.nodes[n])
  {
    LeaderHasWritten(c, s, status);
    assert s.nodes[n].phase.level == ForNode;
    WaitsForOne(c, n, s.files, s.nodes[n]);
  }

  lemma WaitsForOne(c: Cluster, n: Node, files: set<File>, st: NodeState)
    requires NodeOk(c, n, files, st) && st.phase.Waiting? && st.phase.level == ForNode
    ensures st.phase.wait.objs <= {OfCluster}
  {
  }

  /** Among those who wait for the earliest status, one is free. */
  lemma EarliestIsFree(c: Cluster, s: State, status: Status, n: Node) returns (free: Node)
    requires IsComplete(c) && AllHealthy(c, s) && IsGoal(status) && AllWaitFrom(s, status)
    requires n in s.nodes && WaitsWith(s.nodes[n], status)
    ensures free in s.nodes && IsFree(s.files, s.nodes[free])
  {
    if SomeWaitsAt(s, status, ForReplset) {
      free :| free in s.nodes && WaitsWith(s.nodes[free], status) && s.nodes[free].phase.level == ForReplset;
      WaitsForPeers(c, s, status, free);
    } else if SomeWaitsAt(s, status, ForCluster) {
      free :| free in s.nodes && WaitsWith(s.nodes[free], status) && s.nodes[free].phase.level == ForCluster;
      WaitsForShards(c, s, status, free);
    } else {
      free := n;
      WaitsForCluster(c, s, status, free);
    }
  }

  ghost predicate AllWait(s: State) {
    forall n :: n in s.nodes ==> HasLeft(s.nodes[n]) || s.nodes[n].phase.Waiting?
  }

  ghost predicate NoneWaitsWith(s: State, status: Status) {
    forall n :: n in s.nodes ==> !WaitsWith(s.nodes[n], status)
  }

  lemma AllWaitFromEarliest(c: Cluster, s: State, status: Status)
    requires AllHealthy(c, s) && AllWait(s) && IsGoal(status)
    requires status != Starting ==> NoneWaitsWith(s, Starting)
    requires status == Done ==> NoneWaitsWith(s, Running)
    ensures AllWaitFrom(s, status)
  {
    forall n | n in s.nodes && s.nodes[n].phase.Waiting? ensures Pos(s.nodes[n]) > Base(status) {
      assert IsHealthy(c, n, s.files, s.nodes[n]);
    }
  }

  lemma EarliestWaits(c: Cluster, s: State, n: Node) returns (status: Status, m: Node)
    requires AllHealthy(c, s) && AllWait(s) && n in s.nodes && !HasLeft(s.nodes[n])
    ensures IsGoal(status) && m in s.nodes && WaitsWith(s.nodes[m], status)
    ensures status != Starting ==> NoneWaitsWith(s, Starting)
    ensures status == Done ==> NoneWaitsWith(s, Running)
  {
    if !NoneWaitsWith(s, Starting) {
      status := Starting;
      m :| m in s.nodes && WaitsWith(s.nodes[m], Starting);
    } else if !NoneWaitsWith(s, Running) {
      status := Running;
      m :| m in s.nodes && WaitsWith(s.nodes[m], Running);
    } else {
      assert IsHealthy(c, n, s.files, s.nodes[n]);
      status, m := Done, n;
    }
  }

  /** There is no deadlock: unless all have left, one agent is free to move. */
  lemma SomeoneIsFree(c: Cluster, s: State, n: Node) returns (free: Node)
    requires IsComplete(c) && AllHealthy(c, s) && n in s.nodes && !HasLeft(s.nodes[n])
    ensures free in s.nodes && IsFree(s.files, s.nodes[free])
  {
    if m :| m in s.nodes && !HasLeft(s.nodes[m]) && !s.nodes[m].phase.Waiting? {
      free := m;
    } else {
      var status, m := EarliestWaits(c, s, n);
      AllWaitFromEarliest(c, s, status);
      free := EarliestIsFree(c, s, status, m);
    }
  }

  // --- and comes further -----------------------------------------------------------------------

  /** The stations each agent has still before it. */
  function Todo(s: State): set<(Node, int)> {
    set n, k | n in s.nodes && 0 <= k <= END && Pos(s.nodes[n]) < k :: (n, k)
  }

  ghost predicate OnlyMoves(n: Node, s: State, s': State) {
    s'.nodes.Keys == s.nodes.Keys && forall m :: m in s.nodes && m != n ==> s'.nodes[m] == s.nodes[m]
  }

  /** The run continued by one step of one agent. */
  lemma Goes(c: Cluster, run: seq<State>, n: Node, files': set<File>, st': NodeState) returns (run': seq<State>)
    requires IsRun(c, run) && n in Last(run).nodes
    requires NodeStep(c, n, Last(run).files, Last(run).nodes[n], files', st')
    ensures IsRun(c, run') && |run'| == |run| + 1 && run == run'[..|run|]
    ensures Last(run').files == files' && Last(run').nodes == Last(run).nodes[n := st']
  {
    var s' := State(files', Last(run).nodes[n := st']);
    run' := run + [s'];
    assert Moves(c, n, Last(run), s');
    forall i | 0 < i < |run'| ensures Next(c, run'[i - 1], run'[i]) {
      if i < |run| {
        assert run'[i - 1] == run[i - 1] && run'[i] == run[i];
      }
    }
  }

  lemma OneStep(c: Cluster, run: seq<State>, n: Node, files': set<File>, st': NodeState) returns (run': seq<State>)
    requires WentWell(c, run) && n in Last(run).nodes
    requires NodeStep(c, n, Last(run).files, Last(run).nodes[n], files', st') && NothingFailed(st')
    ensures WentWell(c, run') && run <= run'
    ensures Last(run').files == files' && Last(run').nodes == Last(run).nodes[n := st']
  {
    run' := Goes(c, run, n, files', st');
    assert Last(run) in run && run' == run + [Last(run')];
  }

  /** The agent looks at everything it waits for. */
  lemma {:induction false} LooksAtAll(c: Cluster, run: seq<State>, n: Node) returns (run': seq<State>)
    requires WentWell(c, run) && n in Last(run).nodes
    requires Last(run).nodes[n].phase.Waiting? && IsFree(Last(run).files, Last(run).nodes[n])
    ensures WentWell(c, run') && run <= run' && n in Last(run').nodes
    ensures var st, st' := Last(run).nodes[n], Last(run').nodes[n];
      st'.phase.Waiting? && Pos(st') == Pos(st) && st'.phase.wait.objs == {}
    ensures OnlyMoves(n, Last(run), Last(run'))
    decreases Last(run).nodes[n].phase.wait.objs
  {
    var files, st := Last(run).files, Last(run).nodes[n];
    var w := st.phase.wait;
    if w.objs == {} {
      run' := run;
    } else {
      var o :| o in w.objs;
      assert File(o, w.status) in files && MaySee(files, o, w.status, SawStatus);
      var st' := LookStep(st, st.phase.level, w, o, SawStatus);
      assert Last(run) in run;
      var next := OneStep(c, run, n, files, st');
      assert Last(next).nodes[n].phase.wait.objs == w.objs - {o};
      run' := LooksAtAll(c, next, n);
    }
  }

  /** The next step of an agent that does not wait and meets no failure. */
  lemma GoesOn(c: Cluster, n: Node, files: set<File>, st: NodeState) returns (files': set<File>, st': NodeState)
    requires IsHealthy(c, n, files, st) && NodeOk(c, n, files, st)
    requires !HasLeft(st) && !st.phase.Waiting?
    ensures NodeStep(c, n, files, st, files', st') && NothingFailed(st') && Pos(st') > Pos(st)
  {
    files' := files;
    match st.phase
    case Init => st' := st.(phase := Writing(ForNode, Starting, Starting));
    case Writing(level, status, outcome) =>
      files' := files + {File(Target(n, level), outcome)};
      st' := st.(phase := NextInToState(c, n, level, status));
    case Flushing =>
      st' := NodeState(Flushed, true, st.finished, Empty, if n in c.fallback then st.dbpath else st.fallbackDir);
    case Flushed => st' := st.(phase := Copying, dbpath := HalfRestored);
    case Copying => st' := st.(phase := Writing(ForNode, Done, Done), dbpath := Restored, finished := true);
    case Converged => st' := st.(phase := ReadingError);
    case ReadingPartlyDone => st' := st.(phase := CheckingHeartbeat);
    case CheckingHeartbeat => st' := st.(phase := ReadingError);
    case ReadingError => st' := st.(phase := ReadingDone);
    case ReadingDone => st' := st.(phase := Cleaning(Done));
    case _ =>
      st' := st.(phase := Closed(Done), fallbackDir := if n in c.fallback then Empty else st.fallbackDir);
  }

  /** A wait that has seen everything ends with the status that was waited for. */
  lemma WaitEnds(c: Cluster, n: Node, files: set<File>, st: NodeState) returns (st': NodeState)
    requires IsHealthy(c, n, files, st) && st.phase.Waiting?
    requires st.phase.wait.objs == {} && st.phase.wait.total != {}
    ensures NodeStep(c, n, files, st, files, st') && NothingFailed(st') && Pos(st') > Pos(st)
  {
    var Waiting(level, w) := st.phase;
    st' := st.(phase := VerdictStep(level, w));
  }

  lemma AwaitsSome(c: Cluster, n: Node, files: set<File>, st: NodeState)
    requires IsComplete(c) && c.Member(n) && NodeOk(c, n, files, st) && st.phase.Waiting?
    ensures st.phase.wait.total != {}
  {
    match st.phase.level
    case ForNode => assert OfCluster in st.phase.wait.total;
    case ForReplset => assert OfNode(n) in c.PeerObjs(n.rs);
    case ForCluster => assert OfReplset(c.leadRs) in c.ShardObjs();
  }

  lemma LessTodo(s: State, s': State, n: Node)
    requires OnlyMoves(n, s, s') && n in s.nodes && Pos(s'.nodes[n]) > Pos(s.nodes[n])
    ensures Todo(s') < Todo(s)
  {
    var k := Pos(s'.nodes[n]);
    assert 0 <= Pos(s.nodes[n]) && k <= END;
    assert (n, k) in Todo(s) && (n, k) !in Todo(s');
    forall m, j | (m, j) in Todo(s') ensures (m, j) in Todo(s) {
    }
  }

  lemma LastIsHealthy(c: Cluster, run: seq<State>, n: Node)
    requires WentWell(c, run) && n in Last(run).nodes
    ensures IsHealthy(c, n, Last(run).files, Last(run).nodes[n]) && NodeOk(c, n, Last(run).files, Last(run).nodes[n])
    ensures c.Member(n)
  {
    WellRunsAreHealthy(c, run);
  }

  lemma EndsItsWait(c: Cluster, run: seq<State>, n: Node) returns (run': seq<State>)
    requires IsComplete(c) && WentWell(c, run) && n in Last(run).nodes
    requires Last(run).nodes[n].phase.Waiting? && Last(run).nodes[n].phase.wait.objs == {}
    ensures WentWell(c, run') && run <= run' && OnlyMoves(n, Last(run), Last(run'))
    ensures Pos(Last(run').nodes[n]) > Pos(Last(run).nodes[n])
  {
    LastIsHealthy(c, run, n);
    var s := Last(run);
    AwaitsSome(c, n, s.files, s.nodes[n]);
    var st' := WaitEnds(c, n, s.files, s.nodes[n]);
    run' := OneStep(c, run, n, s.files, st');
  }

  lemma WaiterComesFurther(c: Cluster, run: seq<State>, n: Node) returns (run': seq<State>)
    requires IsComplete(c) && WentWell(c, run) && n in Last(run).nodes
    requires Last(run).nodes[n].phase.Waiting? && IsFree(Last(run).files, Last(run).nodes[n])
    ensures WentWell(c, run') && run <= run' && Todo(Last(run')) < Todo(Last(run))
  {
    var looked := LooksAtAll(c, run, n);
    run' := EndsItsWait(c, looked, n);
    LessTodo(Last(run), Last(run'), n);
  }

  lemma MoverComesFurther(c: Cluster, run: seq<State>, n: Node) returns (run': seq<State>)
    requires WentWell(c, run) && n in Last(run).nodes
    requires !Last(run).nodes[n].phase.Waiting? && !HasLeft(Last(run).nodes[n])
    ensures WentWell(c, run') && run <= run' && Todo(Last(run')) < Todo(Last(run))
  {
    LastIsHealthy(c, run, n);
    var s := Last(run);
    var files', st' := GoesOn(c, n, s.files, s.nodes[n]);
    run' := OneStep(c, run, n, files', st');
    LessTodo(s, Last(run'), n);
  }

  /** A free agent comes further. */
  lemma ComesFurther(c: Cluster, run: seq<State>, n: Node) returns (run': seq<State>)
    requires IsComplete(c) && WentWell(c, run)
    requires n in Last(run).nodes && IsFree(Last(run).files, Last(run).nodes[n])
    ensures WentWell(c, run') && run <= run' && Todo(Last(run')) < Todo(Last(run))
  {
    if Last(run).nodes[n].phase.Waiting? {
      run' := WaiterComesFurther(c, run, n);
    } else {
      run' := MoverComesFurther(c, run, n);
    }
  }

  /** Every agent has left with the cluster done, the restored data and no fallback copy. */
  ghost predicate AllRestored(c: Cluster, s: State) {
    forall n :: n in s.nodes ==>
      && s.nodes[n].phase == Closed(Done)
      && s.nodes[n].dbpath == Restored
      && (n in c.fallback ==> s.nodes[n].fallbackDir == Empty)
  }

  lemma AllLeftIsRestored(c: Cluster, s: State)
    requires AllHealthy(c, s) && forall n :: n in s.nodes ==> HasLeft(s.nodes[n])
    ensures AllRestored(c, s)
  {
    forall n | n in s.nodes ensures s.nodes[n].dbpath == Restored && s.nodes[n].phase == Closed(Done) {
      assert IsHealthy(c, n, s.files, s.nodes[n]) && NodeOk(c, n, s.files, s.nodes[n]);
    }
  }

  predicate NoTrouble(files: set<File>) {
    forall f :: f in files ==> f.status != Error && f.status != PartlyDone
  }

  /** Whatever the agents did so far and in whatever order: if nothing has failed, the run can go on to
      its good end, with no error and no partial success reported anywhere. */
  lemma {:induction false} CanStillSucceed(c: Cluster, run: seq<State>) returns (run': seq<State>)
    requires IsComplete(c) && WentWell(c, run)
    ensures IsRun(c, run') && run <= run' && AllRestored(c, Last(run')) && NoTrouble(Last(run').files)
    decreases Todo(Last(run))
  {
    WellRunsAreHealthy(c, run);
    if n :| n in Last(run).nodes && !HasLeft(Last(run).nodes[n]) {
      var free := SomeoneIsFree(c, Last(run), n);
      var next := ComesFurther(c, run, free);
      run' := CanStillSucceed(c, next);
    } else {
      run' := run;
      AllLeftIsRestored(c, Last(run));
    }
  }

  // ---------------------------------------------------------------------------------------------
  // Runs with failures
  // ---------------------------------------------------------------------------------------------

  /** How many steps away from leaving an agent is that gives up. */
  function Away(st: NodeState): nat {
    match st.phase
    case Closed(_) => 0
    case Cleaning(_) => 1
    case CheckingHeartbeat => 2
    case ReadingPartlyDone => 3
    case ReadingDone => 4
    case ReadingError => 5
    case MarkingCluster => 6
    case MarkingReplset => 7
    case MarkingNode => 8
    case StateFailedCluster(_) => 9
    case StateFailed(_) => 10
    case _ => 11
  }

  predicate IsAtWork(st: NodeState) {
    match st.phase
    case Init | Writing(_, _, _) | Waiting(_, _) | Flushing | Flushed | Copying | Converged => true
    case _ => false
  }

  predicate AllPeersFailed(c: Cluster, n: Node, files: set<File>) {
    AllWrote(files, c.PeerObjs(n.rs), Error)
  }

  predicate SomeSetFailed(c: Cluster, files: set<File>) {
    exists rs :: rs in c.peers && File(OfReplset(rs), Error) in files
  }

  /** The agent marks itself; its replica set if all members have failed; and from the leading replica set
      also the cluster, if some replica set has. */
  predicate HasMarked(c: Cluster, n: Node, files: set<File>, st: NodeState) {
    && (Away(st) < 8 ==> File(OfNode(n), Error) in files)
    && (Away(st) < 7 && AllPeersFailed(c, n, files) ==> File(OfReplset(n.rs), Error) in files)
    && (Away(st) < 6 && n.rs == c.leadRs && SomeSetFailed(c, files) ==> File(OfCluster, Error) in files)
  }

  /** A step towards leaving, with an error found. */
  lemma GivesUp(c: Cluster, n: Node, files: set<File>, st: NodeState) returns (files': set<File>, st': NodeState)
    requires c.Member(n) && st.phase != Crashed && !HasLeft(st)
    ensures NodeStep(c, n, files, st, files', st') && st'.phase != Crashed && Away(st') < Away(st)
    ensures IsLeaving(c, n, files, st, files', st')
  {
    files' := files;
    match st.phase
    case Writing(_, status, _) => st' := st.(phase := StateFailed(status));
    case Waiting(_, w) => st' := st.(phase := StateFailed(w.status));
    case StateFailed(status) => st' := st.(phase := StateFailedCluster(status));
    case MarkingNode =>
      files', st' := files + {File(OfNode(n), Error)}, st.(phase := MarkingReplset);
    case MarkingReplset =>
      st' := st.(phase := MarkingCluster);
      if AllPeersFailed(c, n, files) {
        files' := files + {File(OfReplset(n.rs), Error)};
      }
    case MarkingCluster =>
      st' := st.(phase := ReadingError);
      if n.rs == c.leadRs && SomeSetFailed(c, files) {
        files' := files + {File(OfCluster, Error)};
      }
    case ReadingError => st' := st.(phase := ReadingDone);
    case ReadingDone => st' := st.(phase := ReadingPartlyDone);
    case ReadingPartlyDone => st' := st.(phase := CheckingHeartbeat);
    case CheckingHeartbeat => st' := st.(phase := Cleaning(Error));
    case Cleaning(seen) =>
      var dbpath := match CleanupOf(c, n, seen, st)
        case SkipCleanup => st.dbpath
        case FullCleanup => Empty
        case FallbackCleanup => st.fallbackDir;
      st' := st.(
        phase := Closed(seen), dbpath := dbpath, fallbackDir := if n in c.fallback then Empty else st.fallbackDir);
    case _ => st' := st.(phase := MarkingNode);
  }

  /** From `st` towards leaving: an error once found stays, and so does what is marked. */
  predicate IsLeaving(c: Cluster, n: Node, files: set<File>, st: NodeState, files': set<File>, st': NodeState) {
    && st'.phase != Crashed
    && (Away(st) > 1 && Away(st') <= 1 ==> SeenOf(st') == Error)
    && (Away(st) <= 1 ==> SeenOf(st') == SeenOf(st))
    && (HasMarked(c, n, files, st) ==> HasMarked(c, n, files', st'))
  }

  function SeenOf(st: NodeState): Status {
    match st.phase
    case Cleaning(seen) => seen
    case Closed(seen) => seen
    case _ => Error
  }

  lemma LeavesFurther(c: Cluster, run: seq<State>, n: Node) returns (run': seq<State>)
    requires IsRun(c, run) && n in Last(run).nodes && c.Member(n)
    requires Last(run).nodes[n].phase != Crashed && !HasLeft(Last(run).nodes[n])
    ensures IsRun(c, run') && run <= run' && OnlyMoves(n, Last(run), Last(run'))
    ensures Away(Last(run').nodes[n]) < Away(Last(run).nodes[n])
    ensures IsLeaving(c, n, Last(run).files, Last(run).nodes[n], Last(run').files, Last(run').nodes[n])
  {
    var s := Last(run);
    var files', st' := GivesUp(c, n, s.files, s.nodes[n]);
    run' := Goes(c, run, n, files', st');
  }

  lemma {:induction false} Leaves(c: Cluster, run: seq<State>, n: Node) returns (run': seq<State>)
    requires IsRun(c, run) && n in Last(run).nodes && c.Member(n) && Last(run).nodes[n].phase != Crashed
    ensures IsRun(c, run') && run <= run' && OnlyMoves(n, Last(run), Last(run')) && HasLeft(Last(run').nodes[n])
    ensures IsLeaving(c, n, Last(run).files, Last(run).nodes[n], Last(run').files, Last(run').nodes[n])
    decreases Away(Last(run).nodes[n])
  {
    if HasLeft(Last(run).nodes[n]) {
      run' := run;
    } else {
      var next := LeavesFurther(c, run, n);
      run' := Leaves(c, next, n);
    }
  }

  /** An agent can fail whatever it is doing. It then marks itself, its replica set if all of its members
      have failed, and from the leading replica set also the cluster if some replica set has; it leaves, and
      its data is whole or gone. */
  lemma CanFailAndReport(c: Cluster, run: seq<State>, n: Node) returns (run': seq<State>)
    requires IsRun(c, run) && n in Last(run).nodes && IsAtWork(Last(run).nodes[n])
    ensures IsRun(c, run') && run <= run' && OnlyMoves(n, Last(run), Last(run'))
    ensures Last(run').nodes[n].phase == Closed(Error) && Last(run').nodes[n].dbpath != HalfRestored
    ensures var files := Last(run').files;
      && File(OfNode(n), Error) in files
      && (AllPeersFailed(c, n, files) ==> File(OfReplset(n.rs), Error) in files)
      && (n.rs == c.leadRs && SomeSetFailed(c, files) ==> File(OfCluster, Error) in files)
  {
    RunsKeepInv(c, run);
    run' := Leaves(c, run, n);
    NoHalfRestoredNode(c, run', n);
  }

  lemma CanDie(c: Cluster, run: seq<State>, n: Node) returns (run': seq<State>)
    requires IsRun(c, run) && n in Last(run).nodes && !HasLeft(Last(run).nodes[n])
    requires Last(run).nodes[n].phase != Crashed
    ensures IsRun(c, run') && run <= run' && OnlyMoves(n, Last(run), Last(run'))
    ensures Last(run').nodes[n] == Last(run).nodes[n].(phase := Crashed)
  {
    run' := Goes(c, run, n, Last(run).files, Last(run).nodes[n].(phase := Crashed));
  }

  function StillHere(s: State): set<Node> {
    set n | n in s.nodes && !HasLeft(s.nodes[n]) && s.nodes[n].phase != Crashed
  }

  ghost predicate AllGone(s: State) {
    forall n :: n in s.nodes ==>
      s.nodes[n].phase == Crashed || (HasLeft(s.nodes[n]) && s.nodes[n].dbpath != HalfRestored)
  }

  /** Whatever has failed and whoever has died: all others can still leave, none with half of the data. */
  lemma {:induction false} AllCanLeave(c: Cluster, run: seq<State>) returns (run': seq<State>)
    requires IsRun(c, run)
    ensures IsRun(c, run') && run <= run' && AllGone(Last(run'))
    decreases StillHere(Last(run))
  {
    RunsKeepInv(c, run);
    if n :| n in StillHere(Last(run)) {
      var next := Leaves(c, run, n);
      OneLess(Last(run), Last(next), n);
      run' := AllCanLeave(c, next);
    } else {
      run' := run;
      forall n | n in Last(run).nodes && HasLeft(Last(run).nodes[n]) ensures Last(run).nodes[n].dbpath != HalfRestored {
        NoHalfRestoredNode(c, run, n);
      }
      assert forall n :: n in Last(run).nodes ==> n !in StillHere(Last(run));
    }
  }

  lemma OneLess(s: State, s': State, n: Node)
    requires OnlyMoves(n, s, s') && n in StillHere(s) && HasLeft(s'.nodes[n])
    ensures StillHere(s') < StillHere(s)
  {
    assert n !in StillHere(s');
    forall m | m in StillHere(s') ensures m in StillHere(s) {
    }
  }

  // --- and an error is never reported for others -------------------------------------------------

  /** Where an agent stands that may write this error file: each for itself, for its own replica set after
      a failure of its own, and for the cluster only a member of the leading replica set. */
  predicate MayMark(c: Cluster, n: Node, files: set<File>, st: NodeState, o: Obj) {
    match o
    case OfNode(m) => m == n && st.phase.MarkingNode?
    case OfReplset(rs) =>
      rs == n.rs && (st.phase.MarkingReplset? || (st.phase.StateFailed? && st.phase.status != Done && n in c.primaries))
    case OfCluster =>
      n.rs == c.leadRs &&
      (|| (st.phase.MarkingCluster? && SomeSetFailed(c, files))
       || (n in c.primaries && st.phase.StateFailedCluster? && st.phase.status != Done)
       || (n in c.primaries && n in c.fallback && FallsBack(c, n, st)))
  }

  /** The agent gives up what it restored for the copy it kept. */
  predicate FallsBack(c: Cluster, n: Node, st: NodeState) {
    && st.phase.Cleaning? && st.started
    && (st.phase.seen == Error || (st.phase.seen == PartlyDone && n !in c.allowPartlyDone))
  }

  predicate IsMarkedBy(c: Cluster, s: State, n: Node, o: Obj) {
    n in s.nodes && MayMark(c, n, s.files, s.nodes[n], o)
  }

  lemma ErrorsAreMarkedBy(c: Cluster, s: State, s': State, o: Obj)
    requires Next(c, s, s') && File(o, Error) in s'.files && File(o, Error) !in s.files
    requires forall n :: n in s.nodes && s.nodes[n].phase.Writing? ==> s.nodes[n].phase.outcome != Error
    ensures exists n :: IsMarkedBy(c, s, n, o)
  {
    var n :| n in s.nodes && Moves(c, n, s, s');
    assert IsMarkedBy(c, s, n, o);
  }

  /** In every run, whoever reported an error was in the position to. */
  lemma {:induction false} ErrorsHaveAuthors(c: Cluster, run: seq<State>, o: Obj)
    requires IsRun(c, run) && File(o, Error) in Last(run).files
    ensures exists s, n :: s in run && IsMarkedBy(c, s, n, o)
    decreases |run|
  {
    if |run| > 1 {
      RunPrefix(c, run);
      var before := run[..|run| - 1];
      if File(o, Error) in Last(before).files {
        ErrorsHaveAuthors(c, before, o);
      } else {
        RunsKeepInv(c, before);
        OutcomesAreGoals(c, Last(before));
        ErrorsAreMarkedBy(c, Last(before), Last(run), o);
        assert Last(before) in run;
      }
    }
  }

  lemma OutcomesAreGoals(c: Cluster, s: State)
    requires Inv(c, s)
    ensures forall n :: n in s.nodes && s.nodes[n].phase.Writing? ==> s.nodes[n].phase.outcome != Error
  {
  }
}
