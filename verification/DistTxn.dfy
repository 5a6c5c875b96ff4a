/** Distributed transactions that are left open at the end of a restored oplog
    (pbm/restore/restore.go:394-420, pbm/restore/logical.go:1516-1580). Every shard publishes the last
    commits it met and, if it has leftovers, waits for what all the shards published; a leftover is
    applied when some shard committed it and all of its pieces were seen. */
module DistTxn {
  import opened Options
  import opened Timestamps
  import opened TxnReplay
  import opened TxnSpec

  // ---------------------------------------------------------------------------------------------
  // Are all the pieces there?
  // ---------------------------------------------------------------------------------------------

  /** A transaction as a server logs it: all pieces but the last announce more. */
  predicate WellSplit<Op>(es: seq<Event<Op>>, id: string) {
    && (forall i, j :: 0 <= i < j < |es| && IsPiece(es[i], id) && IsPiece(es[j], id) ==> !es[i].whole)
    && LastPieceWhole(es, id)
  }

  lemma {:induction false} LastPiece<Op>(es: seq<Event<Op>>, id: string) returns (k: nat)
    requires HasPiece(es, id)
    ensures k < |es| && IsPiece(es[k], id) && LastPieceWhole(es, id) == es[k].whole
    ensures forall j :: k < j < |es| ==> !IsPiece(es[j], id)
    decreases |es|
  {
    var n := |es| - 1;
    MembersOfLast(es, id);
    if IsPiece(es[n], id) {
      k := n;
    } else {
      k := LastPiece(es[..n], id);
      assert forall j :: 0 <= j < n ==> es[..n][j] == es[j];
    }
  }

  /** The last piece of `a + b` lies in `b` if `b` has any, and is the last one of `a` otherwise. */
  lemma {:induction false} LastPieceOfConcat<Op>(a: seq<Event<Op>>, b: seq<Event<Op>>, id: string)
    ensures LastPieceWhole(a + b, id) == LastPieceWhole(if HasPiece(b, id) then b else a, id)
    decreases |b|
  {
    if b == [] {
      assert a + b == a;
    } else {
      var b' := b[..|b| - 1];
      assert (a + b)[..|a + b| - 1] == a + b';
      LastPieceOfConcat(a, b', id);
      MembersOfLast(b, id);
    }
  }

  /** With a piece to follow, the last piece so far is not the whole. */
  lemma MoreToCome<Op>(a: seq<Event<Op>>, b: seq<Event<Op>>, id: string)
    requires WellSplit(a + b, id) && HasPiece(a, id) && HasPiece(b, id)
    ensures !LastPieceWhole(a, id)
  {
    var i := LastPiece(a, id);
    var j := LastPiece(b, id);
    assert (a + b)[i] == a[i] && (a + b)[|a| + j] == b[j];
  }

  lemma HasPieceConcat<Op>(a: seq<Event<Op>>, b: seq<Event<Op>>, id: string)
    ensures HasPiece(a + b, id) <==> HasPiece(a, id) || HasPiece(b, id)
  {
    if HasPiece(a, id) {
      var e :| e in a && IsPiece(e, id);
      assert e in a + b;
    }
    if HasPiece(b, id) {
      var e :| e in b && IsPiece(e, id);
      assert e in a + b;
    }
  }

  /** Of a whole log only `seen` was replayed. The test for "all pieces seen" looks at the last piece,
      so it finds out exactly whether pieces are missing after the replayed part. */
  lemma TestSeesMissingTail<Op>(pre: seq<Event<Op>>, seen: seq<Event<Op>>, post: seq<Event<Op>>, id: string)
    requires WellSplit(pre + seen + post, id) && HasPiece(seen, id)
    ensures LastPieceWhole(seen, id) <==> !HasPiece(post, id)
  {
    LastPieceOfConcat(pre, seen, id);
    LastPieceOfConcat(pre + seen, post, id);
    HasPieceConcat(pre, seen, id);
    if HasPiece(post, id) {
      MoreToCome(pre + seen, post, id);
    }
  }

  lemma {:induction false} OpsConcat<Op>(a: seq<Event<Op>>, b: seq<Event<Op>>, id: string)
    ensures TxnOps(a + b, id) == TxnOps(a, id) + TxnOps(b, id)
    decreases |b|
  {
    if b == [] {
      assert a + b == a;
    } else {
      var b' := b[..|b| - 1];
      assert (a + b)[..|a + b| - 1] == a + b';
      OpsConcat(a, b', id);
    }
  }

  /** The operations of a log without those of a part are all of them exactly if the rest has none. */
  lemma SameOpsExactly<Op>(pre: seq<Event<Op>>, seen: seq<Event<Op>>, id: string)
    ensures TxnOps(seen, id) == TxnOps(pre + seen, id) <==> TxnOps(pre, id) == []
  {
    OpsConcat(pre, seen, id);
    var a, b := TxnOps(pre, id), TxnOps(seen, id);
    assert |a + b| == |a| + |b|;
    assert [] + b == b;
  }

  /** What a positive test is worth: the buffered operations are the whole transaction if and only if none
      of its operations lies before the replayed part. */
  lemma WholeUnlessHeadMissing<Op>(pre: seq<Event<Op>>, seen: seq<Event<Op>>, post: seq<Event<Op>>, id: string)
    requires WellSplit(pre + seen + post, id) && HasPiece(seen, id) && LastPieceWhole(seen, id)
    ensures TxnOps(seen, id) == TxnOps(pre + seen + post, id) <==> TxnOps(pre, id) == []
  {
    TestSeesMissingTail(pre, seen, post, id);
    OpsConcat(pre + seen, post, id);
    NoPieceNoOps(post, id);
    assert TxnOps(pre + seen, id) + [] == TxnOps(pre + seen, id);
    SameOpsExactly(pre, seen, id);
  }

  /** A replay that starts between two pieces takes the rest for the whole. */
  lemma MissingHeadGoesUnnoticed<Op>(id: string, a: Op, b: Op)
    ensures var head, tail := OfTxn(id, Some([a]), false, Pending), OfTxn(id, Some([b]), true, Pending);
      && WellSplit([head] + [tail] + [], id)
      && Final(Fresh<Op>(), [tail]).txns[id] == Txn([b], true)
      && TxnOps([head] + [tail] + [], id) == [a, b]
  {
    var head, tail := OfTxn(id, Some([a]), false, Pending), OfTxn(id, Some([b]), true, Pending);
    var log := [head] + [tail] + [];
    assert log == [head, tail] && log[..1] == [head] && [head][..0] == [] && [tail][..0] == [];
    assert TxnOps([head], id) == [a];
    assert [] + [b] == [b];
  }

  // ---------------------------------------------------------------------------------------------
  // The shards
  // ---------------------------------------------------------------------------------------------

  datatype Phase =
    | Replaying
    | NotReplayed
    | Waiting(left: set<string>, known: set<string>)
    | Resolved(applied: set<string>)
    | Failed

  datatype Publication = Unpublished | Published | NotWritten

  datatype Shard = Shard(phase: Phase, publication: Publication)

  /** The oplog each shard replays. */
  type Logs<Op> = map<string, seq<Event<Op>>>

  function After<Op>(logs: Logs<Op>, k: string): Replay<Op>
    requires k in logs
  {
    Final(Fresh(), logs[k])
  }

  function CommitIds(q: seq<Commit>): set<string> {
    set c | c in q :: c.id
  }

  /** Starting the publication and looking at the leftovers follow the replay; without leftovers there
      is nothing to wait for. */
  function AfterReplay<Op>(logs: Logs<Op>, k: string): Phase
    requires k in logs
  {
    if After(logs, k).txns.Keys == {} then Phase.Resolved({}) else Waiting(logs.Keys, {})
  }

  datatype State = State(shards: map<string, Shard>)

  predicate Init<Op>(logs: Logs<Op>, s: State) {
    s.shards.Keys == logs.Keys && forall k :: k in s.shards ==> s.shards[k] == Shard(Replaying, Unpublished)
  }

  /** The publication starts after the replay and runs beside the wait. A failed one is only logged. */
  predicate Publishes(sh: Shard, sh': Shard) {
    && !sh.phase.Replaying? && !sh.phase.NotReplayed?
    && sh.publication == Unpublished
    && (sh' == sh.(publication := Published) || sh' == sh.(publication := NotWritten))
  }

  /** Shard `k` finds the publication of shard `t`. */
  predicate Hears<Op>(logs: Logs<Op>, s: State, sh: Shard, sh': Shard, t: string) {
    && sh.phase.Waiting?
    && t in sh.phase.left && t in s.shards && t in logs && s.shards[t].publication == Published
    && sh' == sh.(phase := Waiting(sh.phase.left - {t}, sh.phase.known + CommitIds(After(logs, t).commits)))
  }

  predicate Resolves<Op>(logs: Logs<Op>, k: string, sh: Shard, sh': Shard)
    requires k in logs
  {
    && sh.phase.Waiting? && sh.phase.left == {}
    && sh' == sh.(phase := Phase.Resolved(Resolvable(After(logs, k).txns, sh.phase.known)))
  }

  /** A failed replay, a lost or failed shard, or an operation that fails. */
  predicate GivesUp(sh: Shard, sh': Shard) {
    || (sh.phase.Replaying? && sh' == sh.(phase := NotReplayed))
    || (sh.phase.Waiting? && sh' == sh.(phase := Failed))
  }

  ghost predicate ShardStep<Op>(logs: Logs<Op>, s: State, k: string, sh: Shard, sh': Shard)
    requires k in logs
  {
    || (sh.phase.Replaying? && sh' == sh.(phase := AfterReplay(logs, k)))
    || Publishes(sh, sh')
    || (exists t :: Hears(logs, s, sh, sh', t))
    || Resolves(logs, k, sh, sh')
    || GivesUp(sh, sh')
  }

  ghost predicate StepOf<Op>(logs: Logs<Op>, s: State, s': State, k: string) {
    && k in logs && k in s.shards
    && s'.shards.Keys == s.shards.Keys
    && ShardStep(logs, s, k, s.shards[k], s'.shards[k])
    && forall m :: m in s.shards && m != k ==> s'.shards[m] == s.shards[m]
  }

  ghost predicate Next<Op>(logs: Logs<Op>, s: State, s': State) {
    exists k :: StepOf(logs, s, s', k)
  }

  ghost predicate IsRun<Op>(logs: Logs<Op>, run: seq<State>) {
    run != [] && Init(logs, run[0]) && forall i :: 0 < i < |run| ==> Next(logs, run[i - 1], run[i])
  }

  // --- what a shard applies --------------------------------------------------------------------

  /** Some shard among `from` met the commit among its last 100. */
  ghost predicate CommittedIn<Op>(logs: Logs<Op>, from: set<string>, id: string) {
    exists t :: t in from && t in logs && id in CommitIds(After(logs, t).commits)
  }

  ghost predicate ShardOk<Op>(logs: Logs<Op>, s: State, k: string, sh: Shard)
    requires k in logs
  {
    match sh.phase
    case Waiting(left, known) =>
      && left <= logs.Keys
      && (forall id :: id in known <==> CommittedIn(logs, logs.Keys - left, id))
      && (forall t :: t in logs.Keys - left && t in s.shards ==> s.shards[t].publication == Published)
    case Resolved(applied) =>
      forall id :: id in applied <==>
        id in After(logs, k).txns && After(logs, k).txns[id].allOps && CommittedIn(logs, logs.Keys, id)
    case _ => true
  }

  ghost predicate Inv<Op>(logs: Logs<Op>, s: State) {
    s.shards.Keys == logs.Keys && forall k :: k in s.shards ==> ShardOk(logs, s, k, s.shards[k])
  }

  lemma HearsKeeps<Op>(logs: Logs<Op>, s: State, k: string, sh: Shard, sh': Shard, t: string)
    requires k in logs && s.shards.Keys == logs.Keys && ShardOk(logs, s, k, sh) && Hears(logs, s, sh, sh', t)
    ensures ShardOk(logs, s, k, sh')
  {
    var left, left' := sh.phase.left, sh'.phase.left;
    assert logs.Keys - left' == (logs.Keys - left) + {t};
    forall id ensures id in sh'.phase.known <==> CommittedIn(logs, logs.Keys - left', id) {
      if CommittedIn(logs, logs.Keys - left, id) {
        var u :| u in logs.Keys - left && id in CommitIds(After(logs, u).commits);
        assert u in logs.Keys - left';
      }
      if id in CommitIds(After(logs, t).commits) {
        assert t in logs.Keys - left';
      }
    }
  }

  lemma StepKeeps<Op>(logs: Logs<Op>, s: State, k: string, sh: Shard, sh': Shard)
    requires k in logs && s.shards.Keys == logs.Keys && ShardOk(logs, s, k, sh)
    requires ShardStep(logs, s, k, sh, sh')
    ensures ShardOk(logs, s, k, sh')
  {
    if t :| Hears(logs, s, sh, sh', t) {
      HearsKeeps(logs, s, k, sh, sh', t);
    } else if Resolves(logs, k, sh, sh') {
      assert logs.Keys - {} == logs.Keys;
    } else if sh.phase.Replaying? && sh' == sh.(phase := AfterReplay(logs, k)) {
      assert logs.Keys - logs.Keys == {};
    }
  }

  lemma NextKeepsInv<Op>(logs: Logs<Op>, s: State, s': State)
    requires Inv(logs, s) && Next(logs, s, s')
    ensures Inv(logs, s')
  {
    var k :| StepOf(logs, s, s', k);
    StepKeeps(logs, s, k, s.shards[k], s'.shards[k]);
    forall t | t in s.shards ensures s.shards[t].publication == Published ==> s'.shards[t].publication == Published {
    }
    forall m | m in s'.shards ensures ShardOk(logs, s', m, s'.shards[m]) {
      assert ShardOk(logs, s, m, s'.shards[m]);
    }
  }

  lemma RunPrefix<Op>(logs: Logs<Op>, run: seq<State>)
    requires IsRun(logs, run) && |run| > 1
    ensures IsRun(logs, run[..|run| - 1]) && Next(logs, run[|run| - 2], run[|run| - 1])
  {
    var before := run[..|run| - 1];
    forall i | 0 < i < |before| ensures Next(logs, before[i - 1], before[i]) {
      assert before[i - 1] == run[i - 1] && before[i] == run[i];
    }
  }

  lemma {:induction false} RunsKeepInv<Op>(logs: Logs<Op>, run: seq<State>)
    requires IsRun(logs, run)
    ensures Inv(logs, run[|run| - 1])
    decreases |run|
  {
    if |run| > 1 {
      RunPrefix(logs, run);
      RunsKeepInv(logs, run[..|run| - 1]);
      NextKeepsInv(logs, run[|run| - 2], run[|run| - 1]);
    }
  }

  /** In every run a leftover is applied if and only if its last piece seen is the last one and some
      shard, itself or another, has its commit among the last 100. */
  lemma AppliedExactly<Op>(logs: Logs<Op>, run: seq<State>, k: string, id: string)
    requires IsRun(logs, run)
    requires k in run[|run| - 1].shards && run[|run| - 1].shards[k].phase.Resolved? && k in logs
    ensures id in run[|run| - 1].shards[k].phase.applied <==>
      id in After(logs, k).txns && After(logs, k).txns[id].allOps && CommittedIn(logs, logs.Keys, id)
  {
    RunsKeepInv(logs, run);
    assert ShardOk(logs, run[|run| - 1], k, run[|run| - 1].shards[k]);
  }

  predicate IsReplayed(sh: Shard) {
    !sh.phase.Replaying? && !sh.phase.NotReplayed?
  }

  ghost predicate PublishedLate(s: State) {
    forall k :: k in s.shards && s.shards[k].publication != Unpublished ==> IsReplayed(s.shards[k])
  }

  lemma NextPublishesLate<Op>(logs: Logs<Op>, s: State, s': State)
    requires PublishedLate(s) && Next(logs, s, s')
    ensures PublishedLate(s')
  {
    var k :| StepOf(logs, s, s', k);
    var sh' := s'.shards[k];
    if sh'.publication != Unpublished {
      assert sh'.phase != NotReplayed;
    }
  }

  /** In every run only a shard that has replayed its whole log publishes its commits. */
  lemma {:induction false} PublishedAfterReplay<Op>(logs: Logs<Op>, run: seq<State>)
    requires IsRun(logs, run)
    ensures PublishedLate(run[|run| - 1])
    decreases |run|
  {
    if |run| > 1 {
      RunPrefix(logs, run);
      PublishedAfterReplay(logs, run[..|run| - 1]);
      NextPublishesLate(logs, run[|run| - 2], run[|run| - 1]);
    }
  }

  lemma LastNSubset<T>(s: seq<T>, n: nat, x: T)
    requires x in LastN(s, n)
    ensures x in s
  {
  }

  /** Said about the logs: what a shard applies after the replay was left open by its own log and
      committed by the log of some shard. */
  lemma NothingUncommittedApplied<Op>(logs: Logs<Op>, run: seq<State>, k: string, id: string)
    requires IsRun(logs, run) && forall t :: t in logs ==> Settled(logs[t])
    requires k in run[|run| - 1].shards && run[|run| - 1].shards[k].phase.Resolved? && k in logs
    requires id in run[|run| - 1].shards[k].phase.applied
    ensures Open(logs[k], id) && LastPieceWhole(logs[k], id)
    ensures exists t :: t in logs && exists c :: c in DistCommits(logs[t]) && c.id == id
  {
    AppliedExactly(logs, run, k, id);
    ReplayMeetsSpec(logs[k]);
    var t :| t in logs.Keys && t in logs && id in CommitIds(After(logs, t).commits);
    ReplayMeetsSpec(logs[t]);
    var c :| c in After(logs, t).commits && c.id == id;
    LastNSubset(DistCommits(logs[t]), SAVE_LAST_DIST_TXNS, c);
  }

  // --- nobody waits for ever -------------------------------------------------------------------

  predicate HasFailed(sh: Shard) {
    sh.phase.Failed? || sh.phase.NotReplayed? || sh.publication == NotWritten
  }

  predicate NoFailure(s: State) {
    forall k :: k in s.shards ==> !HasFailed(s.shards[k])
  }

  predicate AllResolved(s: State) {
    forall k :: k in s.shards ==> s.shards[k].phase.Resolved? && s.shards[k].publication == Published
  }

  /** The next failure-free step of shard `k`, if it depends on nobody. */
  function OwnStep<Op>(logs: Logs<Op>, k: string, sh: Shard): Shard
    requires k in logs
  {
    if sh.phase.Replaying? then sh.(phase := AfterReplay(logs, k))
    else if sh.publication == Unpublished then sh.(publication := Published)
    else if sh.phase.Waiting? && sh.phase.left == {} then
      sh.(phase := Phase.Resolved(Resolvable(After(logs, k).txns, sh.phase.known)))
    else sh
  }

  function Put(s: State, k: string, sh: Shard): State {
    State(s.shards[k := sh])
  }

  lemma OwnStepIsStep<Op>(logs: Logs<Op>, s: State, k: string)
    requires k in logs && k in s.shards && OwnStep(logs, k, s.shards[k]) != s.shards[k]
    requires !s.shards[k].phase.NotReplayed?
    ensures Next(logs, s, Put(s, k, OwnStep(logs, k, s.shards[k])))
    ensures NoFailure(s) ==> NoFailure(Put(s, k, OwnStep(logs, k, s.shards[k])))
  {
    assert StepOf(logs, s, Put(s, k, OwnStep(logs, k, s.shards[k])), k);
  }

  /** What can go wrong at any time: the replay, the wait, or the writing of what is published. */
  lemma EachCanFail<Op>(logs: Logs<Op>, s: State, k: string)
    requires k in logs && k in s.shards
    ensures var sh := s.shards[k];
      && (sh.phase.Replaying? ==> Next(logs, s, Put(s, k, sh.(phase := NotReplayed))))
      && (sh.phase.Waiting? ==> Next(logs, s, Put(s, k, sh.(phase := Failed))))
      && (IsReplayed(sh) && sh.publication == Unpublished ==> Next(logs, s, Put(s, k, sh.(publication := NotWritten))))
  {
    var sh := s.shards[k];
    assert sh.phase.Replaying? ==> StepOf(logs, s, Put(s, k, sh.(phase := NotReplayed)), k);
    assert sh.phase.Waiting? ==> StepOf(logs, s, Put(s, k, sh.(phase := Failed)), k);
    assert IsReplayed(sh) && sh.publication == Unpublished ==>
      StepOf(logs, s, Put(s, k, sh.(publication := NotWritten)), k);
  }

  function Heard<Op>(logs: Logs<Op>, sh: Shard, t: string): Shard
    requires sh.phase.Waiting? && t in logs
  {
    sh.(phase := Waiting(sh.phase.left - {t}, sh.phase.known + CommitIds(After(logs, t).commits)))
  }

  lemma HearsIsStep<Op>(logs: Logs<Op>, s: State, k: string, t: string)
    requires k in logs && k in s.shards && s.shards[k].phase.Waiting? && t in s.shards[k].phase.left
    requires t in logs && t in s.shards && s.shards[t].publication == Published
    ensures Next(logs, s, Put(s, k, Heard(logs, s.shards[k], t)))
    ensures NoFailure(s) ==> NoFailure(Put(s, k, Heard(logs, s.shards[k], t)))
  {
    var s' := Put(s, k, Heard(logs, s.shards[k], t));
    assert Hears(logs, s, s.shards[k], s'.shards[k], t);
    assert StepOf(logs, s, s', k);
  }

  /** As long as nothing failed and somebody is not finished, there is a step to take that is not a
      failure: the wait of one shard never keeps another from publishing. */
  lemma NeverStuck<Op>(logs: Logs<Op>, s: State) returns (s': State)
    requires Inv(logs, s) && NoFailure(s) && !AllResolved(s)
    ensures Next(logs, s, s') && NoFailure(s')
  {
    var k :| k in s.shards && !(s.shards[k].phase.Resolved? && s.shards[k].publication == Published);
    var sh := s.shards[k];
    assert ShardOk(logs, s, k, sh) && !HasFailed(sh);
    if OwnStep(logs, k, sh) != sh {
      OwnStepIsStep(logs, s, k);
      s' := Put(s, k, OwnStep(logs, k, sh));
    } else {
      var t :| t in sh.phase.left;
      assert !HasFailed(s.shards[t]);
      if s.shards[t].publication == Published {
        HearsIsStep(logs, s, k, t);
        s' := Put(s, k, Heard(logs, sh, t));
      } else {
        OwnStepIsStep(logs, s, t);
        s' := Put(s, t, OwnStep(logs, t, s.shards[t]));
      }
    }
  }

  // --- how far a shard has to go ---------------------------------------------------------------

  /** Steps a shard of a cluster of `n` may still take. */
  function Work(sh: Shard, n: nat): nat {
    (match sh.phase
     case Replaying => n + 2
     case Waiting(left, _) => |left| + 1
     case _ => 0)
    + if sh.publication == Unpublished then 1 else 0
  }

  ghost function TotalWork(s: State, keys: set<string>, n: nat): nat
    requires keys <= s.shards.Keys
    decreases keys
  {
    if keys == {} then 0
    else
      var k :| k in keys;
      Work(s.shards[k], n) + TotalWork(s, keys - {k}, n)
  }

  lemma {:induction false} TotalSplits(s: State, keys: set<string>, n: nat, k: string)
    requires keys <= s.shards.Keys && k in keys
    ensures TotalWork(s, keys, n) == Work(s.shards[k], n) + TotalWork(s, keys - {k}, n)
    decreases keys
  {
    var j :| j in keys && TotalWork(s, keys, n) == Work(s.shards[j], n) + TotalWork(s, keys - {j}, n);
    if j != k {
      TotalSplits(s, keys - {j}, n, k);
      TotalSplits(s, keys - {k}, n, j);
      assert keys - {j} - {k} == keys - {k} - {j};
    }
  }

  lemma {:induction false} TotalSame(s: State, s': State, keys: set<string>, n: nat)
    requires keys <= s.shards.Keys && keys <= s'.shards.Keys && forall k :: k in keys ==> s'.shards[k] == s.shards[k]
    ensures TotalWork(s', keys, n) == TotalWork(s, keys, n)
    decreases keys
  {
    if keys != {} {
      var k :| k in keys;
      TotalSplits(s, keys, n, k);
      TotalSplits(s', keys, n, k);
      TotalSame(s, s', keys - {k}, n);
    }
  }

  lemma ShardWorkFalls<Op>(logs: Logs<Op>, s: State, k: string, sh: Shard, sh': Shard)
    requires k in logs && ShardStep(logs, s, k, sh, sh') && !HasFailed(sh')
    ensures Work(sh', |logs.Keys|) < Work(sh, |logs.Keys|)
  {
    if t :| Hears(logs, s, sh, sh', t) {
      assert sh.phase.left == sh'.phase.left + {t};
    }
  }

  /** Every step that is not a failure leaves less to do. */
  lemma WorkFalls<Op>(logs: Logs<Op>, s: State, s': State)
    requires s.shards.Keys == logs.Keys && Next(logs, s, s') && NoFailure(s')
    ensures s'.shards.Keys == logs.Keys
    ensures TotalWork(s', logs.Keys, |logs.Keys|) < TotalWork(s, logs.Keys, |logs.Keys|)
  {
    var k :| StepOf(logs, s, s', k);
    var n := |logs.Keys|;
    ShardWorkFalls(logs, s, k, s.shards[k], s'.shards[k]);
    TotalSplits(s, logs.Keys, n, k);
    TotalSplits(s', logs.Keys, n, k);
    TotalSame(s, s', logs.Keys - {k}, n);
  }

  lemma {:induction false} WorkAtStart<Op>(logs: Logs<Op>, s: State, keys: set<string>)
    requires Init(logs, s) && keys <= logs.Keys
    ensures TotalWork(s, keys, |logs.Keys|) == |keys| * (|logs.Keys| + 3)
    decreases keys
  {
    if keys != {} {
      var k :| k in keys;
      TotalSplits(s, keys, |logs.Keys|, k);
      WorkAtStart(logs, s, keys - {k});
      assert |keys| == |keys - {k}| + 1;
    }
  }

  ghost predicate IsFreeRun<Op>(logs: Logs<Op>, run: seq<State>) {
    IsRun(logs, run) && forall i :: 0 <= i < |run| ==> NoFailure(run[i])
  }

  lemma {:induction false} FreeRunWork<Op>(logs: Logs<Op>, run: seq<State>)
    requires IsFreeRun(logs, run)
    ensures var n, last := |logs.Keys|, run[|run| - 1];
      last.shards.Keys == logs.Keys && |run| - 1 + TotalWork(last, logs.Keys, n) <= n * (n + 3)
    decreases |run|
  {
    if |run| == 1 {
      WorkAtStart(logs, run[0], logs.Keys);
    } else {
      RunPrefix(logs, run);
      var before := run[..|run| - 1];
      forall i | 0 <= i < |before| ensures NoFailure(before[i]) {
        assert before[i] == run[i];
      }
      FreeRunWork(logs, before);
      WorkFalls(logs, run[|run| - 2], run[|run| - 1]);
    }
  }

  /** A run without failures is no longer than the cluster allows, and when it cannot go on every shard has
      published and resolved its leftovers. */
  lemma FreeRunsFinish<Op>(logs: Logs<Op>, run: seq<State>)
    requires IsFreeRun(logs, run)
    ensures |run| <= 1 + |logs.Keys| * (|logs.Keys| + 3)
    ensures (forall s' :: Next(logs, run[|run| - 1], s') ==> !NoFailure(s')) ==> AllResolved(run[|run| - 1])
  {
    FreeRunWork(logs, run);
    RunsKeepInv(logs, run);
    if !AllResolved(run[|run| - 1]) {
      var s' := NeverStuck(logs, run[|run| - 1]);
    }
  }

  // --- what a failure does to the others -------------------------------------------------------

  ghost predicate IsContinuation<Op>(logs: Logs<Op>, run: seq<State>) {
    run != [] && forall i :: 0 < i < |run| ==> Next(logs, run[i - 1], run[i])
  }

  /** Its publication failed, or its replay did before there was anything to publish. */
  predicate CannotPublish(sh: Shard) {
    sh.publication == NotWritten || (sh.publication == Unpublished && sh.phase.NotReplayed?)
  }

  predicate WaitsFor(s: State, k: string, t: string) {
    k in s.shards && s.shards[k].phase.Waiting? && t in s.shards[k].phase.left
  }

  lemma ContinuationPrefix<Op>(logs: Logs<Op>, run: seq<State>)
    requires IsContinuation(logs, run) && |run| > 1
    ensures IsContinuation(logs, run[..|run| - 1]) && Next(logs, run[|run| - 2], run[|run| - 1])
  {
    var before := run[..|run| - 1];
    forall i | 0 < i < |before| ensures Next(logs, before[i - 1], before[i]) {
      assert before[i - 1] == run[i - 1] && before[i] == run[i];
    }
  }

  lemma StaysBlocked<Op>(logs: Logs<Op>, s: State, s': State, k: string, t: string)
    requires Next(logs, s, s') && k in s.shards && t in s.shards && CannotPublish(s.shards[t])
    requires WaitsFor(s, k, t) || s.shards[k].phase.Failed?
    ensures k in s'.shards && t in s'.shards && CannotPublish(s'.shards[t])
    ensures WaitsFor(s', k, t) || s'.shards[k].phase.Failed?
  {
    var m :| StepOf(logs, s, s', m);
  }

  /** A shard that waits for one that cannot publish resolves its leftovers in no continuation: it waits, or
      it gives up. */
  lemma {:induction false} LostPublicationBlocks<Op>(logs: Logs<Op>, run: seq<State>, k: string, t: string)
    requires IsContinuation(logs, run) && WaitsFor(run[0], k, t) && t in run[0].shards
    requires CannotPublish(run[0].shards[t])
    ensures var last := run[|run| - 1];
      && k in last.shards && t in last.shards && CannotPublish(last.shards[t])
      && (WaitsFor(last, k, t) || last.shards[k].phase.Failed?)
    decreases |run|
  {
    if |run| > 1 {
      ContinuationPrefix(logs, run);
      LostPublicationBlocks(logs, run[..|run| - 1], k, t);
      StaysBlocked(logs, run[|run| - 2], run[|run| - 1], k, t);
    }
  }

  lemma Continues<Op>(logs: Logs<Op>, run: seq<State>, s': State)
    requires IsContinuation(logs, run) && Next(logs, run[|run| - 1], s')
    ensures IsContinuation(logs, run + [s'])
  {
    var longer := run + [s'];
    forall i | 0 < i < |longer| ensures Next(logs, longer[i - 1], longer[i]) {
      assert i < |run| ==> longer[i - 1] == run[i - 1] && longer[i] == run[i];
    }
  }

  /** Nothing stands in the way of shard `k`. */
  ghost predicate CanHearAll<Op>(logs: Logs<Op>, s: State, k: string) {
    && s.shards.Keys == logs.Keys && k in s.shards && s.shards[k].phase.Waiting? && s.shards[k].phase.left <= logs.Keys
    && forall t :: t in s.shards[k].phase.left ==> !CannotPublish(s.shards[t])
  }

  /** Shard `t` replays its oplog, if it has not yet, and publishes. */
  lemma GetsPublished<Op>(logs: Logs<Op>, run0: seq<State>, k: string, t: string) returns (run: seq<State>)
    requires IsContinuation(logs, run0) && CanHearAll(logs, run0[|run0| - 1], k)
    requires t in run0[|run0| - 1].shards[k].phase.left
    ensures IsContinuation(logs, run) && run[0] == run0[0] && CanHearAll(logs, run[|run| - 1], k)
    ensures run[|run| - 1].shards[k].phase == run0[|run0| - 1].shards[k].phase
    ensures run[|run| - 1].shards[t].publication == Published
  {
    run := run0;
    var s := run[|run| - 1];
    if s.shards[t].publication != Published && s.shards[t].phase.Replaying? {
      OwnStepIsStep(logs, s, t);
      Continues(logs, run, Put(s, t, OwnStep(logs, t, s.shards[t])));
      s := Put(s, t, OwnStep(logs, t, s.shards[t]));
      run := run + [s];
    }
    if s.shards[t].publication != Published {
      OwnStepIsStep(logs, s, t);
      Continues(logs, run, Put(s, t, OwnStep(logs, t, s.shards[t])));
      run := run + [Put(s, t, OwnStep(logs, t, s.shards[t]))];
    }
  }

  lemma {:induction false} GetsResolved<Op>(logs: Logs<Op>, run0: seq<State>, k: string) returns (run: seq<State>)
    requires IsContinuation(logs, run0) && CanHearAll(logs, run0[|run0| - 1], k)
    ensures IsContinuation(logs, run) && run[0] == run0[0]
    ensures k in run[|run| - 1].shards && run[|run| - 1].shards[k].phase.Resolved?
    decreases run0[|run0| - 1].shards[k].phase.left
  {
    var left := run0[|run0| - 1].shards[k].phase.left;
    if left == {} {
      run := Finishes(logs, run0, k);
    } else {
      var t :| t in left;
      run := GetsPublished(logs, run0, k, t);
      var s := run[|run| - 1];
      HearsIsStep(logs, s, k, t);
      Continues(logs, run, Put(s, k, Heard(logs, s.shards[k], t)));
      run := run + [Put(s, k, Heard(logs, s.shards[k], t))];
      run := GetsResolved(logs, run, k);
    }
  }

  lemma Finishes<Op>(logs: Logs<Op>, run0: seq<State>, k: string) returns (run: seq<State>)
    requires IsContinuation(logs, run0) && CanHearAll(logs, run0[|run0| - 1], k)
    requires run0[|run0| - 1].shards[k].phase.left == {}
    ensures IsContinuation(logs, run) && run[0] == run0[0]
    ensures k in run[|run| - 1].shards && run[|run| - 1].shards[k].phase.Resolved?
  {
    var s := run0[|run0| - 1];
    var sh := s.shards[k];
    var s' := Put(s, k, sh.(phase := Phase.Resolved(Resolvable(After(logs, k).txns, sh.phase.known))));
    assert Resolves(logs, k, sh, s'.shards[k]);
    assert StepOf(logs, s, s', k);
    Continues(logs, run0, s');
    run := run0 + [s'];
  }

  ghost predicate ResolvesIn<Op>(logs: Logs<Op>, s: State, run: seq<State>, k: string) {
    && IsContinuation(logs, run) && run[0] == s
    && var last := run[|run| - 1];
      k in last.shards && last.shards[k].phase.Resolved?
  }

  /** A waiting shard can still resolve its leftovers if and only if every shard it waits for can publish. */
  lemma ResolvesExactly<Op>(logs: Logs<Op>, s: State, k: string)
    requires Inv(logs, s) && k in s.shards && s.shards[k].phase.Waiting?
    ensures (exists run: seq<State> :: ResolvesIn(logs, s, run, k)) <==>
      forall t :: t in s.shards[k].phase.left ==> t in s.shards && !CannotPublish(s.shards[t])
  {
    assert ShardOk(logs, s, k, s.shards[k]);
    if forall t :: t in s.shards[k].phase.left ==> !CannotPublish(s.shards[t]) {
      var run := GetsResolved(logs, [s], k);
      assert ResolvesIn(logs, s, run, k);
    } else {
      var t :| t in s.shards[k].phase.left && CannotPublish(s.shards[t]);
      forall run: seq<State> | IsContinuation(logs, run) && run[0] == s ensures !ResolvesIn(logs, s, run, k) {
        LostPublicationBlocks(logs, run, k, t);
      }
    }
  }
}
