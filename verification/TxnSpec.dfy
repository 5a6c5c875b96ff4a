/** What replay of an oplog must apply, said without a buffer, and the proof that the step-by-step
    replay applies exactly that. */
module TxnSpec {
  import opened Options
  import opened Timestamps
  import opened TxnReplay

  // ---------------------------------------------------------------------------------------------
  // The specification
  // ---------------------------------------------------------------------------------------------

  predicate OfId<Op>(e: Event<Op>, id: string) {
    e.OfTxn? && e.id == id
  }

  predicate IsPiece<Op>(e: Event<Op>, id: string) {
    OfId(e, id) && e.data.Some?
  }

  /** All inner operations of transaction `id`, in the order of the log. */
  function TxnOps<Op>(es: seq<Event<Op>>, id: string): seq<Op> {
    if es == [] then []
    else
      var e := es[|es| - 1];
      TxnOps(es[..|es| - 1], id) + if IsPiece(e, id) then e.data.value else []
  }

  /** Every committed transaction contributes all its operations, in one block, where it commits. */
  function Applied<Op>(es: seq<Event<Op>>): seq<Op> {
    if es == [] then []
    else
      Applied(es[..|es| - 1]) +
      match es[|es| - 1]
      case Skipped => []
      case Single(op) => [op]
      case OfTxn(id, _, _, fate) => if fate.Committed? then TxnOps(es, id) else []
  }

  /** A transaction has no new entries after its commit or abort. */
  predicate Settled<Op>(es: seq<Event<Op>>) {
    forall i, j :: 0 <= i < j < |es| && es[i].OfTxn? && es[j].OfTxn? && es[i].id == es[j].id ==> es[i].fate.Pending?
  }

  ghost predicate Resolved<Op>(es: seq<Event<Op>>, id: string) {
    exists e :: e in es && OfId(e, id) && !e.fate.Pending?
  }

  ghost predicate HasPiece<Op>(es: seq<Event<Op>>, id: string) {
    exists e :: e in es && IsPiece(e, id)
  }

  /** Some of the transaction was seen, and neither a commit nor an abort. */
  ghost predicate Open<Op>(es: seq<Event<Op>>, id: string) {
    HasPiece(es, id) && !Resolved(es, id)
  }

  /** The last piece seen of the transaction announces no further piece. */
  predicate LastPieceWhole<Op>(es: seq<Event<Op>>, id: string) {
    es != [] &&
    var e := es[|es| - 1];
    if IsPiece(e, id) then e.whole else LastPieceWhole(es[..|es| - 1], id)
  }

  /** The commits of distributed transactions, in the order of the log. */
  function DistCommits<Op>(es: seq<Event<Op>>): seq<Commit> {
    if es == [] then []
    else
      var e := es[|es| - 1];
      DistCommits(es[..|es| - 1]) +
      if e.OfTxn? && e.fate.Committed? && e.fate.distributed then [Commit(e.id, e.fate.ctime)] else []
  }

  function LastN<T>(s: seq<T>, n: nat): seq<T> {
    if |s| <= n then s else s[|s| - n..]
  }

  // ---------------------------------------------------------------------------------------------
  // The replay as a whole
  // ---------------------------------------------------------------------------------------------

  function Fresh<Op>(): Replay<Op> {
    Replay(map[], [])
  }

  function Final<Op>(r: Replay<Op>, es: seq<Event<Op>>): Replay<Op> {
    if es == [] then r else Next(Final(r, es[..|es| - 1]), es[|es| - 1])
  }

  function Outs<Op>(r: Replay<Op>, es: seq<Event<Op>>): seq<Op> {
    if es == [] then []
    else
      var before := es[..|es| - 1];
      Outs(r, before) + Out(Final(r, before), es[|es| - 1])
  }

  /** Handling the events one by one applies the operations they give out, up to the first failure. */
  lemma {:induction false} HandleAllRuns<DB, Op>(
    exec: (DB, Op) -> Option<DB>, r: Replay<Op>, db: DB, es: seq<Event<Op>>)
    ensures var s := HandleAll(exec, Site(r, db, true), es);
      && (s.db, s.ok) == RunOps(exec, db, Outs(r, es))
      && (s.ok ==> s.replay == Final(r, es))
    decreases |es|
  {
    if es != [] {
      var before := es[..|es| - 1];
      HandleAllRuns(exec, r, db, before);
      RunOpsConcat(exec, db, Outs(r, before), Out(Final(r, before), es[|es| - 1]));
    }
  }

  // ---------------------------------------------------------------------------------------------
  // Refinement
  // ---------------------------------------------------------------------------------------------

  /** The buffer holds exactly the operations of the unresolved transactions. */
  ghost predicate Tracks<Op>(txns: map<string, Txn<Op>>, es: seq<Event<Op>>) {
    forall id ::
      && (id in txns <==> Open(es, id))
      && (id in txns ==> txns[id] == Txn(TxnOps(es, id), LastPieceWhole(es, id)))
  }

  lemma SettledPrefix<Op>(es: seq<Event<Op>>)
    requires Settled(es) && es != []
    ensures Settled(es[..|es| - 1])
    ensures es[|es| - 1].OfTxn? ==> !Resolved(es[..|es| - 1], es[|es| - 1].id)
  {
  }

  lemma MembersOfLast<Op>(es: seq<Event<Op>>, id: string)
    requires es != []
    ensures HasPiece(es, id) <==> HasPiece(es[..|es| - 1], id) || IsPiece(es[|es| - 1], id)
    ensures Resolved(es, id) <==>
      Resolved(es[..|es| - 1], id) || (OfId(es[|es| - 1], id) && !es[|es| - 1].fate.Pending?)
  {
    var before, last := es[..|es| - 1], es[|es| - 1];
    assert es == before + [last];
    assert forall e :: e in before ==> e in es;
  }

  lemma {:induction false} NoPieceNoOps<Op>(es: seq<Event<Op>>, id: string)
    requires !HasPiece(es, id)
    ensures TxnOps(es, id) == [] && !LastPieceWhole(es, id)
    decreases |es|
  {
    if es != [] {
      MembersOfLast(es, id);
      NoPieceNoOps(es[..|es| - 1], id);
    }
  }

  /** Buffering one more event keeps the buffer exact, as long as the event resolves nothing. */
  lemma BufferedTracks<Op>(txns: map<string, Txn<Op>>, es: seq<Event<Op>>, id: string)
    requires es != [] && es[|es| - 1].OfTxn? && Settled(es)
    requires Tracks(txns, es[..|es| - 1])
    ensures var b := Buffered(txns, es[|es| - 1]);
      && (id in b <==> HasPiece(es, id) && !Resolved(es[..|es| - 1], id))
      && (id in b ==> b[id] == Txn(TxnOps(es, id), LastPieceWhole(es, id)))
  {
    var before, e := es[..|es| - 1], es[|es| - 1];
    SettledPrefix(es);
    MembersOfLast(es, id);
    if id !in txns && !Resolved(before, id) {
      NoPieceNoOps(before, id);
    }
  }

  lemma NextTracks<Op>(r: Replay<Op>, es: seq<Event<Op>>)
    requires es != [] && Settled(es) && Tracks(r.txns, es[..|es| - 1])
    requires es[|es| - 1].OfTxn? ==> !IsRepeat(r.commits, es[|es| - 1].id)
    ensures Tracks(Next(r, es[|es| - 1]).txns, es)
  {
    var before, e := es[..|es| - 1], es[|es| - 1];
    forall id
      ensures id in Next(r, e).txns <==> Open(es, id)
      ensures id in Next(r, e).txns ==> Next(r, e).txns[id] == Txn(TxnOps(es, id), LastPieceWhole(es, id))
    {
      MembersOfLast(es, id);
      if e.OfTxn? {
        BufferedTracks(r.txns, es, id);
      }
    }
  }

  lemma {:induction false} CommitsAreResolved<Op>(es: seq<Event<Op>>, c: Commit)
    requires c in DistCommits(es)
    ensures Resolved(es, c.id)
    decreases |es|
  {
    MembersOfLast(es, c.id);
    if c in DistCommits(es[..|es| - 1]) {
      CommitsAreResolved(es[..|es| - 1], c);
    }
  }

  /** The queue holds the last of everything pushed. */
  lemma PushedIsLastN(all: seq<Commit>, v: Commit, capacity: nat)
    requires 0 < capacity
    ensures Pushed(LastN(all, capacity), v, capacity) == LastN(all + [v], capacity)
  {
  }

  lemma OutMeetsSpec<Op>(r: Replay<Op>, es: seq<Event<Op>>)
    requires es != [] && Settled(es) && Tracks(r.txns, es[..|es| - 1])
    requires es[|es| - 1].OfTxn? ==> !IsRepeat(r.commits, es[|es| - 1].id)
    ensures Applied(es) == Applied(es[..|es| - 1]) + Out(r, es[|es| - 1])
  {
    var e := es[|es| - 1];
    if e.OfTxn? && e.fate.Committed? {
      SettledPrefix(es);
      BufferedTracks(r.txns, es, e.id);
      if !HasPiece(es, e.id) {
        NoPieceNoOps(es, e.id);
      }
    }
  }

  /** Replay refines the specification: it applies exactly the specified operations in that order,
      its buffer holds exactly the unresolved transactions, and its queue the last 100 commits. */
  lemma {:induction false} ReplayMeetsSpec<Op>(es: seq<Event<Op>>)
    requires Settled(es)
    ensures Outs(Fresh(), es) == Applied(es)
    ensures Tracks(Final(Fresh(), es).txns, es)
    ensures Final(Fresh(), es).commits == LastN(DistCommits(es), SAVE_LAST_DIST_TXNS)
    decreases |es|
  {
    if es != [] {
      var before, e := es[..|es| - 1], es[|es| - 1];
      SettledPrefix(es);
      ReplayMeetsSpec(before);
      var r := Final(Fresh(), before);
      if e.OfTxn? {
        NotARepeat(r.commits, before, e.id);
        var commit := Commit(e.id, if e.fate.Committed? then e.fate.ctime else ZeroTS);
        PushedIsLastN(DistCommits(before), commit, SAVE_LAST_DIST_TXNS);
      }
      NextTracks(r, es);
      OutMeetsSpec(r, es);
    }
  }

  lemma {:induction false} NotARepeat<Op>(q: seq<Commit>, es: seq<Event<Op>>, id: string)
    requires q == LastN(DistCommits(es), SAVE_LAST_DIST_TXNS) && !Resolved(es, id)
    ensures !IsRepeat(q, id)
  {
    if IsRepeat(q, id) {
      CommitsAreResolved(es, q[|q| - 1]);
    }
  }

  /** The database after a replay: the specified operations, applied one after the other. */
  lemma ReplayedDatabase<DB, Op>(exec: (DB, Op) -> Option<DB>, db: DB, es: seq<Event<Op>>)
    requires Settled(es)
    ensures var s := HandleAll(exec, Site(Fresh(), db, true), es);
      && (s.db, s.ok) == RunOps(exec, db, Applied(es))
  {
    HandleAllRuns(exec, Fresh(), db, es);
    ReplayMeetsSpec(es);
  }

  // ---------------------------------------------------------------------------------------------
  // Only committed transactions leave a trace
  // ---------------------------------------------------------------------------------------------

  ghost predicate Commits<Op>(es: seq<Event<Op>>, id: string) {
    exists e :: e in es && OfId(e, id) && e.fate.Committed?
  }

  /** The log without every entry of the transactions outside `ids`. */
  function Keep<Op>(es: seq<Event<Op>>, ids: set<string>): seq<Event<Op>> {
    if es == [] then []
    else
      var e := es[|es| - 1];
      var kept := Keep(es[..|es| - 1], ids);
      if e.OfTxn? && e.id !in ids then kept else kept + [e]
  }

  lemma TxnOpsAppend<Op>(es: seq<Event<Op>>, e: Event<Op>, id: string)
    ensures TxnOps(es + [e], id) == TxnOps(es, id) + if IsPiece(e, id) then e.data.value else []
  {
    assert (es + [e])[..|es + [e]| - 1] == es;
  }

  lemma AppliedAppend<Op>(es: seq<Event<Op>>, e: Event<Op>)
    ensures Applied(es + [e]) == Applied(es) +
      match e
      case Skipped => []
      case Single(op) => [op]
      case OfTxn(id, _, _, fate) => if fate.Committed? then TxnOps(es + [e], id) else []
  {
    assert (es + [e])[..|es + [e]| - 1] == es;
  }

  lemma {:induction false} KeepKeepsOps<Op>(es: seq<Event<Op>>, ids: set<string>, id: string)
    requires id in ids
    ensures TxnOps(Keep(es, ids), id) == TxnOps(es, id)
    decreases |es|
  {
    if es != [] {
      var before, e := es[..|es| - 1], es[|es| - 1];
      KeepKeepsOps(before, ids, id);
      TxnOpsAppend(Keep(before, ids), e, id);
    }
  }

  /** Aborted and undecided transactions might as well not be in the log. */
  lemma {:induction false} OnlyCommittedApplied<Op>(es: seq<Event<Op>>, ids: set<string>)
    requires forall id :: Commits(es, id) ==> id in ids
    ensures Applied(Keep(es, ids)) == Applied(es)
    decreases |es|
  {
    if es != [] {
      var before, e := es[..|es| - 1], es[|es| - 1];
      assert es == before + [e];
      forall id | Commits(before, id) ensures id in ids {
        var c :| c in before && OfId(c, id) && c.fate.Committed?;
        assert c in es;
      }
      OnlyCommittedApplied(before, ids);
      if e.OfTxn? && e.fate.Committed? {
        assert Commits(es, e.id);
        KeepKeepsOps(es, ids, e.id);
      }
      AppliedAppend(Keep(before, ids), e);
    }
  }
}
