/** The last entry of an oplog chunk is also the first entry of the next one, so replay may meet an
    entry twice in a row (the reason given at pbm/oplog/restore.go:841-849). Repeats change nothing,
    provided that applying a block of operations twice in a row is the same as applying it once. */
module BoundaryRepeats {
  import opened Options
  import opened Timestamps
  import opened TxnReplay
  import opened TxnSpec

  ghost predicate TwiceIsOnce<DB(!new), Op>(exec: (DB, Op) -> Option<DB>, ops: seq<Op>) {
    forall db :: RunOps(exec, db, ops + ops) == RunOps(exec, db, ops)
  }

  ghost predicate Idempotent<DB(!new), Op(!new)>(exec: (DB, Op) -> Option<DB>) {
    forall ops :: TwiceIsOnce(exec, ops)
  }

  /** Two blocks of operations that do the same to every database. */
  ghost predicate SameEffect<DB(!new), Op>(exec: (DB, Op) -> Option<DB>, a: seq<Op>, b: seq<Op>) {
    forall db :: RunOps(exec, db, a) == RunOps(exec, db, b)
  }

  ghost predicate SameTxn<DB(!new), Op>(exec: (DB, Op) -> Option<DB>, a: Txn<Op>, b: Txn<Op>) {
    a.allOps == b.allOps && SameEffect(exec, a.ops, b.ops)
  }

  /** Two replays that no continuation can tell apart. */
  ghost predicate SameReplay<DB(!new), Op>(exec: (DB, Op) -> Option<DB>, a: Replay<Op>, b: Replay<Op>) {
    && a.commits == b.commits
    && a.txns.Keys == b.txns.Keys
    && forall id :: id in a.txns ==> SameTxn(exec, a.txns[id], b.txns[id])
  }

  ghost predicate SameSite<DB(!new), Op>(exec: (DB, Op) -> Option<DB>, a: Site<DB, Op>, b: Site<DB, Op>) {
    a.db == b.db && a.ok == b.ok && (a.ok ==> SameReplay(exec, a.replay, b.replay))
  }

  lemma SameEffectAppend<DB(!new), Op>(exec: (DB, Op) -> Option<DB>, a: seq<Op>, b: seq<Op>, x: seq<Op>)
    requires SameEffect(exec, a, b)
    ensures SameEffect(exec, a + x, b + x)
  {
    forall db ensures RunOps(exec, db, a + x) == RunOps(exec, db, b + x) {
      RunOpsConcat(exec, db, a, x);
      RunOpsConcat(exec, db, b, x);
      assert RunOps(exec, db, a) == RunOps(exec, db, b);
    }
  }

  lemma TailTwice<DB(!new), Op(!new)>(exec: (DB, Op) -> Option<DB>, a: seq<Op>, x: seq<Op>)
    requires Idempotent(exec)
    ensures SameEffect(exec, a + x, a + x + x)
  {
    assert TwiceIsOnce(exec, x);
    assert a + x + x == a + (x + x);
    forall db ensures RunOps(exec, db, a + x) == RunOps(exec, db, a + x + x) {
      RunOpsConcat(exec, db, a, x);
      RunOpsConcat(exec, db, a, x + x);
    }
  }

  // ---------------------------------------------------------------------------------------------
  // Handling an event keeps two indistinguishable replays indistinguishable
  // ---------------------------------------------------------------------------------------------

  lemma BufferedSame<DB(!new), Op>(
    exec: (DB, Op) -> Option<DB>, a: map<string, Txn<Op>>, b: map<string, Txn<Op>>, e: Event<Op>, id: string)
    requires e.OfTxn? && a.Keys == b.Keys
    requires forall id :: id in a ==> SameTxn(exec, a[id], b[id])
    requires id in Buffered(a, e)
    ensures id in Buffered(b, e) && SameTxn(exec, Buffered(a, e)[id], Buffered(b, e)[id])
  {
    if e.data.Some? && id == e.id {
      if id in a {
        SameEffectAppend(exec, a[id].ops, b[id].ops, e.data.value);
      }
    }
  }

  lemma ReadySame<DB(!new), Op>(exec: (DB, Op) -> Option<DB>, a: Replay<Op>, b: Replay<Op>, e: Event<Op>)
    requires SameReplay(exec, a, b)
    ensures SameReplay(exec, Ready(a, e), Ready(b, e))
  {
    if e.OfTxn? {
      forall id | id in Buffered(a.txns, e)
        ensures id in Buffered(b.txns, e) && SameTxn(exec, Buffered(a.txns, e)[id], Buffered(b.txns, e)[id])
      {
        BufferedSame(exec, a.txns, b.txns, e, id);
      }
    }
  }

  lemma HandleSame<DB(!new), Op>(exec: (DB, Op) -> Option<DB>, a: Site<DB, Op>, b: Site<DB, Op>, e: Event<Op>)
    requires SameSite(exec, a, b) && a.ok
    ensures SameSite(exec, Handle(exec, a, e), Handle(exec, b, e))
  {
    ReadySame(exec, a.replay, b.replay, e);
    assert RunOps(exec, a.db, Out(a.replay, e)) == RunOps(exec, b.db, Out(b.replay, e)) by {
      if e.OfTxn? && e.id in Ready(a.replay, e).txns {
        assert SameTxn(exec, Ready(a.replay, e).txns[e.id], Ready(b.replay, e).txns[e.id]);
      }
    }
  }

  // ---------------------------------------------------------------------------------------------
  // Handling an event twice
  // ---------------------------------------------------------------------------------------------

  /** A `commitTransaction` entry carries no operations of its own. */
  predicate WellFormed<Op>(e: Event<Op>) {
    e.OfTxn? && e.fate.Committed? && e.fate.distributed ==> e.data.None?
  }

  /** The repeated commit of a distributed transaction gives out nothing and leaves buffer and queue
      as they are, whatever was replayed before. */
  lemma CommitRepeated<Op>(r: Replay<Op>, e: Event<Op>)
    requires e.OfTxn? && e.fate.Committed? && e.fate.distributed && e.data.None?
    ensures Next(Next(r, e), e) == Next(r, e) && Out(Next(r, e), e) == []
  {
    var q := Next(r, e).commits;
    assert IsRepeat(q, e.id);
  }

  lemma PendingRepeated<DB(!new), Op(!new)>(exec: (DB, Op) -> Option<DB>, r: Replay<Op>, e: Event<Op>)
    requires Idempotent(exec) && e.OfTxn?
    ensures SameReplay(exec, Ready(r, e).(commits := r.commits),
      Replay(Buffered(Buffered(r.txns, e), e), r.commits))
  {
    if e.data.Some? {
      TailTwice(exec, if e.id in r.txns then r.txns[e.id].ops else [], e.data.value);
    }
  }

  lemma OpsRepeated<DB(!new), Op(!new)>(exec: (DB, Op) -> Option<DB>, db: DB, a: seq<Op>, x: seq<Op>)
    requires Idempotent(exec) && RunOps(exec, db, a + x).1
    ensures RunOps(exec, RunOps(exec, db, a + x).0, x) == RunOps(exec, db, a + x)
  {
    TailTwice(exec, a, x);
    RunOpsConcat(exec, db, a + x, x);
    assert RunOps(exec, db, a + x) == RunOps(exec, db, a + x + x);
  }

  /** The last entry of an ordinary transaction, repeated, applies its own operations once more. */
  lemma FinalPieceRepeated<DB(!new), Op(!new)>(exec: (DB, Op) -> Option<DB>, s: Site<DB, Op>, e: Event<Op>)
    requires Idempotent(exec) && Handle(exec, s, e).ok
    requires e.OfTxn? && e.fate.Committed? && !e.fate.distributed && !IsRepeat(s.replay.commits, e.id)
    ensures Handle(exec, Handle(exec, s, e), e) == Handle(exec, s, e)
  {
    var r := s.replay;
    var once := Handle(exec, s, e);
    assert e.id !in once.replay.txns && once.replay.commits == r.commits;
    if e.data.Some? {
      OpsRepeated(exec, s.db, if e.id in r.txns then r.txns[e.id].ops else [], e.data.value);
      assert [] + e.data.value == e.data.value;
      assert Buffered(once.replay.txns, e) - {e.id} == once.replay.txns;
    }
  }

  /** Handling an event a second time right after the first cannot be noticed. */
  lemma RepeatUnnoticed<DB(!new), Op(!new)>(exec: (DB, Op) -> Option<DB>, s: Site<DB, Op>, e: Event<Op>)
    requires Idempotent(exec) && WellFormed(e) && s.ok && Handle(exec, s, e).ok
    ensures SameSite(exec, Handle(exec, s, e), Handle(exec, Handle(exec, s, e), e))
  {
    var once := Handle(exec, s, e);
    match e
    case Skipped =>
    case Single(op) => OpsRepeated(exec, s.db, [], [op]); assert [] + [op] == [op];
    case OfTxn(id, data, whole, fate) =>
      if fate.Committed? && fate.distributed {
        CommitRepeated(s.replay, e);
      } else if fate.Committed? && !IsRepeat(s.replay.commits, id) {
        FinalPieceRepeated(exec, s, e);
      } else if fate.Aborted? {
        assert Buffered(once.replay.txns, e) - {id} == once.replay.txns;
      } else {
        PendingRepeated(exec, s.replay, e);
      }
  }

  /** Without data-less commits the claim fails: the repeat would leave the operations in the buffer. */
  lemma CommitWithDataWouldLinger<Op>(id: string, op: Op, ctime: Timestamp)
    ensures var e := OfTxn(id, Some([op]), true, Committed(true, ctime));
      id !in Next(Fresh<Op>(), e).txns && id in Next(Next(Fresh(), e), e).txns
  {
    var e := OfTxn(id, Some([op]), true, Committed(true, ctime));
    assert IsRepeat(Next(Fresh<Op>(), e).commits, id);
  }

  // ---------------------------------------------------------------------------------------------
  // Whole logs
  // ---------------------------------------------------------------------------------------------

  /** The log with the entries at the positions `at` doubled. */
  function Doubled<T>(es: seq<T>, at: set<nat>): seq<T> {
    if es == [] then []
    else
      var n := |es| - 1;
      var before := Doubled(es[..n], at);
      if n in at then before + [es[n], es[n]] else before + [es[n]]
  }

  lemma HandleAllAppend<DB, Op>(exec: (DB, Op) -> Option<DB>, s: Site<DB, Op>, es: seq<Event<Op>>, e: Event<Op>)
    ensures HandleAll(exec, s, es + [e]) ==
      if HandleAll(exec, s, es).ok then Handle(exec, HandleAll(exec, s, es), e) else HandleAll(exec, s, es)
  {
    assert (es + [e])[..|es + [e]| - 1] == es;
  }

  /** Whichever entries are met twice in a row, the replay ends with the same database, fails or
      succeeds alike, and keeps an indistinguishable buffer and the same queue. */
  lemma {:induction false} RepeatsAreHarmless<DB(!new), Op(!new)>(
    exec: (DB, Op) -> Option<DB>, s: Site<DB, Op>, es: seq<Event<Op>>, at: set<nat>)
    requires Idempotent(exec) && s.ok && forall e :: e in es ==> WellFormed(e)
    ensures SameSite(exec, HandleAll(exec, s, es), HandleAll(exec, s, Doubled(es, at)))
    decreases |es|
  {
    if es == [] {
      SameSiteSelf(exec, s);
    } else {
      var n := |es| - 1;
      var before, e := es[..n], es[n];
      assert forall d :: d in before ==> d in es;
      RepeatsAreHarmless(exec, s, before, at);
      var a, b := HandleAll(exec, s, before), HandleAll(exec, s, Doubled(before, at));
      HandleAllAppend(exec, s, Doubled(before, at), e);
      if a.ok {
        HandleSame(exec, a, b, e);
        if n in at {
          HandleTwice(exec, s, Doubled(before, at), e);
          if Handle(exec, b, e).ok {
            RepeatUnnoticed(exec, b, e);
            SameSiteTrans(exec, Handle(exec, a, e), Handle(exec, b, e), Handle(exec, Handle(exec, b, e), e));
          }
        }
      } else if n in at {
        HandleTwice(exec, s, Doubled(before, at), e);
      }
    }
  }

  lemma HandleTwice<DB, Op>(exec: (DB, Op) -> Option<DB>, s: Site<DB, Op>, es: seq<Event<Op>>, e: Event<Op>)
    ensures var b := HandleAll(exec, s, es);
      HandleAll(exec, s, es + [e, e]) ==
        if !b.ok then b
        else if !Handle(exec, b, e).ok then Handle(exec, b, e)
        else Handle(exec, Handle(exec, b, e), e)
  {
    assert es + [e, e] == es + [e] + [e];
    HandleAllAppend(exec, s, es, e);
    HandleAllAppend(exec, s, es + [e], e);
  }

  lemma SameSiteSelf<DB(!new), Op>(exec: (DB, Op) -> Option<DB>, a: Site<DB, Op>)
    ensures SameSite(exec, a, a)
  {
  }

  lemma SameSiteTrans<DB(!new), Op>(
    exec: (DB, Op) -> Option<DB>, a: Site<DB, Op>, b: Site<DB, Op>, c: Site<DB, Op>)
    requires SameSite(exec, a, b) && SameSite(exec, b, c)
    ensures SameSite(exec, a, c)
  {
    if a.ok {
      forall id | id in a.replay.txns ensures SameTxn(exec, a.replay.txns[id], c.replay.txns[id]) {
        assert SameTxn(exec, a.replay.txns[id], b.replay.txns[id]);
        assert SameTxn(exec, b.replay.txns[id], c.replay.txns[id]);
      }
    }
  }
}
