/** What a replay makes of the oplog, said by the entries themselves (pbm/oplog/restore.go,
    vendor/github.com/mongodb/mongo-tools/common/txn/meta.go): by their operation, their session and the
    keys of their object. */
module TxnEntries {
  import opened Options
  import opened Timestamps
  import opened TxnReplay
  import opened TxnSpec

  // ---------------------------------------------------------------------------------------------
  // Entries
  // ---------------------------------------------------------------------------------------------

  ghost predicate HasOps<Op>(e: Entry<Op>) {
    exists k :: k in e.keys && k.ApplyOps?
  }

  /** Entries that are not looked at: no-ops and those that a filter holds back. */
  predicate IsIgnored<Op>(e: Entry<Op>) {
    e.operation == Noop || e.filtered
  }

  /** A command of a session that has operations, a commit or an abort in it; but not a vectored insert. */
  ghost predicate BelongsTo<Op>(e: Entry<Op>, id: string) {
    && !IsIgnored(e) && e.operation == Command && !e.vectored && e.session == Some(id)
    && (HasOps(e) || CommitTransaction in e.keys || AbortTransaction in e.keys)
  }

  ghost predicate SaysAbort<Op>(e: Entry<Op>) {
    AbortTransaction in e.keys
  }

  /** A commit of its own, as prepared transactions have it. */
  ghost predicate SaysCommit<Op>(e: Entry<Op>) {
    CommitTransaction in e.keys && AbortTransaction !in e.keys
  }

  /** Neither: then the transaction ends here unless it is only prepared, or more of it follows. */
  ghost predicate EndsUnprepared<Op>(e: Entry<Op>) {
    && AbortTransaction !in e.keys && CommitTransaction !in e.keys
    && Prepare !in e.keys && PartialTxn !in e.keys
  }

  /** The operations are those of the first key that has any. */
  ghost predicate AreOps<Op>(e: Entry<Op>, ops: seq<Op>) {
    if HasOps(e) then
      exists i :: 0 <= i < |e.keys| && e.keys[i] == ApplyOps(ops) && forall j :: 0 <= j < i ==> !e.keys[j].ApplyOps?
    else ops == []
  }

  /** The time of a commit is that of the last key that has one. */
  ghost predicate IsCommitTime<Op>(e: Entry<Op>, t: Timestamp) {
    if exists k :: k in e.keys && k.CommitTimestamp? then
      exists i :: 0 <= i < |e.keys| && e.keys[i] == CommitTimestamp(t)
                  && forall j :: i < j < |e.keys| ==> !e.keys[j].CommitTimestamp?
    else t == ZeroTS
  }

  function OwnOps<Op>(e: Entry<Op>): seq<Op> {
    if InnerOps(e.keys).Some? then InnerOps(e.keys).value else []
  }

  lemma {:induction false} InnerOpsAreFirst<Op>(keys: seq<Key<Op>>)
    ensures InnerOps(keys).None? ==> forall k :: k in keys ==> !k.ApplyOps?
    ensures InnerOps(keys).Some? ==>
      exists i :: 0 <= i < |keys| && keys[i] == ApplyOps(InnerOps(keys).value)
                  && forall j :: 0 <= j < i ==> !keys[j].ApplyOps?
    decreases |keys|
  {
    if keys != [] {
      var rest := keys[1..];
      InnerOpsAreFirst(rest);
      assert keys == [keys[0]] + rest;
      if keys[0].ApplyOps? {
        assert keys[0] == ApplyOps(InnerOps(keys).value);
      } else if InnerOps(rest).Some? {
        var i :|
          0 <= i < |rest| && rest[i] == ApplyOps(InnerOps(rest).value) && forall j :: 0 <= j < i ==> !rest[j].ApplyOps?;
        assert keys[i + 1] == ApplyOps(InnerOps(keys).value);
        assert forall j :: 0 < j < i + 1 ==> keys[j] == rest[j - 1];
      }
    }
  }

  lemma OwnOpsAre<Op>(e: Entry<Op>)
    ensures AreOps(e, OwnOps(e)) && (InnerOps(e.keys).Some? <==> HasOps(e))
  {
    InnerOpsAreFirst(e.keys);
  }

  lemma {:induction false} CommitTimeIsLast<Op>(keys: seq<Key<Op>>)
    ensures (forall k :: k in keys ==> !k.CommitTimestamp?) ==> CommitTime(keys) == ZeroTS
    ensures (exists k :: k in keys && k.CommitTimestamp?) ==>
      exists i :: 0 <= i < |keys| && keys[i] == CommitTimestamp(CommitTime(keys))
                  && forall j :: i < j < |keys| ==> !keys[j].CommitTimestamp?
    decreases |keys|
  {
    if keys != [] {
      var before, last := keys[..|keys| - 1], keys[|keys| - 1];
      CommitTimeIsLast(before);
      assert keys == before + [last];
      if last.CommitTimestamp? {
        assert keys[|keys| - 1] == CommitTimestamp(CommitTime(keys));
      } else if k :| k in before && k.CommitTimestamp? {
        var i :| 0 <= i < |before| && before[i] == CommitTimestamp(CommitTime(before))
          && forall j :: i < j < |before| ==> !before[j].CommitTimestamp?;
        assert keys[i] == CommitTimestamp(CommitTime(keys));
      }
    }
  }

  lemma CommitTimeIs<Op>(e: Entry<Op>)
    ensures IsCommitTime(e, CommitTime(e.keys))
  {
    CommitTimeIsLast(e.keys);
  }

  // ---------------------------------------------------------------------------------------------
  // One entry, in any state of the replay
  // ---------------------------------------------------------------------------------------------

  function BufferedOps<Op>(r: Replay<Op>, id: string): seq<Op> {
    if id in r.txns then r.txns[id].ops else []
  }

  /** An abort drops what was buffered; a commit, or the end of an unprepared transaction, applies it with the
      operations of the entry, unless it repeats the last commit; a commit of its own is queued with its time;
      any other entry only adds its operations to the buffer. */
  lemma EntryOfTxn<Op>(r: Replay<Op>, e: Entry<Op>, id: string)
    requires BelongsTo(e, id)
    ensures var r', all := Next(r, Classify(e)), BufferedOps(r, id) + OwnOps(e);
      && AreOps(e, OwnOps(e)) && IsCommitTime(e, CommitTime(e.keys))
      && (forall other :: other != id ==>
            (other in r'.txns <==> other in r.txns) && (other in r.txns ==> r'.txns[other] == r.txns[other]))
      && (SaysAbort(e) ==> Out(r, Classify(e)) == [] && id !in r'.txns && r'.commits == r.commits)
      && ((SaysCommit(e) || EndsUnprepared(e)) && !IsRepeat(r.commits, id) ==>
            && Out(r, Classify(e)) == all && id !in r'.txns
            && r'.commits ==
                 if SaysCommit(e) then Pushed(r.commits, Commit(id, CommitTime(e.keys)), 100) else r.commits)
      && (!SaysAbort(e) && !SaysCommit(e) && !EndsUnprepared(e) ==>
            && Out(r, Classify(e)) == [] && r'.commits == r.commits
            && (HasOps(e) ==> id in r'.txns && r'.txns[id] == Txn(all, PartialTxn !in e.keys)))
  {
    OwnOpsAre(e);
    CommitTimeIs(e);
  }

  /** Everything else: ignored entries change nothing, the others are applied as they are. */
  lemma EntryOfNoTxn<Op>(r: Replay<Op>, e: Entry<Op>)
    requires forall id :: !BelongsTo(e, id)
    ensures Next(r, Classify(e)) == r && Out(r, Classify(e)) == if IsIgnored(e) then [] else [e.change]
  {
    OwnOpsAre(e);
    if !IsIgnored(e) && IsTxnCommand(e) {
      assert BelongsTo(e, e.session.value);
    }
  }

  // ---------------------------------------------------------------------------------------------
  // A whole log
  // ---------------------------------------------------------------------------------------------

  /** All operations of transaction `id`, in the order of the log. */
  ghost function EntryOps<Op>(es: seq<Entry<Op>>, id: string): seq<Op> {
    if es == [] then []
    else
      var e := es[|es| - 1];
      EntryOps(es[..|es| - 1], id) + if BelongsTo(e, id) then OwnOps(e) else []
  }

  /** What the last entry adds to what is applied. */
  ghost function Adds<Op>(es: seq<Entry<Op>>): seq<Op>
    requires es != []
  {
    var e := es[|es| - 1];
    if IsIgnored(e) then []
    else if exists id :: BelongsTo(e, id) then
      if SaysCommit(e) || EndsUnprepared(e) then EntryOps(es, e.session.value) else []
    else [e.change]
  }

  /** What has to be applied: entries outside transactions as they are, and where a transaction commits, or
      ends unprepared, all its operations in one block. */
  ghost function AppliedBy<Op>(es: seq<Entry<Op>>): seq<Op> {
    if es == [] then [] else AppliedBy(es[..|es| - 1]) + Adds(es)
  }

  /** What has to be queued for the other shards: the commits of their own, with their times. */
  ghost function QueuedBy<Op>(es: seq<Entry<Op>>): seq<Commit> {
    if es == [] then []
    else
      var e := es[|es| - 1];
      QueuedBy(es[..|es| - 1]) +
      if (exists id :: BelongsTo(e, id)) && SaysCommit(e) then [Commit(e.session.value, CommitTime(e.keys))] else []
  }

  /** No transaction goes on after an entry that aborts or commits it, or ends it unprepared. A transaction may
      be prepared, in one piece or several, and committed later. */
  ghost predicate SettledLog<Op>(es: seq<Entry<Op>>) {
    forall i, j, id :: 0 <= i < j < |es| && BelongsTo(es[i], id) && BelongsTo(es[j], id) ==>
      !SaysAbort(es[i]) && !SaysCommit(es[i]) && !EndsUnprepared(es[i])
  }

  lemma EventOf<Op>(e: Entry<Op>)
    ensures forall id :: OfId(Classify(e), id) <==> BelongsTo(e, id)
    ensures Classify(e).OfTxn? ==>
      && e.session == Some(Classify(e).id)
      && Classify(e).data == InnerOps(e.keys)
      && (Classify(e).fate.Pending? <==> !SaysAbort(e) && !SaysCommit(e) && !EndsUnprepared(e))
      && (Classify(e).fate.Committed? <==> SaysCommit(e) || EndsUnprepared(e))
      && (Classify(e).fate.Committed? ==> (Classify(e).fate.distributed <==> SaysCommit(e)))
      && (SaysCommit(e) ==> Classify(e).fate.ctime == CommitTime(e.keys))
    ensures !Classify(e).OfTxn? ==> Classify(e) == if IsIgnored(e) then Skipped else Single(e.change)
  {
    OwnOpsAre(e);
  }

  lemma EventsLast<Op>(es: seq<Entry<Op>>)
    requires es != []
    ensures var events := Events(es);
      events[..|events| - 1] == Events(es[..|es| - 1]) && events[|events| - 1] == Classify(es[|es| - 1])
  {
  }

  lemma {:induction false} OpsOfEvents<Op>(es: seq<Entry<Op>>, id: string)
    ensures TxnOps(Events(es), id) == EntryOps(es, id)
    decreases |es|
  {
    if es != [] {
      EventsLast(es);
      EventOf(es[|es| - 1]);
      OpsOfEvents(es[..|es| - 1], id);
    }
  }

  lemma AddedByEvent<Op>(es: seq<Entry<Op>>)
    requires es != []
    ensures Applied(Events(es)) == Applied(Events(es)[..|es| - 1]) + Adds(es)
  {
    var e := es[|es| - 1];
    EventsLast(es);
    EventOf(e);
    if Classify(e).OfTxn? {
      assert OfId(Classify(e), Classify(e).id);
      OpsOfEvents(es, Classify(e).id);
    } else {
      assert forall id :: !OfId(Classify(e), id);
    }
  }

  lemma {:induction false} AppliedByEvents<Op>(es: seq<Entry<Op>>)
    ensures Applied(Events(es)) == AppliedBy(es)
    decreases |es|
  {
    if es != [] {
      AddedByEvent(es);
      EventsLast(es);
      AppliedByEvents(es[..|es| - 1]);
    }
  }

  lemma {:induction false} QueuedByEvents<Op>(es: seq<Entry<Op>>)
    ensures DistCommits(Events(es)) == QueuedBy(es)
    decreases |es|
  {
    if es != [] {
      var e := es[|es| - 1];
      EventsLast(es);
      EventOf(e);
      QueuedByEvents(es[..|es| - 1]);
      if Classify(e).OfTxn? {
        assert OfId(Classify(e), Classify(e).id);
      } else {
        assert forall id :: !OfId(Classify(e), id);
      }
    }
  }

  lemma SettledByEvents<Op>(es: seq<Entry<Op>>)
    requires SettledLog(es)
    ensures Settled(Events(es))
  {
    var events := Events(es);
    forall i, j | 0 <= i < j < |events| && events[i].OfTxn? && events[j].OfTxn? && events[i].id == events[j].id
      ensures events[i].fate.Pending?
    {
      EventOf(es[i]);
      EventOf(es[j]);
      assert OfId(events[i], events[i].id) && OfId(events[j], events[i].id);
    }
  }

  /** Some entry of the transaction ends it. */
  ghost predicate IsEnded<Op>(es: seq<Entry<Op>>, id: string) {
    exists e :: e in es && BelongsTo(e, id) && (SaysAbort(e) || SaysCommit(e) || EndsUnprepared(e))
  }

  ghost predicate HasEntryOps<Op>(es: seq<Entry<Op>>, id: string) {
    exists e :: e in es && BelongsTo(e, id) && HasOps(e)
  }

  lemma OpenByEvents<Op>(es: seq<Entry<Op>>, id: string)
    ensures Open(Events(es), id) <==> HasEntryOps(es, id) && !IsEnded(es, id)
  {
    var events := Events(es);
    forall e | e in es ensures Classify(e) in events {
      var i :| 0 <= i < |es| && es[i] == e;
      assert events[i] == Classify(e);
      EventOf(e);
      OwnOpsAre(e);
    }
    forall v | v in events ensures exists e :: e in es && Classify(e) == v {
      var i :| 0 <= i < |events| && events[i] == v;
      assert es[i] in es;
    }
    forall e | e in es
      ensures IsPiece(Classify(e), id) <==> BelongsTo(e, id) && HasOps(e)
      ensures OfId(Classify(e), id) && !Classify(e).fate.Pending? <==>
        BelongsTo(e, id) && (SaysAbort(e) || SaysCommit(e) || EndsUnprepared(e))
    {
      EventOf(e);
      OwnOpsAre(e);
    }
  }

  /** A replay of a log from the start: the database is that of the operations to apply, up to the first
      failure; without one, the queue holds the last 100 commits, and the buffer all operations of exactly the
      transactions that have any and have not ended. */
  lemma LogReplayed<DB, Op>(exec: (DB, Op) -> Option<DB>, db: DB, es: seq<Entry<Op>>)
    requires SettledLog(es)
    ensures var s := HandleAll(exec, Site(Fresh(), db, true), Events(es));
      && (s.db, s.ok) == RunOps(exec, db, AppliedBy(es))
      && (s.ok ==>
            && s.replay.commits == LastN(QueuedBy(es), 100)
            && forall id ::
                 && (id in s.replay.txns <==> HasEntryOps(es, id) && !IsEnded(es, id))
                 && (id in s.replay.txns ==> s.replay.txns[id].ops == EntryOps(es, id)))
  {
    SettledByEvents(es);
    ReplayedDatabase(exec, db, Events(es));
    HandleAllRuns(exec, Fresh(), db, Events(es));
    ReplayMeetsSpec(Events(es));
    AppliedByEvents(es);
    QueuedByEvents(es);
    forall id
      ensures Open(Events(es), id) <==> HasEntryOps(es, id) && !IsEnded(es, id)
      ensures TxnOps(Events(es), id) == EntryOps(es, id)
    {
      OpenByEvents(es, id);
      OpsOfEvents(es, id);
    }
  }
}
