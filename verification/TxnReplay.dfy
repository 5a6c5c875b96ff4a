/** Replay of oplog entries (pbm/oplog/restore.go). The inner operations of a transaction are kept in
    a buffer until its commit is met and are then applied as ordinary operations; the last commits of
    distributed transactions are remembered for the other shards.

    What one operation does to the database is a parameter: `exec` gives the new database, or nothing
    when the server refuses the operation. The namespace and command filters are a flag on the entry. */
module TxnReplay {
  import opened Options
  import opened Timestamps

  // ---------------------------------------------------------------------------------------------
  // Oplog entries
  // ---------------------------------------------------------------------------------------------

  datatype Operation = Noop | Command | Change

  /** The keys of an entry's object that matter here. */
  datatype Key<Op> =
    | ApplyOps(ops: seq<Op>)
    | CommitTransaction
    | AbortTransaction
    | PartialTxn
    | Prepare
    | CommitTimestamp(ts: Timestamp)
    | OtherKey

  /** `session` is the session id and transaction number, when the entry has both. `change` is the
      entry itself as an operation to apply. */
  datatype Entry<Op> = Entry(
    ts: Timestamp,
    operation: Operation,
    filtered: bool,
    vectored: bool,
    session: Option<string>,
    keys: seq<Key<Op>>,
    change: Op)

  /** What an entry of a transaction says about the fate of the transaction. */
  datatype Fate = Pending | Aborted | Committed(distributed: bool, ctime: Timestamp)

  /** What an entry means to the replay. `whole` is false for a piece that more pieces follow. */
  datatype Event<Op> =
    | Skipped
    | Single(op: Op)
    | OfTxn(id: string, data: Option<seq<Op>>, whole: bool, fate: Fate)

  function InnerOps<Op>(keys: seq<Key<Op>>): Option<seq<Op>> {
    if keys == [] then None
    else if keys[0].ApplyOps? then Some(keys[0].ops)
    else InnerOps(keys[1..])
  }

  function CommitTime<Op>(keys: seq<Key<Op>>): Timestamp {
    if keys == [] then ZeroTS
    else if keys[|keys| - 1].CommitTimestamp? then keys[|keys| - 1].ts
    else CommitTime(keys[..|keys| - 1])
  }

  predicate IsTxnCommand<Op(==)>(e: Entry<Op>) {
    && !e.vectored
    && e.session.Some?
    && e.operation == Command
    && (InnerOps(e.keys).Some? || CommitTransaction in e.keys || AbortTransaction in e.keys)
  }

  function FateOf<Op(==)>(keys: seq<Key<Op>>): Fate {
    if AbortTransaction in keys then Aborted
    else if CommitTransaction in keys then Committed(true, CommitTime(keys))
    else if Prepare !in keys && PartialTxn !in keys then Committed(false, ZeroTS)
    else Pending
  }

  function Classify<Op(==)>(e: Entry<Op>): Event<Op> {
    if e.operation == Noop || e.filtered then Skipped
    else if !IsTxnCommand(e) then Single(e.change)
    else OfTxn(e.session.value, InnerOps(e.keys), PartialTxn !in e.keys, FateOf(e.keys))
  }

  function Events<Op(==)>(entries: seq<Entry<Op>>): (events: seq<Event<Op>>)
    ensures |events| == |entries|
    ensures forall i :: 0 <= i < |entries| ==> events[i] == Classify(entries[i])
  {
    seq(|entries|, i requires 0 <= i < |entries| => Classify(entries[i]))
  }

  // ---------------------------------------------------------------------------------------------
  // One step of the replay
  // ---------------------------------------------------------------------------------------------

  const SAVE_LAST_DIST_TXNS := 100

  datatype Txn<Op> = Txn(ops: seq<Op>, allOps: bool)

  datatype Commit = Commit(id: string, ctime: Timestamp)

  datatype Replay<Op> = Replay(txns: map<string, Txn<Op>>, commits: seq<Commit>)

  /** The replay together with the database it applies to; `ok` is false once an operation failed. */
  datatype Site<DB, Op> = Site(replay: Replay<Op>, db: DB, ok: bool)

  function Buffered<Op>(txns: map<string, Txn<Op>>, e: Event<Op>): map<string, Txn<Op>>
    requires e.OfTxn?
  {
    if e.data.None? then txns
    else txns[e.id := Txn((if e.id in txns then txns[e.id].ops else []) + e.data.value, e.whole)]
  }

  /** A full queue loses its oldest commit. */
  function Pushed(q: seq<Commit>, v: Commit, capacity: nat): seq<Commit> {
    (if |q| == capacity && q != [] then q[1..] else q) + [v]
  }

  predicate IsRepeat(q: seq<Commit>, id: string) {
    q != [] && q[|q| - 1].id == id
  }

  function Queued<Op>(q: seq<Commit>, e: Event<Op>): seq<Commit>
    requires e.OfTxn?
  {
    if e.fate.Committed? && e.fate.distributed && !IsRepeat(q, e.id)
    then Pushed(q, Commit(e.id, e.fate.ctime), SAVE_LAST_DIST_TXNS)
    else q
  }

  /** The operations that event `e` makes the replay apply. */
  function Out<Op>(r: Replay<Op>, e: Event<Op>): seq<Op> {
    match e
    case Skipped => []
    case Single(op) => [op]
    case OfTxn(id, _, _, fate) =>
      var txns := Buffered(r.txns, e);
      if fate.Committed? && !IsRepeat(r.commits, id) && id in txns then txns[id].ops else []
  }

  /** The state in which those operations are applied. */
  function Ready<Op>(r: Replay<Op>, e: Event<Op>): Replay<Op> {
    if e.OfTxn? then Replay(Buffered(r.txns, e), Queued(r.commits, e)) else r
  }

  /** The state once they are applied. */
  function Next<Op>(r: Replay<Op>, e: Event<Op>): Replay<Op> {
    if e.OfTxn? && (e.fate.Aborted? || (e.fate.Committed? && !IsRepeat(r.commits, e.id)))
    then Ready(r, e).(txns := Buffered(r.txns, e) - {e.id})
    else Ready(r, e)
  }

  /** Applying operations up to the first one that fails. */
  function RunOps<DB, Op>(exec: (DB, Op) -> Option<DB>, db: DB, ops: seq<Op>): (DB, bool) {
    if ops == [] then (db, true)
    else
      var (before, ok) := RunOps(exec, db, ops[..|ops| - 1]);
      if !ok then (before, false)
      else match exec(before, ops[|ops| - 1])
        case None => (before, false)
        case Some(after) => (after, true)
  }

  function Handle<DB, Op>(exec: (DB, Op) -> Option<DB>, s: Site<DB, Op>, e: Event<Op>): Site<DB, Op> {
    var (db, ok) := RunOps(exec, s.db, Out(s.replay, e));
    Site(if ok then Next(s.replay, e) else Ready(s.replay, e), db, ok)
  }

  function HandleAll<DB, Op>(exec: (DB, Op) -> Option<DB>, s: Site<DB, Op>, events: seq<Event<Op>>): Site<DB, Op> {
    if events == [] then s
    else
      var before := HandleAll(exec, s, events[..|events| - 1]);
      if before.ok then Handle(exec, before, events[|events| - 1]) else before
  }

  // ---------------------------------------------------------------------------------------------
  // The oplog applier
  // ---------------------------------------------------------------------------------------------

  /** A queue of the last `c` commits. */
  class CQueue {
    var s: seq<Commit>
    const c: nat

    constructor (capacity: nat)
      ensures s == [] && c == capacity
    {
      s := [];
      c := capacity;
    }

    method Push(v: Commit)
      requires 0 < c
      modifies this
      ensures s == Pushed(old(s), v, c)
    {
      if |s| == c {
        s := s[1..];
      }
      s := s + [v];
    }

    method Last() returns (v: Option<Commit>)
      ensures v == if s == [] then None else Some(s[|s| - 1])
    {
      if |s| == 0 {
        return None;
      }
      return Some(s[|s| - 1]);
    }
  }

  class OplogRestore<DB, Op(==)> {
    const exec: (DB, Op) -> Option<DB>
    var db: DB
    var txnData: map<string, Txn<Op>>
    const txnCommit: CQueue
    var startTS: Timestamp
    var endTS: Timestamp
    var lastOpT: uint32

    constructor (exec: (DB, Op) -> Option<DB>, db: DB)
      ensures Valid() && fresh(txnCommit) && this.exec == exec
      ensures At(db, true) == Site(Replay(map[], []), this.db, true) && this.db == db
      ensures startTS == ZeroTS && endTS == ZeroTS
    {
      this.exec := exec;
      this.db := db;
      txnData := map[];
      txnCommit := new CQueue(SAVE_LAST_DIST_TXNS);
      startTS := ZeroTS;
      endTS := ZeroTS;
      lastOpT := 0;
    }

    ghost predicate Valid() {
      txnCommit.c == SAVE_LAST_DIST_TXNS
    }

    ghost function State(): Replay<Op>
      reads this, txnCommit
    {
      Replay(txnData, txnCommit.s)
    }

    /** The state with a given database and outcome. */
    ghost function At(db: DB, ok: bool): Site<DB, Op>
      reads this, txnCommit
    {
      Site(State(), db, ok)
    }

    method SetTimeframe(start: Timestamp, end: Timestamp)
      modifies this`startTS, this`endTS
      ensures startTS == start && endTS == end
    {
      startTS := start;
      endTS := end;
    }

    method HandleNonTxnOp(op: Op) returns (ok: bool)
      modifies this`db
      ensures (db, ok) == (match exec(old(db), op) case None => (old(db), false) case Some(d) => (d, true))
    {
      match exec(db, op)
      case None =>
        ok := false;
      case Some(d) =>
        db := d;
        ok := true;
    }

    method ApplyTxn(id: string) returns (ok: bool)
      modifies this`db, this`txnData
      ensures (db, ok) == RunOps(exec, old(db), if id in old(txnData) then old(txnData)[id].ops else [])
      ensures txnData == if ok then old(txnData) - {id} else old(txnData)
    {
      if id !in txnData {
        return true;
      }
      var ops := txnData[id].ops;
      for i := 0 to |ops|
        invariant txnData == old(txnData)
        invariant (db, true) == RunOps(exec, old(db), ops[..i])
      {
        assert ops[..i + 1][..i] == ops[..i];
        ok := HandleNonTxnOp(ops[i]);
        if !ok {
          RunOpsStopped(exec, old(db), ops, i + 1);
          return;
        }
      }
      assert ops[..|ops|] == ops;
      txnData := txnData - {id};
      ok := true;
    }

    method HandleTxnOp(e: Event<Op>) returns (ok: bool)
      requires Valid() && e.OfTxn?
      modifies this`db, this`txnData, txnCommit
      ensures Valid() && At(db, ok) == Handle(exec, old(At(db, true)), e)
    {
      if e.data.Some? {
        var ops := if e.id in txnData then txnData[e.id].ops else [];
        txnData := txnData[e.id := Txn(ops + e.data.value, e.whole)];
      }
      if e.fate.Aborted? {
        txnData := txnData - {e.id};
        return true;
      }
      if !e.fate.Committed? {
        return true;
      }
      // the first entry of a chunk is also the last one of the chunk before
      var lastc := txnCommit.Last();
      if lastc.Some? && lastc.value.id == e.id {
        return true;
      }
      if e.fate.distributed {
        txnCommit.Push(Commit(e.id, e.fate.ctime));
      }
      ok := ApplyTxn(e.id);
    }

    method TxnLeftovers() returns (uncommitted: map<string, Txn<Op>>, lastCommits: seq<Commit>)
      ensures Replay(uncommitted, lastCommits) == State()
    {
      return txnData, txnCommit.s;
    }

    /** Applies the leftovers that other shards committed, in no particular order, each as one block.
        `order` is the order taken. */
    method HandleUncommittedTxn(commits: map<string, Timestamp>)
      returns (partial: map<string, Txn<Op>>, uncommitted: map<string, Txn<Op>>, ok: bool, ghost order: seq<string>)
      modifies this`db, this`txnData
      ensures Distinct(order) && forall id :: id in order ==> id in Resolvable(old(txnData), commits.Keys)
      ensures (db, ok) == RunOps(exec, old(db), Blocks(old(txnData), order))
      ensures ok ==> forall id :: id in Resolvable(old(txnData), commits.Keys) ==> id in order
      ensures ok ==> uncommitted == txnData == old(txnData) - Resolvable(old(txnData), commits.Keys)
      ensures ok ==> forall id ::
        && (id in order <==> id in old(txnData) && id in commits && old(txnData)[id].allOps)
        && (id in partial <==> id in old(txnData) && id in commits && !old(txnData)[id].allOps)
      ensures ok ==> forall id :: id in partial ==> id in uncommitted && uncommitted[id] == partial[id]
    {
      partial, uncommitted, ok, order := map[], map[], true, [];
      ghost var txns := txnData;
      var pending := txnData.Keys;
      while pending != {}
        invariant ok && Resolving(txns, txnData, commits.Keys, pending, order)
        invariant partial.Keys == CutShort(txns, commits.Keys) - pending
        invariant forall id :: id in partial ==> partial[id] == txns[id]
        invariant (db, ok) == RunOps(exec, old(db), Blocks(txns, order))
        decreases pending
      {
        var id :| id in pending;
        ResolvingStep(txns, txnData, commits.Keys, pending, order, id);
        if id in commits {
          if !txnData[id].allOps {
            partial := partial[id := txnData[id]];
          } else {
            BlocksAppend(exec, old(db), txns, order, id);
            order := order + [id];
            ok := ApplyTxn(id);
            if !ok {
              return;
            }
          }
        }
        pending := pending - {id};
      }
      ResolvingDone(txns, txnData, commits.Keys, order);
      uncommitted := txnData;
    }

    method HandleOp(entry: Entry<Op>) returns (ok: bool)
      requires Valid()
      modifies this`db, this`txnData, txnCommit
      ensures Valid() && At(db, ok) ==
        if PastEnd(endTS, entry) then old(At(db, true)) else Handle(exec, old(At(db, true)), Classify(entry))
    {
      if PastEnd(endTS, entry) {
        return true;
      }
      if entry.operation == Noop || entry.filtered {
        return true;
      }
      if IsTxnCommand(entry) {
        ok := HandleTxnOp(Classify(entry));
      } else {
        RunOne(exec, db, entry.change);
        ok := HandleNonTxnOp(entry.change);
      }
    }

    /** Replays a decoded chunk: entries before the time frame are skipped, the first one after it
        ends the replay. `lts` is the time of the last entry handled. */
    method Apply(src: seq<Entry<Op>>) returns (lts: Timestamp, ok: bool)
      requires Valid()
      modifies this`db, this`txnData, this`lastOpT, txnCommit
      ensures Valid() && At(db, ok) == HandleAll(exec, old(At(db, true)), Events(InFrame(startTS, endTS, src)))
      ensures ok ==> lts == LastTime(InFrame(startTS, endTS, src))
    {
      lts, ok := ZeroTS, true;
      ghost var handled: seq<Entry<Op>> := [];
      for i := 0 to |src|
        invariant Valid() && ok
        invariant InFrame(startTS, endTS, src) == handled + InFrame(startTS, endTS, src[i..])
        invariant At(db, ok) == HandleAll(exec, old(At(db, true)), Events(handled))
        invariant lts == LastTime(handled)
      {
        if Before(src[i].ts, startTS) {
          continue;
        }
        if PastEnd(endTS, src[i]) {
          assert handled + [] == handled;
          return;
        }
        ghost var next := handled + [src[i]];
        ghost var rest := InFrame(startTS, endTS, src[i + 1..]);
        assert src[i..][1..] == src[i + 1..];
        assert handled + ([src[i]] + rest) == next + rest;
        EventsAppend(handled, src[i]);
        ok := HandleOp(src[i]);
        if !ok {
          StoppedStays(exec, old(At(db, true)), Events(next), Events(rest));
          EventsConcat(next, rest);
          return;
        }
        lts := src[i].ts;
        lastOpT := src[i].ts.t;
        handled := next;
      }
      assert handled + [] == handled;
    }
  }

  /** The leftovers to apply, given the commits the shards published. */
  function Resolvable<Op>(txns: map<string, Txn<Op>>, commits: set<string>): set<string> {
    set id | id in txns && id in commits && txns[id].allOps
  }

  /** Committed somewhere, but known to be cut short here. */
  function CutShort<Op>(txns: map<string, Txn<Op>>, commits: set<string>): set<string> {
    set id | id in txns && id in commits && !txns[id].allOps
  }

  /** The operations of the transactions `order`, one block after the other. */
  function Blocks<Op>(txns: map<string, Txn<Op>>, order: seq<string>): seq<Op> {
    if order == [] then []
    else
      var id := order[|order| - 1];
      Blocks(txns, order[..|order| - 1]) + if id in txns then txns[id].ops else []
  }

  predicate Distinct(order: seq<string>) {
    forall i, j :: 0 <= i < j < |order| ==> order[i] != order[j]
  }

  /** In the middle of resolving `txns`: `rest` is left of them, `pending` not yet looked at. */
  ghost predicate Resolving<Op>(
    txns: map<string, Txn<Op>>, rest: map<string, Txn<Op>>, commits: set<string>, pending: set<string>,
    order: seq<string>)
  {
    && pending <= rest.Keys
    && rest == txns - (set id | id in order)
    && (forall id :: id in order <==> id in Resolvable(txns, commits) - pending)
    && Distinct(order)
  }

  predicate PastEnd<Op>(endTS: Timestamp, e: Entry<Op>) {
    endTS.t > 0 && Before(endTS, e.ts)
  }

  /** The entries of a chunk that a time frame lets through. */
  function InFrame<Op>(startTS: Timestamp, endTS: Timestamp, src: seq<Entry<Op>>): seq<Entry<Op>> {
    if src == [] then []
    else if Before(src[0].ts, startTS) then InFrame(startTS, endTS, src[1..])
    else if PastEnd(endTS, src[0]) then []
    else [src[0]] + InFrame(startTS, endTS, src[1..])
  }

  /** Without an end the frame has none: everything from the start on is let through. */
  lemma {:induction false} NoEndNoBound<Op>(startTS: Timestamp, endTS: Timestamp, src: seq<Entry<Op>>)
    requires endTS.t == 0
    ensures forall e :: e in InFrame(startTS, endTS, src) <==> e in src && !Before(e.ts, startTS)
    decreases |src|
  {
    if src != [] {
      NoEndNoBound(startTS, endTS, src[1..]);
      assert src == [src[0]] + src[1..];
    }
  }

  function LastTime<Op>(entries: seq<Entry<Op>>): Timestamp {
    if entries == [] then ZeroTS else entries[|entries| - 1].ts
  }

  // --- how the folds behave --------------------------------------------------------------------

  lemma RunOne<DB, Op>(exec: (DB, Op) -> Option<DB>, db: DB, op: Op)
    ensures RunOps(exec, db, [op]) == (match exec(db, op) case None => (db, false) case Some(d) => (d, true))
  {
    assert [op][..0] == [];
    assert RunOps(exec, db, [op][..0]) == (db, true);
  }

  lemma {:induction false} RunOpsStopped<DB, Op>(exec: (DB, Op) -> Option<DB>, db: DB, ops: seq<Op>, n: nat)
    requires n <= |ops| && !RunOps(exec, db, ops[..n]).1
    ensures RunOps(exec, db, ops) == RunOps(exec, db, ops[..n])
    decreases |ops|
  {
    if n == |ops| {
      assert ops[..n] == ops;
    } else {
      var before := ops[..|ops| - 1];
      assert before[..n] == ops[..n];
      RunOpsStopped(exec, db, before, n);
    }
  }

  lemma {:induction false} RunOpsConcat<DB, Op>(exec: (DB, Op) -> Option<DB>, db: DB, a: seq<Op>, b: seq<Op>)
    ensures RunOps(exec, db, a + b) ==
      if RunOps(exec, db, a).1 then RunOps(exec, RunOps(exec, db, a).0, b) else RunOps(exec, db, a)
    decreases |b|
  {
    if b == [] {
      assert a + b == a;
    } else {
      var b' := b[..|b| - 1];
      assert (a + b)[..|a + b| - 1] == a + b';
      RunOpsConcat(exec, db, a, b');
    }
  }

  lemma BlocksAppend<DB, Op>(
    exec: (DB, Op) -> Option<DB>, db: DB, txns: map<string, Txn<Op>>, order: seq<string>, id: string)
    requires id in txns
    ensures RunOps(exec, db, Blocks(txns, order + [id])) ==
      var (before, ok) := RunOps(exec, db, Blocks(txns, order));
      if ok then RunOps(exec, before, txns[id].ops) else (before, ok)
  {
    assert (order + [id])[..|order + [id]| - 1] == order;
    RunOpsConcat(exec, db, Blocks(txns, order), txns[id].ops);
  }

  lemma ResolvingStep<Op>(
    txns: map<string, Txn<Op>>, rest: map<string, Txn<Op>>, commits: set<string>, pending: set<string>,
    order: seq<string>, id: string)
    requires Resolving(txns, rest, commits, pending, order) && id in pending
    ensures if id in Resolvable(txns, commits)
      then Resolving(txns, rest - {id}, commits, pending - {id}, order + [id])
      else Resolving(txns, rest, commits, pending - {id}, order)
    ensures id in txns && rest[id] == txns[id] && id !in order
  {
    if id in Resolvable(txns, commits) {
      assert (set x | x in order + [id]) == (set x | x in order) + {id};
    }
  }

  lemma ResolvingDone<Op>(
    txns: map<string, Txn<Op>>, rest: map<string, Txn<Op>>, commits: set<string>, order: seq<string>)
    requires Resolving(txns, rest, commits, {}, order)
    ensures rest == txns - Resolvable(txns, commits)
    ensures forall id :: id in Resolvable(txns, commits) ==> id in order
  {
    assert (set id | id in order) == Resolvable(txns, commits);
  }

  lemma EventsAppend<Op>(entries: seq<Entry<Op>>, e: Entry<Op>)
    ensures Events(entries + [e]) == Events(entries) + [Classify(e)]
  {
  }

  lemma EventsConcat<Op>(a: seq<Entry<Op>>, b: seq<Entry<Op>>)
    ensures Events(a + b) == Events(a) + Events(b)
  {
  }

  lemma {:induction false} StoppedStays<DB, Op>(
    exec: (DB, Op) -> Option<DB>, s: Site<DB, Op>, a: seq<Event<Op>>, b: seq<Event<Op>>)
    requires !HandleAll(exec, s, a).ok
    ensures HandleAll(exec, s, a + b) == HandleAll(exec, s, a)
    decreases |b|
  {
    if b == [] {
      assert a + b == a;
    } else {
      assert (a + b)[..|a + b| - 1] == a + b[..|b| - 1];
      StoppedStays(exec, s, a, b[..|b| - 1]);
    }
  }
}
