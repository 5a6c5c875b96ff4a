/** The lock as the agents use it (pbm/lock/lock.go): an object that inserts, renews and deletes its
    document in a shared collection. Here one agent runs at a time; module Lock lets them interleave. */
module LockClient {
  import opened Options
  import opened Timestamps
  import opened Lock

  /** The shared collections and the cluster time. */
  class Database {
    const perType: bool
    var clock: uint32
    var locks: Locks
    var oplog: OpLog

    constructor (perType: bool, clock: uint32)
      ensures Valid() && this.perType == perType && this.clock == clock && locks == map[] && oplog == map[]
    {
      this.perType := perType;
      this.clock := clock;
      locks, oplog := map[], map[];
    }

    /** Documents lie where the unique indexes put them. */
    ghost predicate Valid()
      reads this
    {
      && (forall k :: k in locks ==> KeyOf(perType, locks[k].header) == k && Complete(locks[k].header))
      && (forall k :: k in oplog ==> OpKey(oplog[k]) == k)
    }

    /** No lock stands for the same replica set or, in the other collection, for the same kind there. */
    ghost predicate IsFree(h: Header)
      reads this
    {
      forall k :: k in locks && locks[k].header.replset == h.replset ==> perType && locks[k].header.kind != h.kind
    }

    /** The operation has not been logged for this replica set. */
    ghost predicate IsUnlogged(h: Header)
      reads this
    {
      forall k :: k in oplog && oplog[k].opid == h.opid ==> oplog[k].replset != h.replset
    }

    method InsertLock(doc: Doc) returns (duplicate: bool)
      requires Valid() && Complete(doc.header)
      modifies this`locks
      ensures Valid() && duplicate == (KeyOf(perType, doc.header) in old(locks))
      ensures duplicate == !old(IsFree(doc.header))
      ensures locks == if duplicate then old(locks) else old(locks)[KeyOf(perType, doc.header) := doc]
    {
      var k := KeyOf(perType, doc.header);
      if k in locks {
        return true;
      }
      locks := locks[k := doc];
      duplicate := false;
    }

    method DeleteOne(filter: Header)
      requires Valid() && Complete(filter)
      modifies this`locks
      ensures Valid() && locks == Removed(perType, old(locks), filter) && OnlyThatIsGone(old(locks), locks, filter)
    {
      if k :| k in locks && Matches(filter, locks[k].header) {
        MatchesIsEqual(filter, locks[k].header);
        locks := locks - {k};
      } else {
        NothingToRemove(perType, locks, filter);
      }
    }

    method UpdateOne(filter: Header, hb: uint32)
      requires Valid() && Complete(filter)
      modifies this`locks
      ensures Valid() && locks == Renewed(perType, old(locks), filter, hb)
      ensures OnlyThatIsRenewed(old(locks), locks, filter, hb)
    {
      if k :| k in locks && Matches(filter, locks[k].header) {
        MatchesIsEqual(filter, locks[k].header);
        locks := locks[k := locks[k].(hb := hb)];
      } else {
        NothingToRemove(perType, locks, filter);
      }
    }

    method FindPeer(replset: string) returns (doc: Option<Doc>)
      ensures doc.Some? ==> exists k :: k in locks && locks[k] == doc.value && locks[k].header.replset == replset
      ensures doc.None? ==> forall k :: k in locks ==> locks[k].header.replset != replset
    {
      if k :| k in locks && locks[k].header.replset == replset {
        return Some(locks[k]);
      }
      doc := None;
    }

    method InsertLog(h: Header) returns (duplicate: bool)
      requires Valid()
      modifies this`oplog
      ensures Valid() && duplicate == (OpKey(h) in old(oplog)) && duplicate == !old(IsUnlogged(h))
      ensures oplog == if duplicate then old(oplog) else old(oplog)[OpKey(h) := h]
    {
      if OpKey(h) in oplog {
        return true;
      }
      oplog := oplog[OpKey(h) := h];
      duplicate := false;
    }
  }

  /** The collection without the document of this header. */
  function Removed(perType: bool, locks: Locks, h: Header): Locks {
    var k := KeyOf(perType, h);
    if k in locks && locks[k].header == h then locks - {k} else locks
  }

  function Renewed(perType: bool, locks: Locks, h: Header, hb: uint32): Locks {
    var k := KeyOf(perType, h);
    if k in locks && locks[k].header == h then locks[k := Doc(h, hb)] else locks
  }

  /** The documents with that header are gone and the others untouched. */
  ghost predicate OnlyThatIsGone(locks: Locks, locks': Locks, h: Header) {
    && (forall k :: k in locks' <==> k in locks && locks[k].header != h)
    && (forall k :: k in locks' ==> locks'[k] == locks[k])
  }

  ghost predicate OnlyThatIsRenewed(locks: Locks, locks': Locks, h: Header, hb: uint32) {
    && locks'.Keys == locks.Keys
    && (forall k :: k in locks ==> locks'[k].header == locks[k].header)
    && (forall k :: k in locks ==> locks'[k].hb == if locks[k].header == h then hb else locks[k].hb)
  }

  lemma NothingToRemove(perType: bool, locks: Locks, h: Header)
    requires Complete(h) && forall k :: k in locks ==> !Matches(h, locks[k].header)
    ensures var k := KeyOf(perType, h); !(k in locks && locks[k].header == h)
  {
    var k := KeyOf(perType, h);
    if k in locks && locks[k].header == h {
      assert !Matches(h, locks[k].header);
    }
  }

  /** What `Acquire` can answer: got it; refused without an error, because the operation already runs;
      or one of its errors. */
  datatype Answer = Got | Busy | ConcurrentOp(lock: Header) | StaleLock(lock: Header) | DuplicatedOp(op: Header)

  class LockObject {
    const header: Header
    const db: Database
    var heartbeat: uint32
    var beating: bool

    constructor (header: Header, db: Database)
      ensures this.header == header && this.db == db && !beating
    {
      this.header := header;
      this.db := db;
      heartbeat, beating := 0, false;
    }

    /** Got exactly if the place was free and the operation is not logged yet; then the lock is there
        with a fresh heartbeat. A stale lock of another is deleted but not taken. In all other cases
        the locks are as before. */
    method Acquire() returns (r: Answer)
      requires db.Valid() && Complete(header)
      modifies this`heartbeat, this`beating, db`locks, db`oplog
      ensures db.Valid()
      ensures var k := KeyOf(db.perType, header);
        var free := old(db.IsFree(header));
        var unlogged := header.kind == PITR || old(db.IsUnlogged(header));
        && (r == Got <==> free && unlogged)
        && (r == Got ==> beating && db.locks == old(db.locks)[k := Doc(header, db.clock)])
        && (r == Got ==>
              db.oplog == if header.kind == PITR then old(db.oplog) else old(db.oplog)[OpKey(header) := header])
        && (r != Got ==> db.oplog == old(db.oplog))
        && (r == DuplicatedOp(header) <==> free && !unlogged)
        && (r.DuplicatedOp? ==> db.locks == old(db.locks) && !beating)
      ensures !old(db.IsFree(header)) ==>
        exists k :: JudgedBy(old(db.locks), k, header, db.clock, r, db.locks)
    {
      var got := AcquireImpl();
      if got {
        r := LogOrGiveBack();
      } else {
        r := JudgePeer();
      }
    }

    /** PITR slicing is not logged; a duplicate gives the lock back. */
    method LogOrGiveBack() returns (r: Answer)
      requires db.Valid() && Complete(header) && beating
      requires KeyOf(db.perType, header) in db.locks && db.locks[KeyOf(db.perType, header)].header == header
      modifies this`beating, db`locks, db`oplog
      ensures db.Valid() && r == if header.kind == PITR || old(db.IsUnlogged(header)) then Got else DuplicatedOp(header)
      ensures r == Got ==> beating && db.locks == old(db.locks)
      ensures r == Got ==>
        db.oplog == if header.kind == PITR then old(db.oplog) else old(db.oplog)[OpKey(header) := header]
      ensures r != Got ==>
        !beating && db.oplog == old(db.oplog) && db.locks == old(db.locks) - {KeyOf(db.perType, header)}
    {
      var duplicate := false;
      if header.kind != PITR {
        duplicate := db.InsertLog(header);
      }
      if duplicate {
        Release();
        return DuplicatedOp(header);
      }
      r := Got;
    }

    /** Somebody else has the place: a lock of the replica set is looked at. */
    method JudgePeer() returns (r: Answer)
      requires db.Valid() && Complete(header) && !db.IsFree(header)
      modifies db`locks
      ensures db.Valid() && exists k :: JudgedBy(old(db.locks), k, header, db.clock, r, db.locks)
    {
      var found := db.FindPeer(header.replset);
      var peer := found.value;
      var k :| k in db.locks && db.locks[k] == peer && peer.header.replset == header.replset;
      r := if !IsStale(peer.hb, db.clock) then
             if header.opid != peer.header.opid then ConcurrentOp(peer.header) else Busy
           else StaleLock(peer.header);
      if r.StaleLock? {
        db.DeleteOne(peer.header);
      }
      assert JudgedBy(old(db.locks), k, header, db.clock, r, db.locks);
    }

    method AcquireImpl() returns (got: bool)
      requires db.Valid() && Complete(header)
      modifies this`heartbeat, this`beating, db`locks
      ensures db.Valid()
      ensures var k := KeyOf(db.perType, header);
        && got == (k !in old(db.locks)) && got == old(db.IsFree(header))
        && db.locks == (if got then old(db.locks)[k := Doc(header, db.clock)] else old(db.locks))
        && beating == (got || old(beating))
    {
      heartbeat := db.clock;
      var duplicate := db.InsertLock(Doc(header, heartbeat));
      if duplicate {
        return false;
      }
      beating := true;
      got := true;
    }

    method Release()
      requires db.Valid() && Complete(header)
      modifies this`beating, db`locks
      ensures db.Valid() && !beating && db.locks == Removed(db.perType, old(db.locks), header)
      ensures OnlyThatIsGone(old(db.locks), db.locks, header)
    {
      beating := false;
      db.DeleteOne(header);
    }

    method Beat()
      requires db.Valid() && Complete(header)
      modifies db`locks
      ensures db.Valid() && db.locks == Renewed(db.perType, old(db.locks), header, db.clock)
      ensures OnlyThatIsRenewed(old(db.locks), db.locks, header, db.clock)
    {
      db.UpdateOne(header, db.clock);
    }
  }

  /** What is answered on account of the lock at `k`, which is of the same replica set, and what becomes of
      the locks: a stale one is deleted, a living one is left alone. */
  ghost predicate JudgedBy(locks: Locks, k: Key, h: Header, clock: uint32, r: Answer, locks': Locks) {
    && k in locks && locks[k].header.replset == h.replset
    && if IsStale(locks[k].hb, clock) then r == StaleLock(locks[k].header) && locks' == locks - {k}
       else
         && locks' == locks
         && r == if locks[k].header.opid == h.opid then Busy else ConcurrentOp(locks[k].header)
  }
}
