/** The distributed lock (pbm/lock/lock.go). A lock is a document in a collection with a unique index;
    holders renew its heartbeat, and whoever finds a lock with an old heartbeat deletes it. Every read
    and write of the database is one step, and the steps of all agents interleave freely. */
module Lock {
  import opened Options
  import opened Timestamps

  /** An empty field is left out of documents and of filters. */
  datatype Header = Header(kind: string, replset: string, node: string, opid: string, epoch: Option<Timestamp>)

  datatype Doc = Doc(header: Header, hb: uint32)

  const PITR := "pitr"

  const STALE_FRAME_SEC: uint32 := 30

  /** A filter matches the documents that agree with it on the fields it has. */
  predicate Matches(filter: Header, h: Header) {
    && (filter.kind == "" || filter.kind == h.kind)
    && (filter.replset == "" || filter.replset == h.replset)
    && (filter.node == "" || filter.node == h.node)
    && (filter.opid == "" || filter.opid == h.opid)
    && (filter.epoch == None || filter.epoch == h.epoch)
  }

  /** The headers agents use: only PITR slicing runs without an operation id. */
  predicate Complete(h: Header) {
    h.kind != "" && h.replset != "" && h.node != "" && h.epoch.Some? && (h.opid == "" <==> h.kind == PITR)
  }

  /** For such headers a filter matches its own document only. */
  lemma MatchesIsEqual(a: Header, b: Header)
    requires Complete(a) && Complete(b)
    ensures Matches(a, b) <==> a == b
  {
  }

  // ---------------------------------------------------------------------------------------------
  // The collections
  // ---------------------------------------------------------------------------------------------

  type Key = (string, string)

  /** The lock documents by the fields of the unique index: the replica set and, in the collection of
      concurrent operations, the kind. */
  type Locks = map<Key, Doc>

  /** The log of operations, unique by operation id and replica set. */
  type OpLog = map<Key, Header>

  function KeyOf(perType: bool, h: Header): Key {
    (h.replset, if perType then h.kind else "")
  }

  function OpKey(h: Header): Key {
    (h.opid, h.replset)
  }

  /** Deletes one matching document, if there is any. */
  ghost predicate DeleteOne(locks: Locks, filter: Header, locks': Locks) {
    if exists k :: k in locks && Matches(filter, locks[k].header)
    then exists k :: k in locks && Matches(filter, locks[k].header) && locks' == locks - {k}
    else locks' == locks
  }

  /** Sets the heartbeat of one matching document, if there is any. */
  ghost predicate UpdateOne(locks: Locks, filter: Header, hb: uint32, locks': Locks) {
    if exists k :: k in locks && Matches(filter, locks[k].header)
    then exists k :: k in locks && Matches(filter, locks[k].header) && locks' == locks[k := locks[k].(hb := hb)]
    else locks' == locks
  }

  ghost predicate AllComplete(locks: Locks) {
    forall k :: k in locks ==> Complete(locks[k].header)
  }

  /** Whenever it happens, a deletion takes away no lock with another header. */
  lemma DeleteSparesOthers(locks: Locks, filter: Header, locks': Locks)
    requires AllComplete(locks) && Complete(filter) && DeleteOne(locks, filter, locks')
    ensures forall k :: k in locks && locks[k].header != filter ==> k in locks' && locks'[k] == locks[k]
    ensures forall k :: k in locks' ==> k in locks && locks'[k] == locks[k]
  {
    if k :| k in locks && Matches(filter, locks[k].header) && locks' == locks - {k} {
      MatchesIsEqual(filter, locks[k].header);
    }
  }

  /** Nor does a late beat renew one. */
  lemma UpdateSparesOthers(locks: Locks, filter: Header, hb: uint32, locks': Locks)
    requires AllComplete(locks) && Complete(filter) && UpdateOne(locks, filter, hb, locks')
    ensures locks'.Keys == locks.Keys
    ensures forall k :: k in locks ==> locks'[k].header == locks[k].header
    ensures forall k :: k in locks ==> locks'[k] == locks[k] || (locks[k].header == filter && locks'[k].hb == hb)
  {
    if k :| k in locks && Matches(filter, locks[k].header) && locks' == locks[k := locks[k].(hb := hb)] {
      MatchesIsEqual(filter, locks[k].header);
    }
  }

  /** Heartbeat too old, computed in 32 bits. */
  predicate IsStale(hb: uint32, ts: uint32) {
    (hb + STALE_FRAME_SEC) % 0x1_0000_0000 < ts
  }

  /** Close to the end of the 32-bit range every heartbeat looks old. */
  lemma FreshLooksStaleAtTheEnd(hb: uint32)
    ensures IsStale(hb, hb) <==> hb >= 0x1_0000_0000 - 30
  {
  }

  // ---------------------------------------------------------------------------------------------
  // The agents
  // ---------------------------------------------------------------------------------------------

  /** Where one attempt to take a lock, and then its use, has got to. */
  datatype Phase =
    | Idle
    | Timed(t: uint32)
    | Logging
    | Holding
    | Refused
    | SawPeer(doc: Doc, at: uint32)
    | SawTime(doc: Doc, ts: uint32)
    | Releasing
    | Finished

  /** One lock object. `beat` is a heartbeat on its way. */
  datatype Session = Session(header: Header, inserted: bool, acquired: bool, phase: Phase, beat: Option<uint32>)

  datatype State = State(clock: uint32, locks: Locks, oplog: OpLog, sessions: map<nat, Session>)

  /** The bounds of the argument: how old the heartbeat of a live lock gets, and how long a peer waits
      between reading a lock and reading the time. */
  datatype Setup = Setup(perType: bool, h: nat, d: nat)

  predicate IsLive(s: Session) {
    s.phase.Logging? || s.phase.Holding?
  }

  predicate InPlace(c: Setup, locks: Locks, s: Session) {
    var k := KeyOf(c.perType, s.header);
    k in locks && locks[k].header == s.header
  }

  ghost predicate Only(st: State, st': State, i: nat, s': Session)
    requires i in st.sessions
  {
    st'.clock == st.clock && st'.sessions == st.sessions[i := s']
  }

  ghost predicate Untouched(st: State, st': State) {
    st'.locks == st.locks && st'.oplog == st.oplog
  }

  /** Inserting the lock; an insert that reports an error may still have happened. */
  ghost predicate StepInsert(c: Setup, st: State, st': State, i: nat, s: Session)
    requires i in st.sessions && s.phase.Timed?
  {
    var k := KeyOf(c.perType, s.header);
    var inserted := st.locks[k := Doc(s.header, s.phase.t)];
    st'.oplog == st.oplog &&
    if k in st.locks then st'.locks == st.locks && Only(st, st', i, s.(phase := Refused))
    else st'.locks == inserted
         && (|| Only(st, st', i, s.(phase := Logging, inserted := true))
             || Only(st, st', i, s.(phase := Finished, inserted := true)))
  }

  /** Logging the operation. A duplicate, or any other error, gives the lock back. */
  ghost predicate StepLog(st: State, st': State, i: nat, s: Session)
    requires i in st.sessions && s.phase.Logging?
  {
    var k := OpKey(s.header);
    && st'.locks == st.locks
    && if s.header.kind == PITR then
         st'.oplog == st.oplog && Only(st, st', i, s.(phase := Holding, acquired := true))
       else
         || (k !in st.oplog && st'.oplog == st.oplog[k := s.header]
             && Only(st, st', i, s.(phase := Holding, acquired := true)))
         || (k !in st.oplog && st'.oplog == st.oplog[k := s.header] && Only(st, st', i, s.(phase := Releasing)))
         || (st'.oplog == st.oplog && Only(st, st', i, s.(phase := Releasing)))
  }

  /** Looking for the peer by replica set alone. */
  ghost predicate StepPeer(st: State, st': State, i: nat, s: Session)
    requires i in st.sessions && s.phase.Refused?
  {
    Untouched(st, st') &&
    exists k :: k in st.locks && st.locks[k].header.replset == s.header.replset
                && Only(st, st', i, s.(phase := SawPeer(st.locks[k], st.clock)))
  }

  /** A stale lock is deleted by its header; afterwards the caller may try again. */
  ghost predicate StepJudge(st: State, st': State, i: nat, s: Session)
    requires i in st.sessions && s.phase.SawTime?
  {
    && IsStale(s.phase.doc.hb, s.phase.ts)
    && st'.oplog == st.oplog && DeleteOne(st.locks, s.phase.doc.header, st'.locks)
    && (Only(st, st', i, s.(phase := Idle)) || Only(st, st', i, s.(phase := Finished)))
  }

  /** Giving up or crashing, and the heartbeat, which runs beside everything else. */
  ghost predicate StepAside(st: State, st': State, i: nat, s: Session)
    requires i in st.sessions
  {
    st'.oplog == st.oplog &&
    (|| (st'.locks == st.locks && Only(st, st', i, s.(phase := Finished)))
     || (st'.locks == st.locks && IsLive(s) && Only(st, st', i, s.(beat := Some(st.clock))))
     || (s.beat.Some? && UpdateOne(st.locks, s.header, s.beat.value, st'.locks) && Only(st, st', i, s.(beat := None))))
  }

  ghost predicate StepOn(c: Setup, st: State, st': State, i: nat, s: Session)
    requires i in st.sessions
  {
    match s.phase
    case Idle => Untouched(st, st') && Only(st, st', i, s.(phase := Timed(st.clock)))
    case Timed(_) => StepInsert(c, st, st', i, s)
    case Logging => StepLog(st, st', i, s)
    case Holding => Untouched(st, st') && Only(st, st', i, s.(phase := Releasing))
    case Refused => StepPeer(st, st', i, s)
    case SawPeer(doc, _) => Untouched(st, st') && Only(st, st', i, s.(phase := SawTime(doc, st.clock)))
    case SawTime(_, _) => StepJudge(st, st', i, s)
    case Releasing =>
      st'.oplog == st.oplog && DeleteOne(st.locks, s.header, st'.locks) && Only(st, st', i, s.(phase := Finished))
    case Finished => false
  }

  ghost predicate SessionStep(c: Setup, st: State, st': State, i: nat) {
    i in st.sessions && (StepAside(st, st', i, st.sessions[i]) || StepOn(c, st, st', i, st.sessions[i]))
  }

  ghost predicate TickStep(st: State, st': State) {
    Untouched(st, st') && st'.sessions == st.sessions && st.clock <= st'.clock
  }

  ghost predicate Next(c: Setup, st: State, st': State) {
    TickStep(st, st') || exists i :: SessionStep(c, st, st', i)
  }

  /** At the start nobody has tried yet. Sessions may share a header: a node that takes an operation
      twice, or PITR slicing that starts again. */
  ghost predicate Init(st: State) {
    && st.locks == map[] && st.oplog == map[]
    && (forall i :: i in st.sessions ==>
          Complete(st.sessions[i].header) && st.sessions[i] == Session(st.sessions[i].header, false, false, Idle, None))
  }

  ghost predicate IsUntimedRun(c: Setup, run: seq<State>) {
    run != [] && Init(run[0]) && forall i :: 0 < i < |run| ==> Next(c, run[i - 1], run[i])
  }

  /** The timing assumption: the heartbeats of live locks are at most `h` seconds old, nobody takes
      more than `d` seconds between reading a peer and reading the time, and the time is far from the
      end of its range. */
  ghost predicate Timely(c: Setup, st: State) {
    && st.clock < 0x1_0000_0000 - 30
    && (forall i :: i in st.sessions && IsLive(st.sessions[i]) && InPlace(c, st.locks, st.sessions[i]) ==>
          st.clock <= st.locks[KeyOf(c.perType, st.sessions[i].header)].hb + c.h)
    && (forall i :: i in st.sessions && st.sessions[i].phase.SawPeer? ==> st.clock <= st.sessions[i].phase.at + c.d)
  }

  ghost predicate IsRun(c: Setup, run: seq<State>) {
    IsUntimedRun(c, run) && forall i :: 0 <= i < |run| ==> Timely(c, run[i])
  }

  /** A deletion that names `h` is under way. */
  predicate PendingOn(s: Session, h: Header) {
    || (s.phase.Releasing? && s.header == h)
    || (s.phase.SawPeer? && s.phase.doc.header == h)
    || (s.phase.SawTime? && s.phase.doc.header == h)
  }

  /** In this step nobody takes a lock with a header that a pending deletion names. */
  ghost predicate Careful(st: State, st': State) {
    forall i, j :: i in st.sessions && i in st'.sessions && j in st.sessions ==>
      !IsLive(st.sessions[i]) && IsLive(st'.sessions[i]) ==> !PendingOn(st.sessions[j], st.sessions[i].header)
  }

  ghost predicate IsCarefulRun(c: Setup, run: seq<State>) {
    IsRun(c, run) && forall i :: 0 < i < |run| ==> Careful(run[i - 1], run[i])
  }

  // ---------------------------------------------------------------------------------------------
  // What every run keeps
  // ---------------------------------------------------------------------------------------------

  predicate DocOk(c: Setup, st: State, k: Key) {
    && k in st.locks && Complete(st.locks[k].header) && KeyOf(c.perType, st.locks[k].header) == k
    && st.locks[k].hb <= st.clock
  }

  ghost predicate DocsOk(c: Setup, st: State) {
    forall k :: k in st.locks ==> DocOk(c, st, k)
  }

  predicate SeenOk(clock: uint32, doc: Doc) {
    Complete(doc.header) && doc.hb <= clock
  }

  predicate Formed(clock: uint32, s: Session) {
    && Complete(s.header)
    && (s.beat.Some? ==> s.beat.value <= clock)
    && (s.phase.Timed? ==> s.phase.t <= clock)
    && (s.phase.SawPeer? ==> SeenOk(clock, s.phase.doc))
    && (s.phase.SawTime? ==> SeenOk(clock, s.phase.doc))
  }

  ghost predicate AllFormed(c: Setup, st: State) {
    DocsOk(c, st) && forall i :: i in st.sessions ==> Formed(st.clock, st.sessions[i])
  }

  /** What never goes back, and who moves. */
  ghost predicate Advances(st: State, st': State) {
    && st'.sessions.Keys == st.sessions.Keys
    && st.clock <= st'.clock
    && (forall k :: k in st.oplog ==> k in st'.oplog && st'.oplog[k] == st.oplog[k])
    && (forall j :: j in st.sessions ==> st'.sessions[j].header == st.sessions[j].header)
  }

  lemma OthersStay(c: Setup, st: State, st': State, i: nat)
    requires SessionStep(c, st, st', i)
    ensures st'.sessions.Keys == st.sessions.Keys && st'.clock == st.clock
    ensures st'.sessions[i].header == st.sessions[i].header
    ensures forall j :: j in st.sessions && j != i ==> st'.sessions[j] == st.sessions[j]
  {
  }

  lemma LogGrows(c: Setup, st: State, st': State, i: nat)
    requires SessionStep(c, st, st', i)
    ensures forall k :: k in st.oplog ==> k in st'.oplog && st'.oplog[k] == st.oplog[k]
  {
  }

  lemma NextAdvances(c: Setup, st: State, st': State)
    requires Next(c, st, st')
    ensures Advances(st, st')
  {
    if i :| SessionStep(c, st, st', i) {
      OthersStay(c, st, st', i);
      LogGrows(c, st, st', i);
    }
  }

  lemma DocsComplete(c: Setup, st: State)
    requires DocsOk(c, st)
    ensures AllComplete(st.locks)
  {
    forall k | k in st.locks ensures Complete(st.locks[k].header) {
      assert DocOk(c, st, k);
    }
  }

  /** The filter of the deletion that a session is about to make. */
  function Filter(s: Session): Header {
    if s.phase.SawTime? then s.phase.doc.header else s.header
  }

  predicate IsDeleting(s: Session) {
    s.phase.SawTime? || s.phase.Releasing?
  }

  /** The four ways a step treats the locks. */
  lemma LocksChange(c: Setup, st: State, st': State, i: nat)
    requires SessionStep(c, st, st', i)
    ensures var s := st.sessions[i];
      || st'.locks == st.locks
      || (s.beat.Some? && UpdateOne(st.locks, s.header, s.beat.value, st'.locks))
      || (s.phase.Timed? && KeyOf(c.perType, s.header) !in st.locks
          && st'.locks == st.locks[KeyOf(c.perType, s.header) := Doc(s.header, s.phase.t)])
      || (IsDeleting(s) && DeleteOne(st.locks, Filter(s), st'.locks)
          && (s.phase.SawTime? ==> IsStale(s.phase.doc.hb, s.phase.ts)))
  {
  }

  lemma StepKeepsDocs(c: Setup, st: State, st': State, i: nat)
    requires AllFormed(c, st) && SessionStep(c, st, st', i)
    ensures DocsOk(c, st')
  {
    var s := st.sessions[i];
    assert Formed(st.clock, s);
    OthersStay(c, st, st', i);
    LocksChange(c, st, st', i);
    DocsComplete(c, st);
    forall k | k in st'.locks ensures DocOk(c, st', k) {
      if s.beat.Some? && UpdateOne(st.locks, s.header, s.beat.value, st'.locks) {
        UpdateSparesOthers(st.locks, s.header, s.beat.value, st'.locks);
      } else if IsDeleting(s) && DeleteOne(st.locks, Filter(s), st'.locks) {
        DeleteSparesOthers(st.locks, Filter(s), st'.locks);
      }
      assert k in st.locks ==> DocOk(c, st, k);
    }
  }

  lemma LooksAt(c: Setup, st: State, st': State, i: nat) returns (k: Key)
    requires SessionStep(c, st, st', i) && st'.sessions[i].phase.SawPeer? && !st.sessions[i].phase.SawPeer?
    ensures k in st.locks && st'.sessions[i].phase == SawPeer(st.locks[k], st.clock) && st'.locks == st.locks
  {
    var s := st.sessions[i];
    assert s.phase.Refused?;
    k :| k in st.locks && st.locks[k].header.replset == s.header.replset
      && Only(st, st', i, s.(phase := SawPeer(st.locks[k], st.clock)));
  }

  /** What a step makes of the session that takes it. */
  predicate MovesTo(s: Session, s': Session, clock: uint32) {
    && s'.header == s.header
    && (s'.beat == s.beat || s'.beat == Some(clock) || s'.beat == None)
    && (s'.phase == s.phase ||
        match s'.phase
        case Timed(t) => t == clock
        case SawPeer(_, _) => s.phase.Refused?
        case SawTime(doc, ts) => s.phase.SawPeer? && s.phase.doc == doc && ts == clock
        case _ => true)
    && (IsTrying(s') ==> IsTrying(s) && s'.inserted == s.inserted)
  }

  predicate IsTrying(s: Session) {
    s.phase.Idle? || s.phase.Timed? || s.phase.Refused? || s.phase.SawPeer? || s.phase.SawTime?
  }

  lemma StepMoves(c: Setup, st: State, st': State, i: nat)
    requires SessionStep(c, st, st', i)
    ensures i in st'.sessions && MovesTo(st.sessions[i], st'.sessions[i], st.clock)
  {
  }

  lemma MovedIsFormed(c: Setup, st: State, st': State, i: nat)
    requires AllFormed(c, st) && SessionStep(c, st, st', i)
    ensures Formed(st'.clock, st'.sessions[i])
  {
    assert Formed(st.clock, st.sessions[i]);
    OthersStay(c, st, st', i);
    StepMoves(c, st, st', i);
    if st'.sessions[i].phase.SawPeer? && !st.sessions[i].phase.SawPeer? {
      var k := LooksAt(c, st, st', i);
      assert DocOk(c, st, k);
    }
  }

  lemma NextKeepsFormed(c: Setup, st: State, st': State)
    requires AllFormed(c, st) && Next(c, st, st')
    ensures AllFormed(c, st')
  {
    if i :| SessionStep(c, st, st', i) {
      OthersStay(c, st, st', i);
      StepKeepsDocs(c, st, st', i);
      MovedIsFormed(c, st, st', i);
    } else {
      forall k | k in st'.locks ensures DocOk(c, st', k) {
        assert DocOk(c, st, k);
      }
    }
  }

  // --- who can take the lock of a live holder ----------------------------------------------------

  predicate TakesFrom(s: Session, h: Header) {
    || (s.phase.Releasing? && s.header == h)
    || (s.phase.SawTime? && s.phase.doc.header == h && IsStale(s.phase.doc.hb, s.phase.ts))
  }

  lemma OthersCannotTake(c: Setup, st: State, st': State, i: nat, h: Header)
    requires AllFormed(c, st) && SessionStep(c, st, st', i) && Complete(h)
    requires var k := KeyOf(c.perType, h); k in st.locks && st.locks[k].header == h
    ensures TakesFrom(st.sessions[i], h) || var k := KeyOf(c.perType, h); k in st'.locks && st'.locks[k].header == h
  {
    var s := st.sessions[i];
    assert Formed(st.clock, s);
    DocsComplete(c, st);
    LocksChange(c, st, st', i);
    if s.beat.Some? && UpdateOne(st.locks, s.header, s.beat.value, st'.locks) {
      UpdateSparesOthers(st.locks, s.header, s.beat.value, st'.locks);
    } else if IsDeleting(s) && DeleteOne(st.locks, Filter(s), st'.locks) {
      DeleteSparesOthers(st.locks, Filter(s), st'.locks);
    }
  }

  lemma TakerCanTake(c: Setup, st: State, i: nat, h: Header) returns (st': State)
    requires AllFormed(c, st) && i in st.sessions && TakesFrom(st.sessions[i], h)
    requires var k := KeyOf(c.perType, h); k in st.locks && st.locks[k].header == h
    ensures SessionStep(c, st, st', i) && KeyOf(c.perType, h) !in st'.locks
  {
    var s, k := st.sessions[i], KeyOf(c.perType, h);
    var locks := st.locks - {k};
    st' := st.(locks := locks, sessions := st.sessions[i := s.(phase := Finished)]);
    assert Matches(h, st.locks[k].header);
    assert DeleteOne(st.locks, h, locks);
    assert StepOn(c, st, st', i, s);
  }

  /** Exactly these steps of another session can take the lock of a live holder: a release with the same
      header, and the deletion of a lock with that header that was seen and judged stale. */
  lemma TakenExactlyBy(c: Setup, st: State, i: nat, j: nat)
    requires AllFormed(c, st) && i in st.sessions && j in st.sessions && i != j
    requires IsLive(st.sessions[j]) && InPlace(c, st.locks, st.sessions[j])
    ensures (exists st' :: SessionStep(c, st, st', i) && !InPlace(c, st'.locks, st.sessions[j]))
            <==> TakesFrom(st.sessions[i], st.sessions[j].header)
  {
    var h := st.sessions[j].header;
    assert Formed(st.clock, st.sessions[j]);
    if st' :| SessionStep(c, st, st', i) && !InPlace(c, st'.locks, st.sessions[j]) {
      OthersCannotTake(c, st, st', i, h);
    }
    if TakesFrom(st.sessions[i], h) {
      var st' := TakerCanTake(c, st, i, h);
      assert SessionStep(c, st, st', i) && !InPlace(c, st'.locks, st.sessions[j]);
    }
  }

  // ---------------------------------------------------------------------------------------------
  // What timely and careful runs keep
  // ---------------------------------------------------------------------------------------------

  /** If a session with this header lives, `bound` holds. */
  ghost predicate IfLive(st: State, h: Header, bound: bool) {
    forall j :: j in st.sessions && st.sessions[j].header == h && IsLive(st.sessions[j]) ==> bound
  }

  ghost predicate SessionOk(c: Setup, st: State, s: Session) {
    && (IsLive(s) ==> InPlace(c, st.locks, s))
    && (s.phase.SawPeer? ==> IfLive(st, s.phase.doc.header, s.phase.at <= s.phase.doc.hb + c.h))
    && (s.phase.SawTime? ==>
          && s.phase.doc.hb < 0x1_0000_0000 - 30
          && IfLive(st, s.phase.doc.header, s.phase.ts <= s.phase.doc.hb + c.h + c.d))
    && (s.phase.Releasing? ==> IfLive(st, s.header, false))
  }

  ghost predicate OneLivePerKey(c: Setup, st: State) {
    forall i, j :: i in st.sessions && j in st.sessions && IsLive(st.sessions[i]) && IsLive(st.sessions[j]) ==>
      KeyOf(c.perType, st.sessions[i].header) == KeyOf(c.perType, st.sessions[j].header) ==> i == j
  }

  ghost predicate Inv(c: Setup, st: State) {
    && AllFormed(c, st) && OneLivePerKey(c, st)
    && (forall i :: i in st.sessions ==> SessionOk(c, st, st.sessions[i]))
  }

  /** The heart of it: a lock judged stale has no live holder. */
  lemma StaleIsDead(c: Setup, st: State, i: nat, j: nat)
    requires Inv(c, st) && c.h + c.d <= 30
    requires i in st.sessions && st.sessions[i].phase.SawTime?
    requires IsStale(st.sessions[i].phase.doc.hb, st.sessions[i].phase.ts)
    requires j in st.sessions && IsLive(st.sessions[j])
    ensures st.sessions[j].header != st.sessions[i].phase.doc.header
  {
    assert SessionOk(c, st, st.sessions[i]);
  }

  lemma NobodyTakes(c: Setup, st: State, i: nat, j: nat)
    requires Inv(c, st) && c.h + c.d <= 30 && i in st.sessions && j in st.sessions && IsLive(st.sessions[j])
    ensures !TakesFrom(st.sessions[i], st.sessions[j].header)
  {
    assert SessionOk(c, st, st.sessions[i]);
    if st.sessions[i].phase.SawTime? && IsStale(st.sessions[i].phase.doc.hb, st.sessions[i].phase.ts) {
      StaleIsDead(c, st, i, j);
    }
  }

  /** Becoming live means inserting the lock, in a place that was free. */
  lemma BecomesLive(c: Setup, st: State, st': State, i: nat)
    requires SessionStep(c, st, st', i) && !IsLive(st.sessions[i]) && IsLive(st'.sessions[i])
    ensures st.sessions[i].phase.Timed?
    ensures KeyOf(c.perType, st.sessions[i].header) !in st.locks && InPlace(c, st'.locks, st'.sessions[i])
  {
  }

  lemma LiveKeepsLock(c: Setup, st: State, st': State, i: nat, j: nat)
    requires Inv(c, st) && c.h + c.d <= 30 && SessionStep(c, st, st', i)
    requires j in st.sessions && j in st'.sessions && IsLive(st'.sessions[j])
    ensures InPlace(c, st'.locks, st'.sessions[j])
  {
    OthersStay(c, st, st', i);
    if IsLive(st.sessions[j]) {
      assert SessionOk(c, st, st.sessions[j]);
      assert Formed(st.clock, st.sessions[j]);
      NobodyTakes(c, st, i, j);
      OthersCannotTake(c, st, st', i, st.sessions[j].header);
    } else {
      BecomesLive(c, st, st', i);
    }
  }

  lemma OneLiveStays(c: Setup, st: State, st': State, i: nat)
    requires Inv(c, st) && SessionStep(c, st, st', i)
    ensures OneLivePerKey(c, st')
  {
    OthersStay(c, st, st', i);
    if !IsLive(st.sessions[i]) && IsLive(st'.sessions[i]) {
      BecomesLive(c, st, st', i);
      forall j | j in st.sessions && IsLive(st.sessions[j])
        ensures KeyOf(c.perType, st.sessions[j].header) != KeyOf(c.perType, st.sessions[i].header)
      {
        assert SessionOk(c, st, st.sessions[j]);
      }
    }
  }

  /** A careful step adds no live session with a header that is named. */
  lemma IfLiveStays(c: Setup, st: State, st': State, i: nat, j: nat, h: Header, bound: bool)
    requires SessionStep(c, st, st', i) && Careful(st, st') && IfLive(st, h, bound)
    requires j in st.sessions && PendingOn(st.sessions[j], h)
    ensures IfLive(st', h, bound)
  {
    OthersStay(c, st, st', i);
  }

  lemma StillSessionOk(c: Setup, st: State, st': State, i: nat, j: nat)
    requires Inv(c, st) && c.h + c.d <= 30 && SessionStep(c, st, st', i) && Careful(st, st')
    requires j in st.sessions && j in st'.sessions && st'.sessions[j].phase == st.sessions[j].phase
    ensures SessionOk(c, st', st'.sessions[j])
  {
    var s := st.sessions[j];
    assert SessionOk(c, st, s);
    OthersStay(c, st, st', i);
    if IsLive(s) {
      LiveKeepsLock(c, st, st', i, j);
    }
    match s.phase
    case SawPeer(doc, at) => IfLiveStays(c, st, st', i, j, doc.header, at <= doc.hb + c.h);
    case SawTime(doc, ts) => IfLiveStays(c, st, st', i, j, doc.header, ts <= doc.hb + c.h + c.d);
    case Releasing => IfLiveStays(c, st, st', i, j, s.header, false);
    case _ =>
  }

  /** Reading a peer: if its holder lives, its heartbeat is recent. */
  lemma PeerIsRecent(c: Setup, st: State, k: Key)
    requires Inv(c, st) && Timely(c, st) && k in st.locks
    ensures IfLive(st, st.locks[k].header, st.clock <= st.locks[k].hb + c.h)
  {
    assert DocOk(c, st, k);
    forall j | j in st.sessions && st.sessions[j].header == st.locks[k].header && IsLive(st.sessions[j])
      ensures st.clock <= st.locks[k].hb + c.h
    {
      assert SessionOk(c, st, st.sessions[j]);
    }
  }

  /** A session that stops being live leaves no other with its header. */
  lemma LastWithHeader(c: Setup, st: State, st': State, i: nat)
    requires Inv(c, st) && SessionStep(c, st, st', i) && IsLive(st.sessions[i]) && !IsLive(st'.sessions[i])
    ensures IfLive(st', st.sessions[i].header, false)
  {
    OthersStay(c, st, st', i);
  }

  lemma SeesRecent(c: Setup, st: State, st': State, i: nat)
    requires Inv(c, st) && Timely(c, st) && SessionStep(c, st, st', i)
    requires st'.sessions[i].phase.SawPeer? && !st.sessions[i].phase.SawPeer?
    ensures SessionOk(c, st', st'.sessions[i])
  {
    OthersStay(c, st, st', i);
    var k := LooksAt(c, st, st', i);
    PeerIsRecent(c, st, k);
  }

  lemma ReadsTime(c: Setup, st: State, st': State, i: nat)
    requires SessionStep(c, st, st', i) && st'.sessions[i].phase.SawTime? && !st.sessions[i].phase.SawTime?
    ensures st.sessions[i].phase.SawPeer? && st'.locks == st.locks
    ensures st'.sessions[i].phase == SawTime(st.sessions[i].phase.doc, st.clock)
  {
  }

  lemma SeesTime(c: Setup, st: State, st': State, i: nat)
    requires Inv(c, st) && Timely(c, st) && SessionStep(c, st, st', i)
    requires st'.sessions[i].phase.SawTime? && !st.sessions[i].phase.SawTime?
    ensures SessionOk(c, st', st'.sessions[i])
  {
    OthersStay(c, st, st', i);
    ReadsTime(c, st, st', i);
    var s := st.sessions[i];
    assert SessionOk(c, st, s) && Formed(st.clock, s);
    var doc := s.phase.doc;
    forall j | j in st'.sessions && st'.sessions[j].header == doc.header && IsLive(st'.sessions[j])
      ensures st.clock <= doc.hb + c.h + c.d
    {
      assert j != i && st'.sessions[j] == st.sessions[j];
    }
  }

  lemma MovedSessionOk(c: Setup, st: State, st': State, i: nat)
    requires Inv(c, st) && Timely(c, st) && c.h + c.d <= 30 && SessionStep(c, st, st', i)
    requires st'.sessions[i].phase != st.sessions[i].phase
    ensures SessionOk(c, st', st'.sessions[i])
  {
    var s, s' := st.sessions[i], st'.sessions[i];
    match s'.phase
    case Logging => LiveKeepsLock(c, st, st', i, i);
    case Holding => LiveKeepsLock(c, st, st', i, i);
    case Releasing =>
      ReleasesOwn(c, st, st', i);
      LastWithHeader(c, st, st', i);
    case SawPeer(_, _) =>
      NotSameKind(c, st, st', i);
      SeesRecent(c, st, st', i);
    case SawTime(_, _) =>
      NotSameKind(c, st, st', i);
      SeesTime(c, st, st', i);
    case _ =>
  }

  lemma ReleasesOwn(c: Setup, st: State, st': State, i: nat)
    requires SessionStep(c, st, st', i) && st'.sessions[i].phase.Releasing? && !st.sessions[i].phase.Releasing?
    ensures IsLive(st.sessions[i]) && st'.sessions[i].header == st.sessions[i].header
  {
  }

  lemma NotSameKind(c: Setup, st: State, st': State, i: nat)
    requires SessionStep(c, st, st', i) && st'.sessions[i].phase != st.sessions[i].phase
    ensures !(st.sessions[i].phase.SawPeer? && st'.sessions[i].phase.SawPeer?)
    ensures !(st.sessions[i].phase.SawTime? && st'.sessions[i].phase.SawTime?)
  {
  }

  lemma NextKeepsInv(c: Setup, st: State, st': State)
    requires Inv(c, st) && Timely(c, st) && c.h + c.d <= 30 && Next(c, st, st') && Careful(st, st')
    ensures Inv(c, st')
  {
    NextKeepsFormed(c, st, st');
    if i :| SessionStep(c, st, st', i) {
      OthersStay(c, st, st', i);
      OneLiveStays(c, st, st', i);
      forall j | j in st'.sessions ensures SessionOk(c, st', st'.sessions[j]) {
        if st'.sessions[j].phase == st.sessions[j].phase {
          StillSessionOk(c, st, st', i, j);
        } else {
          MovedSessionOk(c, st, st', i);
        }
      }
    } else {
      forall j | j in st'.sessions ensures SessionOk(c, st', st'.sessions[j]) {
        assert SessionOk(c, st, st.sessions[j]);
      }
    }
  }

  lemma UntimedPrefix(c: Setup, run: seq<State>)
    requires IsUntimedRun(c, run) && |run| > 1
    ensures IsUntimedRun(c, run[..|run| - 1]) && Next(c, run[|run| - 2], run[|run| - 1])
  {
    var before := run[..|run| - 1];
    forall i | 0 < i < |before| ensures Next(c, before[i - 1], before[i]) {
      assert before[i - 1] == run[i - 1] && before[i] == run[i];
    }
  }

  lemma CarefulPrefix(c: Setup, run: seq<State>)
    requires IsCarefulRun(c, run) && |run| > 1
    ensures IsCarefulRun(c, run[..|run| - 1]) && Timely(c, run[|run| - 2]) && Careful(run[|run| - 2], run[|run| - 1])
  {
    UntimedPrefix(c, run);
    var before := run[..|run| - 1];
    forall i | 0 <= i < |before| ensures Timely(c, before[i]) {
      assert before[i] == run[i];
    }
    forall i | 0 < i < |before| ensures Careful(before[i - 1], before[i]) {
      assert before[i - 1] == run[i - 1] && before[i] == run[i];
    }
  }

  lemma {:induction false} RunsKeepInv(c: Setup, run: seq<State>)
    requires IsCarefulRun(c, run) && c.h + c.d <= 30
    ensures Inv(c, run[|run| - 1])
    decreases |run|
  {
    if |run| > 1 {
      UntimedPrefix(c, run);
      CarefulPrefix(c, run);
      RunsKeepInv(c, run[..|run| - 1]);
      NextKeepsInv(c, run[|run| - 2], run[|run| - 1]);
    }
  }

  // --- the promises of the lock ----------------------------------------------------------------

  /** In every timely run with H + D at most 30 seconds, in which no header is taken again while a deletion
      naming it is pending, a live holder has its lock. */
  lemma HoldersHaveTheirLock(c: Setup, run: seq<State>, i: nat)
    requires IsCarefulRun(c, run) && c.h + c.d <= 30
    requires var st := run[|run| - 1]; i in st.sessions && IsLive(st.sessions[i])
    ensures InPlace(c, run[|run| - 1].locks, run[|run| - 1].sessions[i])
    ensures var st := run[|run| - 1]; exists k :: k in st.locks && st.locks[k].header == st.sessions[i].header
  {
    RunsKeepInv(c, run);
    var st := run[|run| - 1];
    assert SessionOk(c, st, st.sessions[i]);
  }

  /** So, in the ordinary collection, no two live holders have the same replica set, whatever they do; and in
      the other one none that do the same. */
  lemma MutualExclusion(c: Setup, run: seq<State>, i: nat, j: nat)
    requires IsCarefulRun(c, run) && c.h + c.d <= 30
    requires var st := run[|run| - 1];
      && i in st.sessions && j in st.sessions && IsLive(st.sessions[i]) && IsLive(st.sessions[j])
      && st.sessions[i].header.replset == st.sessions[j].header.replset
      && (c.perType ==> st.sessions[i].header.kind == st.sessions[j].header.kind)
    ensures i == j
  {
    RunsKeepInv(c, run);
  }

  /** Nothing else keeps a session out: its insert takes the place exactly if no lock stands there for the
      same replica set, in the other collection for the same kind of operation. */
  lemma InsertsExactly(c: Setup, st: State, i: nat)
    requires DocsOk(c, st) && i in st.sessions && st.sessions[i].phase.Timed?
    ensures (exists st' :: SessionStep(c, st, st', i) && IsLive(st'.sessions[i])) <==>
      forall k :: k in st.locks && st.locks[k].header.replset == st.sessions[i].header.replset ==>
        c.perType && st.locks[k].header.kind != st.sessions[i].header.kind
  {
    var s, k := st.sessions[i], KeyOf(c.perType, st.sessions[i].header);
    forall l | l in st.locks ensures KeyOf(c.perType, st.locks[l].header) == l {
      assert DocOk(c, st, l);
    }
    if k !in st.locks {
      var s' := s.(phase := Logging, inserted := true);
      var st' := State(st.clock, st.locks[k := Doc(s.header, s.phase.t)], st.oplog, st.sessions[i := s']);
      assert StepInsert(c, st, st', i, s);
      assert SessionStep(c, st, st', i) && IsLive(st'.sessions[i]);
    }
  }

  // --- who can get the lock ----------------------------------------------------------------------

  ghost predicate IsPath(c: Setup, path: seq<State>) {
    path != [] && forall n :: 0 < n < |path| ==> Next(c, path[n - 1], path[n])
  }

  lemma GoesTo(c: Setup, path: seq<State>, i: nat, st': State) returns (path': seq<State>)
    requires IsPath(c, path) && SessionStep(c, path[|path| - 1], st', i)
    ensures IsPath(c, path') && path'[0] == path[0] && path'[|path'| - 1] == st'
  {
    path' := path + [st'];
    forall n | 0 < n < |path'| ensures Next(c, path'[n - 1], path'[n]) {
      if n < |path| {
        assert path'[n - 1] == path[n - 1] && path'[n] == path[n];
      }
    }
  }

  function With(st: State, i: nat, s: Session): State {
    st.(sessions := st.sessions[i := s])
  }

  /** The operation has not been logged for this replica set, or is one that is not logged. */
  predicate IsUnlogged(oplog: OpLog, h: Header) {
    h.kind == PITR || forall k :: k in oplog ==> k != (h.opid, h.replset)
  }

  /** Holding, with the own document in the collection. */
  ghost predicate GotIt(c: Setup, st: State, i: nat) {
    i in st.sessions && st.sessions[i].phase.Holding? && st.sessions[i].acquired && InPlace(c, st.locks, st.sessions[i])
  }

  lemma InsertsAndLogs(c: Setup, path: seq<State>, i: nat) returns (path': seq<State>)
    requires IsPath(c, path)
    requires var st := path[|path| - 1];
      && i in st.sessions && st.sessions[i].phase.Timed?
      && KeyOf(c.perType, st.sessions[i].header) !in st.locks && IsUnlogged(st.oplog, st.sessions[i].header)
    ensures IsPath(c, path') && path'[0] == path[0] && GotIt(c, path'[|path'| - 1], i)
  {
    var st := path[|path| - 1];
    var s := st.sessions[i];
    var s1 := s.(phase := Logging, inserted := true);
    var st1 := With(st, i, s1).(locks := st.locks[KeyOf(c.perType, s.header) := Doc(s.header, s.phase.t)]);
    assert StepInsert(c, st, st1, i, s);
    path' := GoesTo(c, path, i, st1);
    var s2 := s1.(phase := Holding, acquired := true);
    var st2 := With(st1, i, s2);
    if s.header.kind != PITR {
      st2 := st2.(oplog := st.oplog[OpKey(s.header) := s.header]);
    }
    assert StepLog(st1, st2, i, s1);
    path' := GoesTo(c, path', i, st2);
  }

  /** A session that has not begun can get the lock if nothing stands in its place and its operation is new. */
  lemma CanTake(c: Setup, path: seq<State>, i: nat) returns (path': seq<State>)
    requires IsPath(c, path)
    requires var st := path[|path| - 1];
      && i in st.sessions && st.sessions[i].phase.Idle?
      && KeyOf(c.perType, st.sessions[i].header) !in st.locks && IsUnlogged(st.oplog, st.sessions[i].header)
    ensures IsPath(c, path') && path'[0] == path[0] && GotIt(c, path'[|path'| - 1], i)
  {
    var st := path[|path| - 1];
    var st1 := With(st, i, st.sessions[i].(phase := Timed(st.clock)));
    assert StepOn(c, st, st1, i, st.sessions[i]);
    path' := GoesTo(c, path, i, st1);
    path' := InsertsAndLogs(c, path', i);
  }

  /** A stale lock in the place is found, judged and deleted. */
  lemma DeletesStale(c: Setup, path: seq<State>, i: nat) returns (path': seq<State>)
    requires IsPath(c, path)
    requires var st := path[|path| - 1];
      && DocsOk(c, st) && i in st.sessions && st.sessions[i].phase.Refused?
      && var k := KeyOf(c.perType, st.sessions[i].header);
      && k in st.locks && IsStale(st.locks[k].hb, st.clock)
    ensures IsPath(c, path') && path'[0] == path[0]
    ensures var st, st' := path[|path| - 1], path'[|path'| - 1];
      && st' == With(st, i, st.sessions[i].(phase := Idle)).(locks := st'.locks)
      && st'.locks == st.locks - {KeyOf(c.perType, st.sessions[i].header)}
  {
    var st := path[|path| - 1];
    var s, k := st.sessions[i], KeyOf(c.perType, st.sessions[i].header);
    var doc := st.locks[k];
    assert DocOk(c, st, k);
    var s1, s2 := s.(phase := SawPeer(doc, st.clock)), s.(phase := SawTime(doc, st.clock));
    assert StepPeer(st, With(st, i, s1), i, s);
    path' := GoesTo(c, path, i, With(st, i, s1));
    assert With(With(st, i, s1), i, s2) == With(st, i, s2);
    assert StepOn(c, With(st, i, s1), With(st, i, s2), i, s1);
    path' := GoesTo(c, path', i, With(st, i, s2));
    var st3 := With(st, i, s.(phase := Idle)).(locks := st.locks - {k});
    assert With(With(st, i, s2), i, s.(phase := Idle)) == With(st, i, s.(phase := Idle));
    assert StepJudge(With(st, i, s2), st3, i, s2);
    path' := GoesTo(c, path', i, st3);
  }

  /** A lock whose heartbeat has gone stale keeps nobody out: whoever comes for its place can have it deleted
      and take the place. */
  lemma CanTakeOver(c: Setup, path: seq<State>, i: nat) returns (path': seq<State>)
    requires IsPath(c, path)
    requires var st := path[|path| - 1];
      && DocsOk(c, st) && i in st.sessions && st.sessions[i].phase.Idle? && IsUnlogged(st.oplog, st.sessions[i].header)
      && var k := KeyOf(c.perType, st.sessions[i].header);
      && k in st.locks && IsStale(st.locks[k].hb, st.clock)
    ensures IsPath(c, path') && path'[0] == path[0] && GotIt(c, path'[|path'| - 1], i)
  {
    var st := path[|path| - 1];
    var s1, s2 := st.sessions[i].(phase := Timed(st.clock)), st.sessions[i].(phase := Refused);
    assert StepOn(c, st, With(st, i, s1), i, st.sessions[i]);
    path' := GoesTo(c, path, i, With(st, i, s1));
    assert With(With(st, i, s1), i, s2) == With(st, i, s2);
    assert StepInsert(c, With(st, i, s1), With(st, i, s2), i, s1);
    path' := GoesTo(c, path', i, With(st, i, s2));
    assert DocsOk(c, With(st, i, s2)) by {
      assert forall k :: k in st.locks ==> DocOk(c, st, k);
    }
    path' := DeletesStale(c, path', i);
    path' := CanTake(c, path', i);
  }

  /** An insert may report an error although the lock is there now; nobody holds it then. */
  lemma InsertMayFailLate(c: Setup, st: State, i: nat) returns (st': State)
    requires i in st.sessions && st.sessions[i].phase.Timed? && KeyOf(c.perType, st.sessions[i].header) !in st.locks
    ensures SessionStep(c, st, st', i) && !IsLive(st'.sessions[i]) && InPlace(c, st'.locks, st'.sessions[i])
  {
    var s := st.sessions[i];
    st' := With(st, i, s.(phase := Finished, inserted := true)).(
      locks := st.locks[KeyOf(c.perType, s.header) := Doc(s.header, s.phase.t)]);
    assert StepInsert(c, st, st', i, s);
  }

  /** A live holder can always renew the heartbeat of its lock, and changes nothing else by it. */
  lemma CanBeat(c: Setup, path: seq<State>, i: nat) returns (path': seq<State>)
    requires IsPath(c, path)
    requires var st := path[|path| - 1];
      && i in st.sessions && IsLive(st.sessions[i]) && InPlace(c, st.locks, st.sessions[i])
      && Complete(st.sessions[i].header)
    ensures IsPath(c, path') && path'[0] == path[0]
    ensures var st, st' := path[|path| - 1], path'[|path'| - 1];
      var k := KeyOf(c.perType, st.sessions[i].header);
      && k in st.locks && st'.locks == st.locks[k := st.locks[k].(hb := st.clock)]
      && st'.sessions == st.sessions[i := st.sessions[i].(beat := None)]
  {
    var st := path[|path| - 1];
    var s, k := st.sessions[i], KeyOf(c.perType, st.sessions[i].header);
    var st1 := With(st, i, s.(beat := Some(st.clock)));
    assert StepAside(st, st1, i, s);
    path' := GoesTo(c, path, i, st1);
    var st2 := With(st, i, s.(beat := None)).(locks := st.locks[k := st.locks[k].(hb := st.clock)]);
    assert With(st1, i, s.(beat := None)) == With(st, i, s.(beat := None));
    assert UpdateOne(st1.locks, s.header, st.clock, st2.locks);
    assert StepAside(st1, st2, i, st1.sessions[i]);
    path' := GoesTo(c, path', i, st2);
  }

  /** Every deletion and every beat has an outcome, whatever is there. */
  lemma DatabaseAnswers(locks: Locks, filter: Header, hb: uint32)
    ensures (exists locks' :: DeleteOne(locks, filter, locks')) && exists locks' :: UpdateOne(locks, filter, hb, locks')
  {
    if k :| k in locks && Matches(filter, locks[k].header) {
      assert DeleteOne(locks, filter, locks - {k});
      assert UpdateOne(locks, filter, hb, locks[k := locks[k].(hb := hb)]);
    } else {
      assert DeleteOne(locks, filter, locks) && UpdateOne(locks, filter, hb, locks);
    }
  }

  // --- distinct headers are careful --------------------------------------------------------------

  ghost predicate DistinctHeaders(st: State) {
    forall i, j :: i in st.sessions && j in st.sessions && st.sessions[i].header == st.sessions[j].header ==> i == j
  }

  /** Some session has inserted a lock with this header. */
  ghost predicate WasTaken(st: State, h: Header) {
    exists j :: j in st.sessions && st.sessions[j].header == h && st.sessions[j].inserted
  }

  ghost predicate TracksInserts(st: State, s: Session) {
    && (IsTrying(s) ==> !s.inserted)
    && (s.phase.SawPeer? ==> WasTaken(st, s.phase.doc.header))
    && (s.phase.SawTime? ==> WasTaken(st, s.phase.doc.header))
  }

  ghost predicate InsertInv(st: State) {
    && (forall k :: k in st.locks ==> WasTaken(st, st.locks[k].header))
    && (forall i :: i in st.sessions ==> TracksInserts(st, st.sessions[i]))
  }

  lemma TakenStays(c: Setup, st: State, st': State, i: nat, h: Header)
    requires SessionStep(c, st, st', i) && WasTaken(st, h)
    ensures WasTaken(st', h)
  {
    var j :| j in st.sessions && st.sessions[j].header == h && st.sessions[j].inserted;
    OthersStay(c, st, st', i);
    assert st'.sessions[j].header == h && st'.sessions[j].inserted;
  }

  lemma StepKeepsTaken(c: Setup, st: State, st': State, i: nat, k: Key)
    requires AllFormed(c, st) && InsertInv(st) && SessionStep(c, st, st', i) && k in st'.locks
    ensures WasTaken(st', st'.locks[k].header)
  {
    var s := st.sessions[i];
    assert Formed(st.clock, s);
    DocsComplete(c, st);
    LocksChange(c, st, st', i);
    if s.beat.Some? && UpdateOne(st.locks, s.header, s.beat.value, st'.locks) {
      UpdateSparesOthers(st.locks, s.header, s.beat.value, st'.locks);
    } else if IsDeleting(s) && DeleteOne(st.locks, Filter(s), st'.locks) {
      DeleteSparesOthers(st.locks, Filter(s), st'.locks);
    }
    if k in st.locks {
      TakenStays(c, st, st', i, st.locks[k].header);
    } else {
      OthersStay(c, st, st', i);
      assert st'.sessions[i].header == s.header && st'.sessions[i].inserted;
    }
  }

  lemma MovedTracks(c: Setup, st: State, st': State, i: nat)
    requires InsertInv(st) && SessionStep(c, st, st', i)
    ensures TracksInserts(st', st'.sessions[i])
  {
    var s, s' := st.sessions[i], st'.sessions[i];
    assert TracksInserts(st, s);
    StepMoves(c, st, st', i);
    if s'.phase.SawPeer? && !s.phase.SawPeer? {
      var k := LooksAt(c, st, st', i);
      TakenStays(c, st, st', i, st.locks[k].header);
    } else if s'.phase.SawPeer? || s'.phase.SawTime? {
      TakenStays(c, st, st', i, s'.phase.doc.header);
    }
  }

  lemma NextKeepsInserts(c: Setup, st: State, st': State)
    requires AllFormed(c, st) && InsertInv(st) && Next(c, st, st')
    ensures InsertInv(st')
  {
    if i :| SessionStep(c, st, st', i) {
      OthersStay(c, st, st', i);
      forall k | k in st'.locks ensures WasTaken(st', st'.locks[k].header) {
        StepKeepsTaken(c, st, st', i, k);
      }
      forall j | j in st'.sessions ensures TracksInserts(st', st'.sessions[j]) {
        if j == i {
          MovedTracks(c, st, st', i);
        } else {
          assert TracksInserts(st, st.sessions[j]);
          if st.sessions[j].phase.SawPeer? || st.sessions[j].phase.SawTime? {
            TakenStays(c, st, st', i, st.sessions[j].phase.doc.header);
          }
        }
      }
    } else {
      forall h | WasTaken(st, h) ensures WasTaken(st', h) {
        var j :| j in st.sessions && st.sessions[j].header == h && st.sessions[j].inserted;
        assert st'.sessions[j].header == h && st'.sessions[j].inserted;
      }
      forall j | j in st'.sessions ensures TracksInserts(st', st'.sessions[j]) {
        assert TracksInserts(st, st.sessions[j]);
      }
    }
  }

  lemma {:induction false} RunsKeepInserts(c: Setup, run: seq<State>)
    requires IsUntimedRun(c, run) && DistinctHeaders(run[0])
    ensures var st := run[|run| - 1]; AllFormed(c, st) && InsertInv(st) && DistinctHeaders(st)
    decreases |run|
  {
    if |run| > 1 {
      UntimedPrefix(c, run);
      RunsKeepInserts(c, run[..|run| - 1]);
      NextKeepsFormed(c, run[|run| - 2], run[|run| - 1]);
      NextKeepsInserts(c, run[|run| - 2], run[|run| - 1]);
      NextAdvances(c, run[|run| - 2], run[|run| - 1]);
    }
  }

  lemma DistinctStepIsCareful(c: Setup, st: State, st': State)
    requires InsertInv(st) && DistinctHeaders(st) && Next(c, st, st')
    ensures Careful(st, st')
  {
    forall i, j | i in st.sessions && i in st'.sessions && j in st.sessions
      && !IsLive(st.sessions[i]) && IsLive(st'.sessions[i]) ensures !PendingOn(st.sessions[j], st.sessions[i].header)
    {
      var n :| SessionStep(c, st, st', n);
      OthersStay(c, st, st', n);
      BecomesLive(c, st, st', i);
      NewcomerIsNotNamed(st, i, j);
    }
  }

  lemma NewcomerIsNotNamed(st: State, i: nat, j: nat)
    requires InsertInv(st) && DistinctHeaders(st) && i in st.sessions && j in st.sessions && st.sessions[i].phase.Timed?
    ensures !PendingOn(st.sessions[j], st.sessions[i].header)
  {
    assert TracksInserts(st, st.sessions[i]) && TracksInserts(st, st.sessions[j]);
  }

  /** When the headers of all sessions differ, as those of logged operations do, every run is careful. */
  lemma DistinctHeadersAreCareful(c: Setup, run: seq<State>)
    requires IsRun(c, run) && DistinctHeaders(run[0])
    ensures IsCarefulRun(c, run)
  {
    forall i | 0 < i < |run| ensures Careful(run[i - 1], run[i]) {
      var before := run[..i];
      forall n | 0 < n < i ensures Next(c, before[n - 1], before[n]) {
        assert before[n - 1] == run[n - 1] && before[n] == run[n];
      }
      assert IsUntimedRun(c, before);
      RunsKeepInserts(c, before);
      DistinctStepIsCareful(c, run[i - 1], run[i]);
    }
  }

  // --- the log of operations, without any assumption about time or headers -----------------------

  predicate IsLogged(st: State, s: Session) {
    s.acquired && s.header.kind != PITR ==> OpKey(s.header) in st.oplog
  }

  ghost predicate LogInv(st: State) {
    && (forall i :: i in st.sessions ==> IsLogged(st, st.sessions[i]))
    && (forall i, j :: i in st.sessions && j in st.sessions && BothLogged(st.sessions[i], st.sessions[j]) ==> i == j)
  }

  /** Both acquired the same logged operation for the same replica set. */
  predicate BothLogged(s: Session, t: Session) {
    && s.acquired && t.acquired && s.header.kind != PITR && t.header.kind != PITR
    && s.header.opid == t.header.opid && s.header.replset == t.header.replset
  }

  lemma MovedIsLogged(c: Setup, st: State, st': State, i: nat)
    requires SessionStep(c, st, st', i) && IsLogged(st, st.sessions[i])
    ensures IsLogged(st', st'.sessions[i])
    ensures st'.sessions[i].acquired && !st.sessions[i].acquired && st.sessions[i].header.kind != PITR ==>
      OpKey(st.sessions[i].header) !in st.oplog
  {
  }

  lemma NextKeepsLog(c: Setup, st: State, st': State)
    requires LogInv(st) && Next(c, st, st')
    ensures LogInv(st')
  {
    if i :| SessionStep(c, st, st', i) {
      OthersStay(c, st, st', i);
      LogGrows(c, st, st', i);
      MovedIsLogged(c, st, st', i);
    }
  }

  lemma {:induction false} RunsKeepLog(c: Setup, run: seq<State>)
    requires IsUntimedRun(c, run)
    ensures LogInv(run[|run| - 1])
    decreases |run|
  {
    if |run| > 1 {
      UntimedPrefix(c, run);
      RunsKeepLog(c, run[..|run| - 1]);
      NextKeepsLog(c, run[|run| - 2], run[|run| - 1]);
    }
  }

  /** An operation that is logged is acquired at most once for a replica set, whoever tries, the same node
      included, and whatever becomes of the lock in the meantime. */
  lemma AcquiredOnce(c: Setup, run: seq<State>, i: nat, j: nat)
    requires IsUntimedRun(c, run)
    requires var st := run[|run| - 1];
      i in st.sessions && j in st.sessions && BothLogged(st.sessions[i], st.sessions[j])
    ensures i == j
  {
    RunsKeepLog(c, run);
  }

  // --- a header taken again too early ------------------------------------------------------------

  const QUICK := Setup(false, 10, 10)

  const PITR_HEADER := Header(PITR, "rs", "node", "", Some(Timestamp(1, 0)))

  const PITR_KEY := KeyOf(false, PITR_HEADER)

  /** The heartbeat of the lock, if it is there, and where two sessions with the same header have got. */
  function TwoAt(clock: uint32, hb: Option<uint32>, a: Session, b: Session): State {
    State(clock, if hb.Some? then map[PITR_KEY := Doc(PITR_HEADER, hb.value)] else map[], map[], map[0 := a, 1 := b])
  }

  function At(inserted: bool, acquired: bool, phase: Phase): Session {
    Session(PITR_HEADER, inserted, acquired, phase, None)
  }

  function Releaser(phase: Phase): Session {
    At(true, true, phase)
  }

  function Starter(phase: Phase): Session {
    At(false, false, phase)
  }

  /** Session 0 takes the lock and gives it up, but its deletion hangs (up to 4). The lock grows stale (5).
      Session 1 finds it, judges it stale, deletes it and takes its own (6 to 13). Then the deletion of
      session 0 arrives (14). */
  function Turn(n: nat): State {
    var seen := Doc(PITR_HEADER, 10);
    match n
    case 0 => TwoAt(10, None, Starter(Idle), Starter(Idle))
    case 1 => TwoAt(10, None, Starter(Timed(10)), Starter(Idle))
    case 2 => TwoAt(10, Some(10), At(true, false, Logging), Starter(Idle))
    case 3 => TwoAt(10, Some(10), Releaser(Holding), Starter(Idle))
    case 4 => TwoAt(10, Some(10), Releaser(Releasing), Starter(Idle))
    case 5 => TwoAt(50, Some(10), Releaser(Releasing), Starter(Idle))
    case 6 => TwoAt(50, Some(10), Releaser(Releasing), Starter(Timed(50)))
    case 7 => TwoAt(50, Some(10), Releaser(Releasing), Starter(Refused))
    case 8 => TwoAt(50, Some(10), Releaser(Releasing), Starter(SawPeer(seen, 50)))
    case 9 => TwoAt(50, Some(10), Releaser(Releasing), Starter(SawTime(seen, 50)))
    case 10 => TwoAt(50, None, Releaser(Releasing), Starter(Idle))
    case 11 => TwoAt(50, None, Releaser(Releasing), Starter(Timed(50)))
    case 12 => TwoAt(50, Some(50), Releaser(Releasing), At(true, false, Logging))
    case 13 => TwoAt(50, Some(50), Releaser(Releasing), Releaser(Holding))
    case _ => TwoAt(50, None, Releaser(Finished), Releaser(Holding))
  }

  lemma TurnsAreTimely(n: nat)
    ensures Timely(QUICK, Turn(n))
  {
  }

  lemma Goes(n: nat, i: nat)
    requires i in Turn(n).sessions && StepOn(QUICK, Turn(n), Turn(n + 1), i, Turn(n).sessions[i])
    ensures Next(QUICK, Turn(n), Turn(n + 1))
  {
    assert SessionStep(QUICK, Turn(n), Turn(n + 1), i);
  }

  lemma FirstTakes(n: nat)
    requires n < 2
    ensures Next(QUICK, Turn(n), Turn(n + 1))
  {
    var s := if n == 0 then Starter(Timed(10)) else At(true, false, Logging);
    assert Turn(n + 1).sessions == Turn(n).sessions[0 := s];
    Goes(n, 0);
  }

  lemma FirstGivesUp(n: nat)
    requires 2 <= n < 5
    ensures Next(QUICK, Turn(n), Turn(n + 1))
  {
    if n == 4 {
      assert TickStep(Turn(4), Turn(5));
    } else {
      var s := if n == 2 then Releaser(Holding) else Releaser(Releasing);
      assert Turn(n + 1).sessions == Turn(n).sessions[0 := s];
      Goes(n, 0);
    }
  }

  lemma SecondLooks(n: nat)
    requires 5 <= n < 9
    ensures Next(QUICK, Turn(n), Turn(n + 1))
  {
    assert Turn(n + 1).sessions == Turn(n).sessions[1 := Turn(n + 1).sessions[1]];
    assert PITR_KEY in Turn(n).locks && Turn(n).locks[PITR_KEY].header.replset == PITR_HEADER.replset;
    Goes(n, 1);
  }

  lemma Deletes(locks: Locks)
    requires PITR_KEY in locks && locks[PITR_KEY].header == PITR_HEADER && locks.Keys == {PITR_KEY}
    ensures DeleteOne(locks, PITR_HEADER, map[])
  {
    assert Matches(PITR_HEADER, locks[PITR_KEY].header);
    assert locks - {PITR_KEY} == map[];
  }

  lemma SecondTakes(n: nat)
    requires 9 <= n < 13
    ensures Next(QUICK, Turn(n), Turn(n + 1))
  {
    assert Turn(n + 1).sessions == Turn(n).sessions[1 := Turn(n + 1).sessions[1]];
    if n == 9 {
      Deletes(Turn(9).locks);
    }
    Goes(n, 1);
  }

  lemma DeletionArrives()
    ensures Next(QUICK, Turn(13), Turn(14))
  {
    assert Turn(14).sessions == Turn(13).sessions[0 := Releaser(Finished)];
    Deletes(Turn(13).locks);
    Goes(13, 0);
  }

  /** PITR slicing starts again with the header it had before, while the deletion of its old lock is still
      pending. A run from the start, with every heartbeat fresh and everybody quick, leads to a live holder
      without its lock; only the step that takes the lock again is not careful. */
  lemma ReusedHeaderIsNotSafe() returns (run: seq<State>)
    ensures QUICK.h + QUICK.d <= 30 && IsRun(QUICK, run) && |run| == 15
    ensures 1 in run[14].sessions && IsLive(run[14].sessions[1]) && !InPlace(QUICK, run[14].locks, run[14].sessions[1])
    ensures forall i :: 0 < i < |run| ==> (Careful(run[i - 1], run[i]) <==> i != 12)
  {
    run := seq(15, n requires 0 <= n < 15 => Turn(n));
    forall i | 0 <= i < 15 ensures Timely(QUICK, run[i]) {
      TurnsAreTimely(i);
    }
    forall i | 0 < i < 15 ensures Next(QUICK, run[i - 1], run[i]) {
      if i <= 2 {
        FirstTakes(i - 1);
      } else if i <= 5 {
        FirstGivesUp(i - 1);
      } else if i <= 9 {
        SecondLooks(i - 1);
      } else if i <= 13 {
        SecondTakes(i - 1);
      } else {
        DeletionArrives();
      }
    }
    forall i | 0 < i < 15 ensures Careful(run[i - 1], run[i]) <==> i != 12 {
      CarefulTurns(i);
    }
  }

  lemma CarefulTurns(i: nat)
    requires 0 < i < 15
    ensures Careful(Turn(i - 1), Turn(i)) <==> i != 12
  {
    if i == 12 {
      assert 0 in Turn(11).sessions && 1 in Turn(11).sessions && 1 in Turn(12).sessions;
      assert PendingOn(Turn(11).sessions[0], Turn(11).sessions[1].header);
    }
  }
}
