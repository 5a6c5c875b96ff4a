/** The coordination protocol of an internal physical restore (pbm/restore/physical.go). The agents
    share nothing but status files on the storage; files are only ever added. Every read of a file,
    every write of a file and every change of a data directory is one step, and the steps of all
    agents interleave freely. Heartbeats are modelled by what a reader may conclude: at any moment a
    reader may find any heartbeat stale. */
module RestoreProtocol {

  datatype Status = Starting | Running | Done | PartlyDone | Error

  datatype Node = Node(rs: string, host: string)

  /** What a status file belongs to. */
  datatype Obj = OfNode(node: Node) | OfReplset(rs: string) | OfCluster

  datatype File = File(obj: Obj, status: Status)

  /** The fixed facts every agent starts with. `peers` holds the members of each replica set that
      are not arbiters, `leadRs` is the config server replica set (the only one if not sharded). */
  datatype Cluster = Cluster(
    peers: map<string, set<string>>,
    leadRs: string,
    primaries: set<Node>,
    fallback: set<Node>,
    allowPartlyDone: set<Node>)
  {
    predicate Member(n: Node) {
      n.rs in peers && n.host in peers[n.rs]
    }

    predicate IsClusterLeader(n: Node) {
      n in primaries && n.rs == leadRs
    }

    function PeerObjs(rs: string): set<Obj> {
      if rs in peers then set h | h in peers[rs] :: OfNode(Node(rs, h)) else {}
    }

    function ShardObjs(): set<Obj> {
      set rs | rs in peers :: OfReplset(rs)
    }
  }

  // ---------------------------------------------------------------------------------------------
  // Waiting for status files
  // ---------------------------------------------------------------------------------------------

  /** What one look at an object can show, in the order the files are read. */
  datatype Seen = SawUnreadable | SawError | SawStale | SawStatus | SawPartlyDone | SawNothing

  /** The local variables of the wait: `total` is what it was called with, `objs` what is left. */
  datatype Wait = Wait(
    status: Status, wholeCluster: bool, total: set<Obj>, objs: set<Obj>, curErr: bool, haveDone: bool, ret: Status)

  datatype Result = Ok(status: Status) | Failed

  function StartWait(status: Status, objs: set<Obj>, wholeCluster: bool): Wait {
    Wait(status, wholeCluster, objs, objs, false, false, status)
  }

  /** A look that ends the whole wait: a check that fails, or a failure of anybody, unless the wait is
      for `done`. */
  predicate Aborts(w: Wait, seen: Seen) {
    seen == SawUnreadable || (w.status != Done && (seen == SawError || seen == SawStale))
  }

  /** The effect of one look at object `f`. */
  function Absorb(w: Wait, f: Obj, seen: Seen): Wait {
    match seen
    case SawError | SawStale => w.(objs := w.objs - {f}, curErr := true)
    case SawStatus => w.(objs := w.objs - {f}, haveDone := true)
    case SawPartlyDone => w.(objs := w.objs - {f}, haveDone := true, ret := PartlyDone)
    case _ => w
  }

  /** The verdict once nothing is left to wait for. */
  function Verdict(w: Wait): Result {
    if !w.curErr then Ok(w.ret)
    else if w.haveDone && !w.wholeCluster then Ok(PartlyDone)
    else Failed
  }

  /** What a look may conclude while the storage holds `files`. A file that is reported was there;
      an absent file and a stale heartbeat may be reported at any time, as they may have been read
      earlier than the next file. */
  predicate MaySee(files: set<File>, f: Obj, status: Status, seen: Seen) {
    match seen
    case SawError => File(f, Error) in files
    case SawStatus => File(f, status) in files
    case SawPartlyDone => status == Done && File(f, PartlyDone) in files
    case _ => true
  }

  /** What a check for one file may answer. */
  datatype Check = Absent | Present | Unreadable

  /** One object as found on one tick: its files and the age of its heartbeat. */
  datatype Found = Found(error: Check, stale: bool, status: Check, partlyDone: Check)

  function Look(found: Found, status: Status): Seen {
    match found.error
    case Unreadable => SawUnreadable
    case Present => SawError
    case Absent =>
      if found.stale then SawStale
      else match found.status
        case Unreadable => SawUnreadable
        case Present => SawStatus
        case Absent =>
          if status != Done || found.partlyDone == Absent then SawNothing
          else if found.partlyDone == Present then SawPartlyDone
          else SawUnreadable
  }

  function LookAt(tick: map<Obj, Found>, f: Obj, status: Status): Seen {
    if f in tick then Look(tick[f], status) else SawNothing
  }

  /** The first thing object `f` shows from tick `k` on, whatever happens to the other objects. */
  function Sight(ticks: seq<map<Obj, Found>>, k: nat, f: Obj, status: Status): Seen
    decreases |ticks| - k
  {
    if k >= |ticks| then SawNothing
    else if LookAt(ticks[k], f, status) != SawNothing then LookAt(ticks[k], f, status)
    else Sight(ticks, k + 1, f, status)
  }

  predicate IsFailure(seen: Seen) {
    seen == SawError || seen == SawStale
  }

  predicate IsSuccess(seen: Seen) {
    seen == SawStatus || seen == SawPartlyDone
  }

  // --- what a look finds, said by the files themselves -------------------------------------------

  /** No error file, and a heartbeat. */
  predicate IsWell(found: Found) {
    found.error == Absent && !found.stale
  }

  /** An error file, or a heartbeat that has stopped without one. */
  predicate HasFailed(found: Found) {
    found.error == Present || (found.error == Absent && found.stale)
  }

  predicate HasWritten(found: Found) {
    IsWell(found) && found.status == Present
  }

  /** `partlyDone` in place of `done`; no other status has such a substitute. */
  predicate HasPartlyDone(found: Found, status: Status) {
    status == Done && IsWell(found) && found.status == Absent && found.partlyDone == Present
  }

  predicate HasNothing(found: Found, status: Status) {
    IsWell(found) && found.status == Absent && (status == Done ==> found.partlyDone == Absent)
  }

  /** One of the files that have to be checked cannot be. */
  predicate CannotTell(found: Found, status: Status) {
    || found.error == Unreadable
    || (IsWell(found) && found.status == Unreadable)
    || (status == Done && IsWell(found) && found.status == Absent && found.partlyDone == Unreadable)
  }

  /** Found like this, an object ends the whole wait. */
  predicate Stops(found: Found, status: Status) {
    CannotTell(found, status) || (status != Done && HasFailed(found))
  }

  lemma LookMeans(found: Found, status: Status)
    ensures Look(found, status) == SawUnreadable <==> CannotTell(found, status)
    ensures IsFailure(Look(found, status)) <==> HasFailed(found)
    ensures Look(found, status) == SawStatus <==> HasWritten(found)
    ensures Look(found, status) == SawPartlyDone <==> HasPartlyDone(found, status)
    ensures Look(found, status) == SawNothing <==> HasNothing(found, status)
  {
  }

  /** Tick `k` is the first on which the object shows anything. */
  ghost predicate FirstShows(ticks: seq<map<Obj, Found>>, o: Obj, status: Status, k: nat) {
    && k < |ticks| && o in ticks[k] && !HasNothing(ticks[k][o], status)
    && forall j :: 0 <= j < k && o in ticks[j] ==> HasNothing(ticks[j][o], status)
  }

  ghost predicate Wrote(ticks: seq<map<Obj, Found>>, o: Obj, status: Status) {
    exists k: nat :: FirstShows(ticks, o, status, k) && HasWritten(ticks[k][o])
  }

  ghost predicate WrotePartlyDone(ticks: seq<map<Obj, Found>>, o: Obj, status: Status) {
    exists k: nat :: FirstShows(ticks, o, status, k) && HasPartlyDone(ticks[k][o], status)
  }

  ghost predicate FailedFirst(ticks: seq<map<Obj, Found>>, o: Obj, status: Status) {
    exists k: nat :: FirstShows(ticks, o, status, k) && HasFailed(ticks[k][o])
  }

  lemma {:induction false} SightIsFirst(ticks: seq<map<Obj, Found>>, k: nat, o: Obj, status: Status)
    requires k <= |ticks| && forall j :: 0 <= j < k && o in ticks[j] ==> HasNothing(ticks[j][o], status)
    ensures Sight(ticks, k, o, status) != SawNothing ==>
      exists i: nat :: FirstShows(ticks, o, status, i) && Sight(ticks, k, o, status) == Look(ticks[i][o], status)
    ensures Sight(ticks, k, o, status) == SawNothing ==> forall i: nat :: !FirstShows(ticks, o, status, i)
    decreases |ticks| - k
  {
    if k < |ticks| {
      if o in ticks[k] {
        LookMeans(ticks[k][o], status);
      }
      if LookAt(ticks[k], o, status) == SawNothing {
        SightIsFirst(ticks, k + 1, o, status);
      } else {
        assert FirstShows(ticks, o, status, k);
      }
    }
  }

  lemma FirstIsFirst(ticks: seq<map<Obj, Found>>, o: Obj, status: Status, i: nat, j: nat)
    requires FirstShows(ticks, o, status, i) && FirstShows(ticks, o, status, j)
    ensures i == j
  {
  }

  /** The first thing an object shows is what its files are on the first tick that has any. */
  lemma SightMeans(ticks: seq<map<Obj, Found>>, o: Obj, status: Status)
    ensures Sight(ticks, 0, o, status) == SawStatus <==> Wrote(ticks, o, status)
    ensures Sight(ticks, 0, o, status) == SawPartlyDone <==> WrotePartlyDone(ticks, o, status)
    ensures IsFailure(Sight(ticks, 0, o, status)) <==> FailedFirst(ticks, o, status)
  {
    SightIsFirst(ticks, 0, o, status);
    if Sight(ticks, 0, o, status) != SawNothing {
      var i: nat :| FirstShows(ticks, o, status, i) && Sight(ticks, 0, o, status) == Look(ticks[i][o], status);
      LookMeans(ticks[i][o], status);
      forall k: nat | FirstShows(ticks, o, status, k) ensures k == i {
        FirstIsFirst(ticks, o, status, i, k);
      }
    }
  }

  /** The files found on a tick are on the storage; what is not found may be there all the same. */
  predicate Agrees(files: set<File>, f: Obj, status: Status, found: Found) {
    && (found.error == Present ==> File(f, Error) in files)
    && (found.status == Present ==> File(f, status) in files)
    && (found.partlyDone == Present ==> File(f, PartlyDone) in files)
  }

  /** What an agent may conclude is exactly what a look at the storage may show it. */
  lemma MaySeeIsLook(files: set<File>, f: Obj, status: Status, seen: Seen)
    ensures MaySee(files, f, status, seen) <==>
      exists found :: Agrees(files, f, status, found) && Look(found, status) == seen
  {
    if MaySee(files, f, status, seen) {
      var found := match seen
        case SawUnreadable => Found(Unreadable, false, Absent, Absent)
        case SawError => Found(Present, false, Absent, Absent)
        case SawStale => Found(Absent, true, Absent, Absent)
        case SawStatus => Found(Absent, false, Present, Absent)
        case SawPartlyDone => Found(Absent, false, Absent, Present)
        case SawNothing => Found(Absent, false, Absent, Absent);
      assert Agrees(files, f, status, found) && Look(found, status) == seen;
    }
  }

  /** The variables of a wait agree with what the objects that are off the list have shown. */
  ghost predicate Tallied(w: Wait, ticks: seq<map<Obj, Found>>) {
    var left := w.total - w.objs;
    && w.objs <= w.total
    && (forall o :: o in left ==>
          Sight(ticks, 0, o, w.status) != SawNothing && !Aborts(w, Sight(ticks, 0, o, w.status)))
    && (w.curErr <==> exists o :: o in left && IsFailure(Sight(ticks, 0, o, w.status)))
    && (w.haveDone <==> exists o :: o in left && IsSuccess(Sight(ticks, 0, o, w.status)))
    && (if exists o :: o in left && Sight(ticks, 0, o, w.status) == SawPartlyDone then w.ret == PartlyDone
        else w.ret == w.status)
  }

  lemma AbsorbTallies(w: Wait, ticks: seq<map<Obj, Found>>, f: Obj)
    requires Tallied(w, ticks) && f in w.objs
    requires var seen := Sight(ticks, 0, f, w.status); seen != SawNothing && !Aborts(w, seen)
    ensures Tallied(Absorb(w, f, Sight(ticks, 0, f, w.status)), ticks)
  {
    var seen := Sight(ticks, 0, f, w.status);
    var w' := Absorb(w, f, seen);
    assert w'.total - w'.objs == (w.total - w.objs) + {f};
    assert forall o :: o in w.total - w.objs ==> o in w'.total - w'.objs;
  }

  lemma {:induction false} PartlyDoneNeedsDone(ticks: seq<map<Obj, Found>>, k: nat, f: Obj, status: Status)
    ensures Sight(ticks, k, f, status) == SawPartlyDone ==> status == Done
    decreases |ticks| - k
  {
    if k < |ticks| {
      PartlyDoneNeedsDone(ticks, k + 1, f, status);
    }
  }

  /** What a wait over these ticks must answer. Everybody having written the status gives that status;
      for `done`, a replica set some of whose members are done, or a cluster all of whose replica sets
      are at least partly done, gives `partlyDone`. Everything else fails. */
  ghost predicate Answers(
    status: Status, objs: set<Obj>, wholeCluster: bool, ticks: seq<map<Obj, Found>>, r: Result)
  {
    && (r == Failed || r == Ok(status) || (status == Done && r == Ok(PartlyDone)))
    && (r == Ok(status) <==> objs != {} && forall o :: o in objs ==> Wrote(ticks, o, status))
    && (status == Done && r == Ok(PartlyDone) <==>
          && status == Done
          && (forall o :: o in objs ==>
                || Wrote(ticks, o, status) || WrotePartlyDone(ticks, o, status)
                || (FailedFirst(ticks, o, status) && !wholeCluster))
          && (exists o :: o in objs && (Wrote(ticks, o, status) || WrotePartlyDone(ticks, o, status)))
          && (exists o :: o in objs && !Wrote(ticks, o, status)))
  }

  /** The same by what the objects show first. */
  ghost predicate SightsAnswer(
    status: Status, objs: set<Obj>, wholeCluster: bool, ticks: seq<map<Obj, Found>>, r: Result)
  {
    && (r == Failed || r == Ok(status) || (status == Done && r == Ok(PartlyDone)))
    && (r == Ok(status) <==> objs != {} && forall o :: o in objs ==> Sight(ticks, 0, o, status) == SawStatus)
    && (status == Done && r == Ok(PartlyDone) <==>
          && status == Done
          && (forall o :: o in objs ==>
                var seen := Sight(ticks, 0, o, status); IsSuccess(seen) || (IsFailure(seen) && !wholeCluster))
          && (exists o :: o in objs && IsSuccess(Sight(ticks, 0, o, status)))
          && (exists o :: o in objs && Sight(ticks, 0, o, status) != SawStatus))
  }

  lemma SightsAreFiles(
    status: Status, objs: set<Obj>, wholeCluster: bool, ticks: seq<map<Obj, Found>>, r: Result)
    requires SightsAnswer(status, objs, wholeCluster, ticks, r)
    ensures Answers(status, objs, wholeCluster, ticks, r)
  {
    forall o | o in objs
      ensures Sight(ticks, 0, o, status) == SawStatus <==> Wrote(ticks, o, status)
      ensures Sight(ticks, 0, o, status) == SawPartlyDone <==> WrotePartlyDone(ticks, o, status)
      ensures IsFailure(Sight(ticks, 0, o, status)) <==> FailedFirst(ticks, o, status)
    {
      SightMeans(ticks, o, status);
    }
  }

  lemma VerdictBySights(w: Wait, ticks: seq<map<Obj, Found>>)
    requires Tallied(w, ticks) && w.objs == {} && w.total != {} && w.status != PartlyDone
    ensures SightsAnswer(w.status, w.total, w.wholeCluster, ticks, Verdict(w))
  {
    assert w.total - w.objs == w.total;
    forall o | o in w.total ensures Sight(ticks, 0, o, w.status) == SawPartlyDone ==> w.status == Done {
      PartlyDoneNeedsDone(ticks, 0, o, w.status);
    }
    var o :| o in w.total;
  }

  lemma VerdictAnswers(w: Wait, ticks: seq<map<Obj, Found>>)
    requires Tallied(w, ticks) && w.objs == {} && w.total != {} && w.status != PartlyDone
    ensures Answers(w.status, w.total, w.wholeCluster, ticks, Verdict(w))
  {
    VerdictBySights(w, ticks);
    SightsAreFiles(w.status, w.total, w.wholeCluster, ticks, Verdict(w));
  }

  lemma FailureAnswers(w: Wait, ticks: seq<map<Obj, Found>>, f: Obj)
    requires f in w.total && w.status != PartlyDone
    requires var seen := Sight(ticks, 0, f, w.status); seen == SawNothing || Aborts(w, seen)
    ensures Answers(w.status, w.total, w.wholeCluster, ticks, Failed)
  {
    assert SightsAnswer(w.status, w.total, w.wholeCluster, ticks, Failed);
    SightsAreFiles(w.status, w.total, w.wholeCluster, ticks, Failed);
  }

  /** The objects have shown nothing on the first `k` ticks. */
  ghost predicate Unseen(ticks: seq<map<Obj, Found>>, k: nat, objs: set<Obj>, status: Status) {
    forall o :: o in objs ==> Sight(ticks, 0, o, status) == Sight(ticks, k, o, status)
  }

  /** In the middle of tick `k`, with `pending` still to be looked at. */
  ghost predicate MidTick(w: Wait, ticks: seq<map<Obj, Found>>, k: nat, pending: set<Obj>) {
    && pending <= w.objs
    && Tallied(w, ticks)
    && Unseen(ticks, k, pending, w.status)
    && Unseen(ticks, k + 1, w.objs - pending, w.status)
  }

  lemma LookKeepsMidTick(w: Wait, ticks: seq<map<Obj, Found>>, k: nat, pending: set<Obj>, f: Obj)
    requires MidTick(w, ticks, k, pending) && k < |ticks| && f in pending
    requires !Aborts(w, LookAt(ticks[k], f, w.status))
    ensures MidTick(Absorb(w, f, LookAt(ticks[k], f, w.status)), ticks, k, pending - {f})
  {
    var seen := LookAt(ticks[k], f, w.status);
    assert Sight(ticks, 0, f, w.status) == Sight(ticks, k, f, w.status);
    if seen == SawNothing {
      assert Sight(ticks, k, f, w.status) == Sight(ticks, k + 1, f, w.status);
      assert w.objs - (pending - {f}) == (w.objs - pending) + {f};
    } else {
      AbsorbTallies(w, ticks, f);
      assert (w.objs - {f}) - (pending - {f}) == w.objs - pending;
    }
  }

  // --- one tick, by the files found on it --------------------------------------------------------

  ghost predicate Sometimes(tick: map<Obj, Found>, objs: set<Obj>, found: Found -> bool) {
    exists o :: o in objs && o in tick && found(tick[o])
  }

  predicate StillWaited(tick: map<Obj, Found>, o: Obj, status: Status) {
    o in tick ==> HasNothing(tick[o], status)
  }

  /** The wait `w` is what the looks at `seen` have made of `w0`: what showed anything is off the list. */
  ghost predicate Noted(w0: Wait, w: Wait, tick: map<Obj, Found>, seen: set<Obj>) {
    var status := w0.status;
    && !Sometimes(tick, seen, f => Stops(f, status))
    && (forall o :: o in w.objs <==> o in w0.objs && (o in seen ==> StillWaited(tick, o, status)))
    && (w.curErr <==> w0.curErr || Sometimes(tick, seen, f => HasFailed(f)))
    && (w.haveDone <==> w0.haveDone || Sometimes(tick, seen, f => HasWritten(f) || HasPartlyDone(f, status)))
    && w.ret == if Sometimes(tick, seen, f => HasPartlyDone(f, status)) then PartlyDone else w0.ret
  }

  lemma SometimesMore(tick: map<Obj, Found>, objs: set<Obj>, o: Obj, found: Found -> bool)
    ensures Sometimes(tick, objs + {o}, found) <==> Sometimes(tick, objs, found) || (o in tick && found(tick[o]))
  {
    if x :| x in objs && x in tick && found(tick[x]) {
      assert x in objs + {o};
    }
    assert o in objs + {o};
  }

  lemma LookIsNoted(w0: Wait, w: Wait, tick: map<Obj, Found>, seen: set<Obj>, o: Obj)
    requires Noted(w0, w, tick, seen) && w.status == w0.status && o in w.objs && o !in seen
    requires !Aborts(w, LookAt(tick, o, w.status))
    ensures Noted(w0, Absorb(w, o, LookAt(tick, o, w.status)), tick, seen + {o})
  {
    var status := w0.status;
    if o in tick {
      LookMeans(tick[o], status);
    }
    SometimesMore(tick, seen, o, f => Stops(f, status));
    SometimesMore(tick, seen, o, f => HasFailed(f));
    SometimesMore(tick, seen, o, f => HasWritten(f) || HasPartlyDone(f, status));
    SometimesMore(tick, seen, o, f => HasPartlyDone(f, status));
  }

  ghost predicate Ticking(w0: Wait, w: Wait, ticks: seq<map<Obj, Found>>, k: nat, pending: set<Obj>) {
    && k < |ticks| && MidTick(w, ticks, k, pending)
    && pending <= w0.objs && Noted(w0, w, ticks[k], w0.objs - pending)
    && w.status == w0.status && w.total == w0.total && w.wholeCluster == w0.wholeCluster
  }

  lemma TickGoesOn(w0: Wait, w: Wait, ticks: seq<map<Obj, Found>>, k: nat, pending: set<Obj>, f: Obj)
    requires Ticking(w0, w, ticks, k, pending) && f in pending && !Aborts(w, LookAt(ticks[k], f, w.status))
    ensures Ticking(w0, Absorb(w, f, LookAt(ticks[k], f, w.status)), ticks, k, pending - {f})
  {
    LookIsNoted(w0, w, ticks[k], w0.objs - pending, f);
    assert w0.objs - (pending - {f}) == (w0.objs - pending) + {f};
    LookKeepsMidTick(w, ticks, k, pending, f);
  }

  lemma TickStops(w0: Wait, w: Wait, ticks: seq<map<Obj, Found>>, k: nat, pending: set<Obj>, f: Obj)
    requires Ticking(w0, w, ticks, k, pending) && f in pending && Aborts(w, LookAt(ticks[k], f, w.status))
    requires w.status != PartlyDone
    ensures Sometimes(ticks[k], w0.objs, o => Stops(o, w0.status))
    ensures Answers(w0.status, w0.total, w0.wholeCluster, ticks, Failed)
  {
    LookMeans(ticks[k][f], w.status);
    assert Sight(ticks, 0, f, w.status) == Sight(ticks, k, f, w.status);
    FailureAnswers(w, ticks, f);
  }

  /** One tick of the wait: every object still waited for is looked at, in any order. */
  method WaitTick(w0: Wait, ticks: seq<map<Obj, Found>>, k: nat) returns (w: Wait, r: Result, aborted: bool)
    requires k < |ticks| && Tallied(w0, ticks) && w0.status != PartlyDone
    requires Unseen(ticks, k, w0.objs, w0.status)
    ensures aborted <==> Sometimes(ticks[k], w0.objs, f => Stops(f, w0.status))
    ensures aborted ==> r == Failed && Answers(w0.status, w0.total, w0.wholeCluster, ticks, r)
    ensures !aborted ==> Noted(w0, w, ticks[k], w0.objs)
    ensures !aborted ==> Tallied(w, ticks) && Unseen(ticks, k + 1, w.objs, w.status)
    ensures w.status == w0.status && w.total == w0.total && w.wholeCluster == w0.wholeCluster
  {
    w, r, aborted := w0, Failed, false;
    var pending := w.objs;
    while pending != {}
      invariant Ticking(w0, w, ticks, k, pending)
      decreases pending
    {
      var f :| f in pending;
      var seen := LookAt(ticks[k], f, w.status);
      if Aborts(w, seen) {
        TickStops(w0, w, ticks, k, pending, f);
        aborted := true;
        return;
      }
      TickGoesOn(w0, w, ticks, k, pending, f);
      w := Absorb(w, f, seen);
      pending := pending - {f};
    }
    assert w.objs - pending == w.objs && w0.objs - pending == w0.objs;
  }

  /** Waiting for `status` in all of `objs`, looking at them once per tick until the ticks run out. */
  method WaitFiles(status: Status, objs: set<Obj>, wholeCluster: bool, ticks: seq<map<Obj, Found>>)
    returns (r: Result)
    requires status != PartlyDone
    ensures Answers(status, objs, wholeCluster, ticks, r)
  {
    if objs == {} {
      return Failed;
    }
    var w := StartWait(status, objs, wholeCluster);
    var k := 0;
    while k < |ticks|
      invariant k <= |ticks| && Tallied(w, ticks) && w.objs != {}
      invariant w.status == status && w.total == objs && w.wholeCluster == wholeCluster
      invariant Unseen(ticks, k, w.objs, status)
    {
      var aborted: bool;
      w, r, aborted := WaitTick(w, ticks, k);
      if aborted {
        return;
      }
      if w.objs == {} {
        VerdictAnswers(w, ticks);
        return Verdict(w);
      }
      k := k + 1;
    }
    var f :| f in w.objs;
    FailureAnswers(w, ticks, f);
    return Failed;
  }

  // ---------------------------------------------------------------------------------------------
  // The agents
  // ---------------------------------------------------------------------------------------------

  /** Content of a directory: the data from before the restore, a copy in progress, the finished
      copy, or nothing. */
  datatype Data = Original | HalfRestored | Restored | Empty

  /** Whose status is agreed on: a node's own, its replica set's, the cluster's. */
  datatype Level = ForNode | ForReplset | ForCluster

  datatype Phase =
    | Init
    | Writing(level: Level, status: Status, outcome: Status)
    | Waiting(level: Level, wait: Wait)
    | Flushing
    | Flushed
    | Copying
    | Converged
    | StateFailed(status: Status)
    | StateFailedCluster(status: Status)
    | MarkingNode
    | MarkingReplset
    | MarkingCluster
    | ReadingError
    | ReadingDone
    | ReadingPartlyDone
    | CheckingHeartbeat
    | Cleaning(seen: Status)
    | Closed(seen: Status)
    | Crashed

  datatype NodeState = NodeState(phase: Phase, started: bool, finished: bool, dbpath: Data, fallbackDir: Data)

  const FreshNode := NodeState(Init, false, false, Original, Empty)

  datatype State = State(files: set<File>, nodes: map<Node, NodeState>)

  function Target(n: Node, level: Level): Obj {
    match level
    case ForNode => OfNode(n)
    case ForReplset => OfReplset(n.rs)
    case ForCluster => OfCluster
  }

  /** What has to be waited for before the status of a level may be written; an agent that has done
      its own part waits for the cluster. */
  function Awaited(c: Cluster, n: Node, level: Level): set<Obj> {
    match level
    case ForNode => {OfCluster}
    case ForReplset => c.PeerObjs(n.rs)
    case ForCluster => c.ShardObjs()
  }

  function WaitAt(c: Cluster, n: Node, level: Level, status: Status): Phase {
    Waiting(level, StartWait(status, Awaited(c, n, level), level != ForReplset))
  }

  /** `toState` after the status of `level` was written. Everybody takes part in writing `done`,
      otherwise only the primary and the cluster leader do. */
  function NextInToState(c: Cluster, n: Node, level: Level, status: Status): Phase {
    if level == ForNode && (n in c.primaries || status == Done) then WaitAt(c, n, ForReplset, status)
    else if level != ForCluster && (c.IsClusterLeader(n) || status == Done) then WaitAt(c, n, ForCluster, status)
    else WaitAt(c, n, ForNode, status)
  }

  /** `Snapshot` after `toState(status)` returned without an error. */
  function AfterToState(status: Status): Phase {
    match status
    case Starting => Writing(ForNode, Running, Running)
    case Running => Flushing
    case _ => Converged
  }

  predicate Unchanged(files: set<File>, files': set<File>, st: NodeState, st': NodeState, phase: Phase) {
    files' == files && st' == st.(phase := phase)
  }

  /** A write that reports an error may still have reached the storage. */
  predicate MayHaveWritten(files: set<File>, files': set<File>, f: File) {
    files' == files || files' == files + {f}
  }

  predicate StepWriting(c: Cluster, n: Node, files: set<File>, st: NodeState, files': set<File>, st': NodeState)
    requires st.phase.Writing?
  {
    var Writing(level, status, outcome) := st.phase;
    var f := File(Target(n, level), outcome);
    || (files' == files + {f} && st' == st.(phase := NextInToState(c, n, level, status)))
    || (MayHaveWritten(files, files', f) && st' == st.(phase := StateFailed(status)))
  }

  ghost predicate StepWaiting(files: set<File>, st: NodeState, files': set<File>, st': NodeState)
    requires st.phase.Waiting?
  {
    var Waiting(level, w) := st.phase;
    && files' == files
    && (|| st' == st.(phase := StateFailed(w.status))
        || (exists f, seen :: f in w.objs && MaySee(files, f, w.status, seen) && st' == LookStep(st, level, w, f, seen))
        || (w.objs == {} && w.total != {} && st' == st.(phase := VerdictStep(level, w))))
  }

  function LookStep(st: NodeState, level: Level, w: Wait, f: Obj, seen: Seen): NodeState {
    if Aborts(w, seen) then st.(phase := StateFailed(w.status))
    else st.(phase := Waiting(level, Absorb(w, f, seen)))
  }

  function VerdictStep(level: Level, w: Wait): Phase {
    if Verdict(w).Failed? then StateFailed(w.status)
    else if level == ForNode then AfterToState(w.status)
    else Writing(level, w.status, Verdict(w).status)
  }

  /** Flushing is one step: it moves the old data to the fallback directory, or removes it. */
  predicate StepRestoring(c: Cluster, n: Node, st: NodeState, st': NodeState)
    requires st.phase.Flushing? || st.phase.Flushed? || st.phase.Copying?
  {
    || st' == st.(phase := MarkingNode)
    || match st.phase
       case Flushing =>
         st' == NodeState(Flushed, true, st.finished, Empty, if n in c.fallback then st.dbpath else st.fallbackDir)
       case Flushed => st' == st.(phase := Copying, dbpath := HalfRestored)
       case _ => st' == st.(phase := Writing(ForNode, Done, Done), dbpath := Restored, finished := true)
  }

  /** The deferred error writes of `toState`, then `MarkFailed`. An error file that cannot be checked
      counts as present for the replica set, so that write may happen whatever the files are. */
  ghost predicate StepFailing(c: Cluster, n: Node, files: set<File>, st: NodeState, files': set<File>, st': NodeState)
    requires st.phase.StateFailed? || st.phase.StateFailedCluster? || st.phase.MarkingNode?
          || st.phase.MarkingReplset? || st.phase.MarkingCluster?
  {
    match st.phase
    case StateFailed(s) =>
      && st' == st.(phase := StateFailedCluster(s))
      && (files' == files || (n in c.primaries && s != Done && files' == files + {File(OfReplset(n.rs), Error)}))
    case StateFailedCluster(s) =>
      && st' == st.(phase := MarkingNode)
      && (files' == files || (c.IsClusterLeader(n) && s != Done && files' == files + {File(OfCluster, Error)}))
    case MarkingNode =>
      st' == st.(phase := MarkingReplset) && MayHaveWritten(files, files', File(OfNode(n), Error))
    case MarkingReplset =>
      st' == st.(phase := MarkingCluster) && MayHaveWritten(files, files', File(OfReplset(n.rs), Error))
    case _ =>
      && st' == st.(phase := ReadingError)
      && (|| files' == files
          || (&& n.rs == c.leadRs && files' == files + {File(OfCluster, Error)}
              && exists rs :: rs in c.peers && File(OfReplset(rs), Error) in files))
  }

  /** Looking for one cluster file: what is found was there, and a file that is there may be missed
      when its state cannot be read. */
  predicate StepLooking(
    files: set<File>, files': set<File>, st: NodeState, st': NodeState, status: Status, otherwise: Phase)
  {
    || (File(OfCluster, status) in files && Unchanged(files, files', st, st', Cleaning(status)))
    || Unchanged(files, files', st, st', otherwise)
  }

  /** `waitClusterStatus`: one file after the other, then the cluster heartbeat, then again. */
  predicate StepReading(files: set<File>, files': set<File>, st: NodeState, st': NodeState)
    requires st.phase.ReadingError? || st.phase.ReadingDone? || st.phase.ReadingPartlyDone? ||
             st.phase.CheckingHeartbeat?
  {
    match st.phase
    case ReadingError => StepLooking(files, files', st, st', Error, ReadingDone)
    case ReadingDone => StepLooking(files, files', st, st', Done, ReadingPartlyDone)
    case ReadingPartlyDone => StepLooking(files, files', st, st', PartlyDone, CheckingHeartbeat)
    case _ =>
      || Unchanged(files, files', st, st', ReadingError)
      || Unchanged(files, files', st, st', Cleaning(Error))
  }

  datatype Strategy = SkipCleanup | FullCleanup | FallbackCleanup

  predicate IsForCleanup(started: bool, finished: bool) {
    started && !finished
  }

  function ResolveCleanupStrategy(
    fallback: bool, allowPartlyDone: bool, seen: Status, started: bool, finished: bool): Strategy
  {
    if !started then SkipCleanup
    else match seen
      case Error =>
        if fallback then FallbackCleanup
        else if IsForCleanup(started, finished) then FullCleanup
        else SkipCleanup
      case PartlyDone =>
        if allowPartlyDone || !fallback then
          if IsForCleanup(started, finished) then FullCleanup else SkipCleanup
        else FallbackCleanup
      case _ => SkipCleanup
  }

  function CleanupOf(c: Cluster, n: Node, seen: Status, st: NodeState): Strategy {
    ResolveCleanupStrategy(n in c.fallback, n in c.allowPartlyDone, seen, st.started, st.finished)
  }

  /** Running the strategy, after which the fallback directory is dropped. */
  predicate StepCleaning(c: Cluster, n: Node, files: set<File>, st: NodeState, files': set<File>, st': NodeState)
    requires st.phase.Cleaning?
  {
    var strategy := CleanupOf(c, n, st.phase.seen, st);
    && st' == st.(
         phase := Closed(st.phase.seen),
         dbpath := (match strategy
                    case SkipCleanup => st.dbpath
                    case FullCleanup => Empty
                    case FallbackCleanup => st.fallbackDir),
         fallbackDir := if n in c.fallback then Empty else st.fallbackDir)
    && (|| files' == files
        || (strategy == FallbackCleanup && c.IsClusterLeader(n) && files' == files + {File(OfCluster, Error)}))
  }

  ghost predicate NodeStep(c: Cluster, n: Node, files: set<File>, st: NodeState, files': set<File>, st': NodeState) {
    match st.phase
    case Closed(_) | Crashed => false
    case _ =>
      || Unchanged(files, files', st, st', Crashed)
      || LiveStep(c, n, files, st, files', st')
  }

  ghost predicate LiveStep(c: Cluster, n: Node, files: set<File>, st: NodeState, files': set<File>, st': NodeState) {
    match st.phase
    case Init =>
      // the failure is not marked when the backup has no data for the shard
      || Unchanged(files, files', st, st', Writing(ForNode, Starting, Starting))
      || Unchanged(files, files', st, st', MarkingNode)
      || Unchanged(files, files', st, st', ReadingError)
    case Writing(_, _, _) => StepWriting(c, n, files, st, files', st')
    case Waiting(_, _) => StepWaiting(files, st, files', st')
    case Flushing | Flushed | Copying => files' == files && StepRestoring(c, n, st, st')
    case Converged =>
      || Unchanged(files, files', st, st', ReadingError)
      || Unchanged(files, files', st, st', MarkingNode)
    case StateFailed(_) | StateFailedCluster(_) | MarkingNode | MarkingReplset | MarkingCluster =>
      StepFailing(c, n, files, st, files', st')
    case ReadingError | ReadingDone | ReadingPartlyDone | CheckingHeartbeat => StepReading(files, files', st, st')
    case Cleaning(_) => StepCleaning(c, n, files, st, files', st')
    case _ => false
  }

  ghost predicate IsInit(c: Cluster, s: State) {
    && s.files == {}
    && (forall n :: n in s.nodes <==> c.Member(n))
    && (forall n :: n in s.nodes ==> s.nodes[n] == FreshNode)
  }

  /** One step of one agent; the others do not move. */
  ghost predicate Next(c: Cluster, s: State, s': State) {
    exists n :: n in s.nodes && Moves(c, n, s, s')
  }

  ghost predicate Moves(c: Cluster, n: Node, s: State, s': State)
    requires n in s.nodes
  {
    && s'.nodes.Keys == s.nodes.Keys
    && NodeStep(c, n, s.files, s.nodes[n], s'.files, s'.nodes[n])
    && forall m :: m in s.nodes && m != n ==> s'.nodes[m] == s.nodes[m]
  }

  ghost predicate IsRun(c: Cluster, run: seq<State>) {
    run != [] && IsInit(c, run[0]) && forall i :: 0 < i < |run| ==> Next(c, run[i - 1], run[i])
  }

  // ---------------------------------------------------------------------------------------------
  // What the files and the local states mean
  // ---------------------------------------------------------------------------------------------

  predicate IsGoal(status: Status) {
    status == Starting || status == Running || status == Done
  }

  predicate AllWrote(files: set<File>, objs: set<Obj>, status: Status) {
    forall o :: o in objs ==> File(o, status) in files
  }

  predicate Reported(files: set<File>, o: Obj, status: Status) {
    File(o, status) in files || (status == Done && File(o, PartlyDone) in files)
  }

  /** What stands behind the status of a group: all of its objects wrote it; `partlyDone` needs one
      member of a replica set that is done, and every replica set at least partly done. */
  predicate GroupBacked(files: set<File>, objs: set<Obj>, wholeCluster: bool, status: Status) {
    match status
    case Starting | Running | Done => AllWrote(files, objs, status)
    case PartlyDone =>
      if wholeCluster then forall o :: o in objs ==> Reported(files, o, Done)
      else exists o :: o in objs && File(o, Done) in files
    case Error => true
  }

  predicate Backed(c: Cluster, files: set<File>, f: File) {
    match f.obj
    case OfNode(n) => f.status != PartlyDone && (f.status == Running ==> File(f.obj, Starting) in files)
    case OfReplset(rs) => GroupBacked(files, c.PeerObjs(rs), false, f.status)
    case OfCluster => GroupBacked(files, c.ShardObjs(), true, f.status)
  }

  predicate FilesBacked(c: Cluster, files: set<File>) {
    forall f :: f in files ==> Backed(c, files, f)
  }

  /** Why an object is no longer waited for. */
  predicate Accounted(w: Wait, files: set<File>, o: Obj) {
    w.curErr || File(o, w.status) in files || (w.ret == PartlyDone && File(o, PartlyDone) in files)
  }

  predicate WaitBacked(w: Wait, files: set<File>) {
    && w.objs <= w.total
    && (forall o :: o in w.total && o !in w.objs ==> Accounted(w, files, o))
    && (w.haveDone ==> exists o :: o in w.total && Reported(files, o, w.status))
    && (w.ret == w.status || (w.status == Done && w.ret == PartlyDone))
    && (w.curErr ==> w.status == Done)
  }

  /** An agent works towards `done` only with the restore finished, towards the others before it. */
  predicate Stage(status: Status, st: NodeState) {
    IsGoal(status) && (if status == Done then st.started && st.finished else !st.started)
  }

  predicate PhaseBacked(c: Cluster, n: Node, files: set<File>, st: NodeState) {
    match st.phase
    case Init => !st.started
    case Writing(level, status, outcome) =>
      && Stage(status, st)
      && Backed(c, files, File(Target(n, level), outcome))
      && (outcome == status || (status == Done && outcome == PartlyDone))
      && (level == ForNode ==> outcome == status)
      && (level != ForNode ==> File(OfNode(n), status) in files)
    case Waiting(level, w) =>
      && Stage(w.status, st)
      && File(OfNode(n), w.status) in files
      && w.total == Awaited(c, n, level)
      && w.wholeCluster == (level != ForReplset)
      && WaitBacked(w, files)
    case Flushing => !st.started && File(OfCluster, Running) in files
    case Flushed => st.started && !st.finished && st.dbpath == Empty
    case Copying => st.started && !st.finished && st.dbpath == HalfRestored
    case Converged => st.started && st.finished
    case Cleaning(seen) => SeenBacked(files, seen)
    case Closed(seen) => SeenBacked(files, seen)
    case _ => true
  }

  predicate SeenBacked(files: set<File>, seen: Status) {
    seen == Error || ((seen == Done || seen == PartlyDone) && File(OfCluster, seen) in files)
  }

  /** The data an agent that is neither done with its clean-up nor dead has on disk. */
  predicate DataBacked(c: Cluster, n: Node, st: NodeState) {
    && (st.finished ==> st.started)
    && (if st.phase.Closed? then
          && st.dbpath == FinalData(n in c.fallback, n in c.allowPartlyDone, st.phase.seen, st.started, st.finished)
          && (n in c.fallback ==> st.fallbackDir == Empty)
        else
          && (!st.started ==> st.dbpath == Original)
          && (st.finished ==> st.dbpath == Restored)
          && (st.started && n in c.fallback ==> st.fallbackDir == Original))
  }

  /** The content a node ends up with, from its progress and the cluster status it saw. */
  function FinalData(fallback: bool, allowPartlyDone: bool, seen: Status, started: bool, finished: bool): Data {
    if !started then Original
    else if fallback && (seen == Error || (seen == PartlyDone && !allowPartlyDone)) then Original
    else if finished then Restored
    else Empty
  }

  predicate NodeOk(c: Cluster, n: Node, files: set<File>, st: NodeState) {
    && PhaseBacked(c, n, files, st)
    && DataBacked(c, n, st)
    && (File(OfNode(n), Done) in files ==> st.finished)
    && (st.started ==> File(OfCluster, Running) in files)
  }

  ghost predicate Inv(c: Cluster, s: State) {
    && FilesBacked(c, s.files)
    && (forall n :: n in s.nodes <==> c.Member(n))
    && (forall n :: n in s.nodes ==> NodeOk(c, n, s.files, s.nodes[n]))
  }

  // --- files are only added --------------------------------------------------------------------

  lemma GroupBackedMono(files: set<File>, files': set<File>, objs: set<Obj>, wholeCluster: bool, status: Status)
    requires files <= files' && GroupBacked(files, objs, wholeCluster, status)
    ensures GroupBacked(files', objs, wholeCluster, status)
  {
  }

  lemma BackedMono(c: Cluster, files: set<File>, files': set<File>, f: File)
    requires files <= files' && Backed(c, files, f)
    ensures Backed(c, files', f)
  {
    match f.obj
    case OfNode(_) =>
    case OfReplset(rs) => GroupBackedMono(files, files', c.PeerObjs(rs), false, f.status);
    case OfCluster => GroupBackedMono(files, files', c.ShardObjs(), true, f.status);
  }

  lemma FilesBackedAdd(c: Cluster, files: set<File>, f: File)
    requires FilesBacked(c, files) && Backed(c, files, f)
    ensures FilesBacked(c, files + {f})
  {
    forall g | g in files + {f} ensures Backed(c, files + {f}, g) {
      BackedMono(c, files, files + {f}, g);
    }
  }

  lemma WaitBackedMono(w: Wait, files: set<File>, files': set<File>)
    requires files <= files' && WaitBacked(w, files)
    ensures WaitBacked(w, files')
  {
    forall o | o in w.total && o !in w.objs ensures Accounted(w, files', o) {
      assert Accounted(w, files, o);
    }
    if w.haveDone {
      var o :| o in w.total && Reported(files, o, w.status);
      assert Reported(files', o, w.status);
    }
  }

  lemma NodeOkMono(c: Cluster, n: Node, files: set<File>, files': set<File>, st: NodeState)
    requires files <= files' && NodeOk(c, n, files, st)
    requires File(OfNode(n), Done) in files' ==> File(OfNode(n), Done) in files
    ensures NodeOk(c, n, files', st)
  {
    match st.phase
    case Writing(level, _, outcome) => BackedMono(c, files, files', File(Target(n, level), outcome));
    case Waiting(_, w) => WaitBackedMono(w, files, files');
    case _ =>
  }

  // --- every step keeps the invariant ----------------------------------------------------------

  /** What a step of agent `n` may do to the files: add one about itself or its groups. */
  predicate Adds(n: Node, files: set<File>, files': set<File>) {
    files <= files' && forall f :: f in files' && f !in files ==> f.obj == OfNode(n) || !f.obj.OfNode?
  }

  ghost predicate Kept(c: Cluster, n: Node, files: set<File>, files': set<File>, st': NodeState) {
    Adds(n, files, files') && FilesBacked(c, files') && NodeOk(c, n, files', st')
  }

  lemma FreshWaitBacked(status: Status, objs: set<Obj>, wholeCluster: bool, files: set<File>)
    ensures WaitBacked(StartWait(status, objs, wholeCluster), files)
  {
  }

  lemma WritingKeeps(c: Cluster, n: Node, files: set<File>, st: NodeState, files': set<File>, st': NodeState)
    requires FilesBacked(c, files) && NodeOk(c, n, files, st) && st.phase.Writing?
    requires StepWriting(c, n, files, st, files', st')
    ensures Kept(c, n, files, files', st')
  {
    var Writing(level, status, outcome) := st.phase;
    var f := File(Target(n, level), outcome);
    FilesBackedAdd(c, files, f);
    if st'.phase.Waiting? {
      var w := st'.phase.wait;
      FreshWaitBacked(status, Awaited(c, n, st'.phase.level), w.wholeCluster, files');
    }
  }

  lemma LookKeeps(w: Wait, files: set<File>, f: Obj, seen: Seen)
    requires WaitBacked(w, files) && f in w.objs && MaySee(files, f, w.status, seen) && !Aborts(w, seen)
    ensures WaitBacked(Absorb(w, f, seen), files)
  {
    var w' := Absorb(w, f, seen);
    forall o | o in w'.total && o !in w'.objs ensures Accounted(w', files, o) {
      if o != f {
        assert Accounted(w, files, o);
      }
    }
    if seen == SawStatus || seen == SawPartlyDone {
      assert Reported(files, f, w.status);
    }
  }

  /** The verdict of a finished wait is backed by the files of everything that was waited for. */
  lemma VerdictBacked(c: Cluster, w: Wait, files: set<File>)
    requires WaitBacked(w, files) && w.objs == {} && w.total != {} && IsGoal(w.status) && Verdict(w).Ok?
    requires FilesBacked(c, files)
    requires !w.wholeCluster ==> forall o :: o in w.total ==> o.OfNode?
    ensures GroupBacked(files, w.total, w.wholeCluster, Verdict(w).status)
    ensures Verdict(w).status == w.status || (w.status == Done && Verdict(w).status == PartlyDone)
  {
    forall o | o in w.total ensures Accounted(w, files, o) {
    }
    if Verdict(w).status == PartlyDone && !w.wholeCluster {
      var o: Obj;
      if w.haveDone {
        o :| o in w.total && Reported(files, o, w.status);
      } else {
        o :| o in w.total;
        assert Accounted(w, files, o);
      }
      assert File(o, PartlyDone) in files ==> Backed(c, files, File(o, PartlyDone));
      assert File(o, Done) in files;
    }
  }

  lemma WaitingKeeps(c: Cluster, n: Node, files: set<File>, st: NodeState, files': set<File>, st': NodeState)
    requires FilesBacked(c, files) && NodeOk(c, n, files, st) && st.phase.Waiting?
    requires StepWaiting(files, st, files', st')
    ensures Kept(c, n, files, files', st')
  {
    var Waiting(level, w) := st.phase;
    if st' == st.(phase := StateFailed(w.status)) {
    } else if f, seen :| f in w.objs && MaySee(files, f, w.status, seen) && st' == LookStep(st, level, w, f, seen) {
      if !Aborts(w, seen) {
        LookKeeps(w, files, f, seen);
      }
    } else {
      if Verdict(w).Ok? {
        VerdictBacked(c, w, files);
        if level == ForNode {
          assert OfCluster in w.total;
        }
      }
    }
  }

  lemma RestoringKeeps(c: Cluster, n: Node, files: set<File>, st: NodeState, st': NodeState)
    requires FilesBacked(c, files) && NodeOk(c, n, files, st)
    requires (st.phase.Flushing? || st.phase.Flushed? || st.phase.Copying?) && StepRestoring(c, n, st, st')
    ensures Kept(c, n, files, files, st')
  {
  }

  lemma FailingKeeps(c: Cluster, n: Node, files: set<File>, st: NodeState, files': set<File>, st': NodeState)
    requires FilesBacked(c, files) && NodeOk(c, n, files, st)
    requires st.phase.StateFailed? || st.phase.StateFailedCluster? || st.phase.MarkingNode?
          || st.phase.MarkingReplset? || st.phase.MarkingCluster?
    requires StepFailing(c, n, files, st, files', st')
    ensures Kept(c, n, files, files', st')
  {
    FilesBackedAdd(c, files, File(OfNode(n), Error));
    FilesBackedAdd(c, files, File(OfReplset(n.rs), Error));
    FilesBackedAdd(c, files, File(OfCluster, Error));
  }

  /** Once the cluster is done, every member has finished its restore. */
  lemma ClusterDoneMeansAllWrote(c: Cluster, files: set<File>, n: Node)
    requires FilesBacked(c, files) && c.Member(n) && File(OfCluster, Done) in files
    ensures File(OfNode(n), Done) in files
  {
    assert Backed(c, files, File(OfCluster, Done));
    assert OfReplset(n.rs) in c.ShardObjs();
    assert Backed(c, files, File(OfReplset(n.rs), Done));
    assert OfNode(n) in c.PeerObjs(n.rs);
  }

  /** A partly done cluster has, in each replica set that exists and has members, one that is done. */
  lemma DoneMember(c: Cluster, files: set<File>, rs: string) returns (n: Node)
    requires FilesBacked(c, files) && rs in c.peers && File(OfCluster, PartlyDone) in files
    requires c.peers[rs] != {}
    ensures c.Member(n) && n.rs == rs && File(OfNode(n), Done) in files
  {
    assert Backed(c, files, File(OfCluster, PartlyDone));
    var r := OfReplset(rs);
    assert r in c.ShardObjs() && Reported(files, r, Done);
    if File(r, Done) in files {
      assert Backed(c, files, File(r, Done));
      var h :| h in c.peers[rs];
      n := Node(rs, h);
      assert OfNode(n) in c.PeerObjs(rs);
    } else {
      assert Backed(c, files, File(r, PartlyDone));
      var o :| o in c.PeerObjs(rs) && File(o, Done) in files;
      n := o.node;
    }
  }

  lemma CleaningKeeps(c: Cluster, n: Node, files: set<File>, st: NodeState, files': set<File>, st': NodeState)
    requires FilesBacked(c, files) && NodeOk(c, n, files, st) && st.phase.Cleaning? && c.Member(n)
    requires StepCleaning(c, n, files, st, files', st')
    ensures Kept(c, n, files, files', st')
  {
    FilesBackedAdd(c, files, File(OfCluster, Error));
    if st.phase.seen == Done {
      ClusterDoneMeansAllWrote(c, files, n);
    }
  }

  lemma NodeStepKeeps(c: Cluster, n: Node, files: set<File>, st: NodeState, files': set<File>, st': NodeState)
    requires FilesBacked(c, files) && NodeOk(c, n, files, st) && c.Member(n)
    requires NodeStep(c, n, files, st, files', st')
    ensures Kept(c, n, files, files', st')
  {
    if Unchanged(files, files', st, st', Crashed) {
    } else {
      match st.phase
      case Writing(_, _, _) => WritingKeeps(c, n, files, st, files', st');
      case Waiting(_, _) => WaitingKeeps(c, n, files, st, files', st');
      case Flushing | Flushed | Copying => RestoringKeeps(c, n, files, st, st');
      case StateFailed(_) | StateFailedCluster(_) | MarkingNode | MarkingReplset | MarkingCluster =>
        FailingKeeps(c, n, files, st, files', st');
      case Cleaning(_) => CleaningKeeps(c, n, files, st, files', st');
      case _ =>
    }
  }

  lemma NextKeepsInv(c: Cluster, s: State, s': State)
    requires Inv(c, s) && Next(c, s, s')
    ensures Inv(c, s') && s.files <= s'.files
  {
    var n :| n in s.nodes && Moves(c, n, s, s');
    NodeStepKeeps(c, n, s.files, s.nodes[n], s'.files, s'.nodes[n]);
    forall m | m in s'.nodes ensures NodeOk(c, m, s'.files, s'.nodes[m]) {
      if m != n {
        NodeOkMono(c, m, s.files, s'.files, s.nodes[m]);
      }
    }
  }

  lemma InitInv(c: Cluster, s: State)
    requires IsInit(c, s)
    ensures Inv(c, s)
  {
  }

  lemma RunPrefix(c: Cluster, run: seq<State>)
    requires IsRun(c, run) && |run| > 1
    ensures IsRun(c, run[..|run| - 1]) && Next(c, run[|run| - 2], run[|run| - 1])
  {
    var before := run[..|run| - 1];
    forall i | 0 < i < |before| ensures Next(c, before[i - 1], before[i]) {
      assert before[i - 1] == run[i - 1] && before[i] == run[i];
    }
  }

  lemma {:induction false} RunsKeepInv(c: Cluster, run: seq<State>)
    requires IsRun(c, run)
    ensures Inv(c, run[|run| - 1])
    decreases |run|
  {
    var n := |run|;
    if n == 1 {
      InitInv(c, run[0]);
    } else {
      RunPrefix(c, run);
      RunsKeepInv(c, run[..n - 1]);
      NextKeepsInv(c, run[n - 2], run[n - 1]);
    }
  }

  // --- the promises of the protocol ------------------------------------------------------------

  /** In every run, a node that closed holds the old data, the restored data or nothing, and no copy to
      fall back to. */
  lemma NoHalfRestoredNode(c: Cluster, run: seq<State>, n: Node)
    requires IsRun(c, run)
    requires var s := run[|run| - 1]; n in s.nodes && s.nodes[n].phase.Closed?
    ensures var st := run[|run| - 1].nodes[n];
      && st.dbpath != HalfRestored
      && st.dbpath == FinalData(n in c.fallback, n in c.allowPartlyDone, st.phase.seen, st.started, st.finished)
      && (st.phase.seen == Done && st.started ==> st.dbpath == Restored)
      && (n in c.fallback ==> st.fallbackDir == Empty)
  {
    RunsKeepInv(c, run);
    var s := run[|run| - 1];
    if s.nodes[n].phase.seen == Done {
      ClusterDoneMeansAllWrote(c, s.files, n);
    }
  }

  /** A node that started but did not finish never finds the cluster done. */
  lemma UnfinishedNeverSeesDone(c: Cluster, run: seq<State>, n: Node)
    requires IsRun(c, run)
    requires var s := run[|run| - 1]; n in s.nodes && s.nodes[n].started && !s.nodes[n].finished
    ensures File(OfCluster, Done) !in run[|run| - 1].files
  {
    RunsKeepInv(c, run);
    if File(OfCluster, Done) in run[|run| - 1].files {
      ClusterDoneMeansAllWrote(c, run[|run| - 1].files, n);
    }
  }

  /** The barrier: no data directory is touched before every member of every replica set has
      announced `starting` and `running`. */
  lemma FlushBarrier(c: Cluster, run: seq<State>, n: Node, m: Node)
    requires IsRun(c, run)
    requires var s := run[|run| - 1]; n in s.nodes && m in s.nodes && s.nodes[n].started
    ensures File(OfNode(m), Starting) in run[|run| - 1].files && File(OfNode(m), Running) in run[|run| - 1].files
  {
    RunsKeepInv(c, run);
    var files := run[|run| - 1].files;
    assert NodeOk(c, n, files, run[|run| - 1].nodes[n]);
    assert Backed(c, files, File(OfCluster, Running));
    assert OfReplset(m.rs) in c.ShardObjs();
    assert Backed(c, files, File(OfReplset(m.rs), Running));
    assert OfNode(m) in c.PeerObjs(m.rs);
    assert Backed(c, files, File(OfNode(m), Running));
  }

  /** `done` for the cluster means every member is done and holds the whole copy until its clean-up;
      `partlyDone` means every replica set has a member that is. */
  lemma FinalStates(c: Cluster, run: seq<State>)
    requires IsRun(c, run)
    ensures var s := run[|run| - 1];
      && (File(OfCluster, Done) in s.files ==>
            forall n :: n in s.nodes ==> File(OfNode(n), Done) in s.files && s.nodes[n].finished)
      && (File(OfCluster, PartlyDone) in s.files ==>
            forall rs :: rs in c.peers && c.peers[rs] != {} ==>
              exists n :: n in s.nodes && n.rs == rs && File(OfNode(n), Done) in s.files && s.nodes[n].finished)
  {
    RunsKeepInv(c, run);
    var s := run[|run| - 1];
    if File(OfCluster, Done) in s.files {
      forall n | n in s.nodes ensures File(OfNode(n), Done) in s.files && s.nodes[n].finished {
        ClusterDoneMeansAllWrote(c, s.files, n);
        assert NodeOk(c, n, s.files, s.nodes[n]);
      }
    }
    if File(OfCluster, PartlyDone) in s.files {
      forall rs | rs in c.peers && c.peers[rs] != {}
        ensures exists n :: n in s.nodes && n.rs == rs && File(OfNode(n), Done) in s.files && s.nodes[n].finished
      {
        var n := DoneMember(c, s.files, rs);
        assert NodeOk(c, n, s.files, s.nodes[n]);
      }
    }
  }
}
