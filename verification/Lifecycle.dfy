/** Retention of backups (pbm/lifecycle/manager.go): a report collects reasons to keep backups, keeps
    incremental chains whole, and refuses to delete anything if too few restore points would stay. */
module Lifecycle {
  import opened Options
  import opened Timestamps
  import opened Backups

  type Reasons = map<string, seq<string>>

  predicate Kept(reasons: Reasons, name: string) {
    name in reasons && reasons[name] != []
  }

  function NamesOf(names: seq<string>): set<string> {
    set n | n in names
  }

  function KeptNames(reasons: Reasons): set<string> {
    set n | n in reasons && reasons[n] != []
  }

  /** `name` has the reason now, once and behind those it had, and nothing else has changed. */
  predicate HasReason(reasons: Reasons, reasons': Reasons, name: string, reason: string) {
    var had := if name in reasons then reasons[name] else [];
    && reasons'.Keys == reasons.Keys + {name}
    && (forall m :: m in reasons && m != name ==> reasons'[m] == reasons[m])
    && reason in reasons'[name] && had <= reasons'[name]
    && (forall i :: |had| <= i < |reasons'[name]| ==> reasons'[name][i] == reason)
    && |reasons'[name]| == if reason in had then |had| else |had| + 1
  }

  /** A reason is listed once, behind those before it. */
  function WithReason(reasons: Reasons, name: string, reason: string): Reasons {
    var listed := if name in reasons then reasons[name] else [];
    if reason in listed then reasons else reasons[name := listed + [reason]]
  }

  lemma WithReasonIs(reasons: Reasons, name: string, reason: string)
    ensures HasReason(reasons, WithReason(reasons, name, reason), name, reason)
  {
    var listed := if name in reasons then reasons[name] else [];
    assert (listed + [reason])[|listed|] == reason;
  }

  // ---------------------------------------------------------------------------------------------
  // Chains are kept as a whole
  // ---------------------------------------------------------------------------------------------

  function BaseOf(bs: seq<Meta>, b: Meta): Option<Meta>
    requires Proper(bs) && b in bs && b.kind == Incremental
  {
    ByNameFinds(bs);
    FindBase(b, ByName(bs), {})
  }

  predicate InChain(bs: seq<Meta>, b: Meta, base: Meta)
    requires Proper(bs)
  {
    b in bs && b.kind == Incremental && BaseOf(bs, b) == Some(base)
  }

  /** The chain has a member that is kept or still running. */
  predicate Retained(bs: seq<Meta>, kept: set<string>, base: Meta)
    requires Proper(bs)
  {
    exists m :: m in bs && InChain(bs, m, base) && (m.name in kept || IsRunning(m))
  }

  /** An increment is kept if its links lead nowhere or if its chain is retained. */
  predicate ChainKeeps(bs: seq<Meta>, kept: set<string>, b: Meta)
    requires Proper(bs) && b in bs
  {
    && b.kind == Incremental && !IsRunning(b)
    && match BaseOf(bs, b)
       case None => true
       case Some(base) => Retained(bs, kept, base)
  }

  /** All or nothing: no chain has both a backup that stays and one that may go. */
  predicate ChainsWhole(bs: seq<Meta>, kept: set<string>)
    requires Proper(bs)
  {
    forall b :: b in bs && ChainKeeps(bs, kept, b) ==> b.name in kept
  }

  /** What the chain rules make of the kept names. */
  ghost predicate WithChains(bs: seq<Meta>, kept: set<string>, kept': set<string>)
    requires Proper(bs)
  {
    && kept <= kept'
    && (forall b :: b in bs ==> (b.name in kept' <==> b.name in kept || ChainKeeps(bs, kept, b)))
    && (forall n :: n in kept' && n !in kept ==> exists b :: b in bs && b.name == n)
  }

  /** The rules keep chains whole, and they add nothing when applied again. */
  lemma ChainRulesKeepChainsWhole(bs: seq<Meta>, kept: set<string>, kept': set<string>)
    requires Proper(bs) && WithChains(bs, kept, kept')
    ensures ChainsWhole(bs, kept')
  {
    forall b | b in bs && ChainKeeps(bs, kept', b) ensures b.name in kept' {
      if BaseOf(bs, b).Some? {
        var base := BaseOf(bs, b).value;
        var m :| m in bs && InChain(bs, m, base) && (m.name in kept' || IsRunning(m));
        if m.name !in kept && !IsRunning(m) {
          assert ChainKeeps(bs, kept, m);
        }
        assert Retained(bs, kept, base);
      }
    }
  }

  /** Members of one chain share their fate, unless they are running. */
  lemma ChainsShareFate(bs: seq<Meta>, kept: set<string>, a: Meta, b: Meta, base: Meta)
    requires Proper(bs) && ChainsWhole(bs, kept)
    requires InChain(bs, a, base) && InChain(bs, b, base) && !IsRunning(a) && !IsRunning(b)
    ensures a.name in kept <==> b.name in kept
  {
    if a.name in kept {
      assert Retained(bs, kept, base);
      assert ChainKeeps(bs, kept, b);
    }
    if b.name in kept {
      assert Retained(bs, kept, base);
      assert ChainKeeps(bs, kept, a);
    }
  }

  // ---------------------------------------------------------------------------------------------
  // The lists of a report
  // ---------------------------------------------------------------------------------------------

  function KeptList(bs: seq<Meta>, kept: set<string>): seq<string> {
    if bs == [] then []
    else
      var b, before := bs[|bs| - 1], KeptList(bs[..|bs| - 1], kept);
      if !IsRunning(b) && b.name in kept then before + [b.name] else before
  }

  function PurgedList(bs: seq<Meta>, kept: set<string>): seq<string> {
    if bs == [] then []
    else
      var b, before := bs[|bs| - 1], PurgedList(bs[..|bs| - 1], kept);
      if !IsRunning(b) && b.name !in kept then before + [b.name] else before
  }

  predicate IsEntryPoint(b: Meta) {
    b.kind != Incremental || b.src == ""
  }

  /** Of a chain only the base is a target. */
  function TargetList(bs: seq<Meta>, kept: set<string>): seq<string> {
    if bs == [] then []
    else
      var b, before := bs[|bs| - 1], TargetList(bs[..|bs| - 1], kept);
      if !IsRunning(b) && b.name !in kept && IsEntryPoint(b) then before + [b.name] else before
  }

  lemma {:induction false} ListsHold(bs: seq<Meta>, kept: set<string>, b: Meta)
    requires Proper(bs) && b in bs
    ensures b.name in KeptList(bs, kept) <==> !IsRunning(b) && b.name in kept
    ensures b.name in PurgedList(bs, kept) <==> !IsRunning(b) && b.name !in kept
    ensures b.name in TargetList(bs, kept) <==> !IsRunning(b) && b.name !in kept && IsEntryPoint(b)
    decreases |bs|
  {
    ProperPrefix(bs);
    if b in bs[..|bs| - 1] {
      ListsHold(bs[..|bs| - 1], kept, b);
    } else {
      ListsAreNames(bs[..|bs| - 1], kept, b.name);
    }
  }

  lemma {:induction false} ListsAreNames(bs: seq<Meta>, kept: set<string>, n: string)
    ensures n in KeptList(bs, kept) || n in PurgedList(bs, kept) || n in TargetList(bs, kept) ==>
      exists b :: b in bs && b.name == n
    decreases |bs|
  {
    if bs != [] {
      var before, b := bs[..|bs| - 1], bs[|bs| - 1];
      ListsAreNames(before, kept, n);
      assert b in bs && forall x :: x in before ==> x in bs;
    }
  }

  // ---------------------------------------------------------------------------------------------
  // Restore points
  // ---------------------------------------------------------------------------------------------

  /** A done, non-selective backup; of an increment, all ancestors have to be done as well. */
  predicate IsRestorePoint(b: Meta, byName: map<string, Meta>)
    requires Indexes(byName) && (b.kind == Incremental ==> b.name in byName)
  {
    b.status == Done && !b.selective && (b.kind == Incremental ==> IsComplete(b, byName, {}))
  }

  /** The kept restore points among the first `n` backups. */
  function CountKept(bs: seq<Meta>, kept: set<string>, n: nat): nat
    requires Proper(bs) && n <= |bs|
  {
    if n == 0 then 0
    else
      ByNameFinds(bs);
      var b := bs[n - 1];
      CountKept(bs, kept, n - 1) + if b.name in kept && IsRestorePoint(b, ByName(bs)) then 1 else 0
  }

  /** In fields: done and full, and of an increment a line of done backups down to its base. */
  ghost predicate IsPoint(bs: seq<Meta>, b: Meta) {
    b.status == Done && !b.selective && (b.kind == Incremental ==> HasDoneLine(ByName(bs), b, {}))
  }

  /** Among the first `n` backups, the restore points that are kept. */
  ghost function KeptPoints(bs: seq<Meta>, kept: set<string>, n: nat): set<Meta>
    requires n <= |bs|
  {
    set b | b in bs[..n] && b.name in kept && IsPoint(bs, b)
  }

  /** The number counted is the number of such backups. */
  lemma {:induction false} CountKeptIs(bs: seq<Meta>, kept: set<string>, n: nat)
    requires Proper(bs) && n <= |bs|
    ensures CountKept(bs, kept, n) == |KeptPoints(bs, kept, n)|
    decreases n
  {
    if n == 0 {
      assert KeptPoints(bs, kept, 0) == {};
    } else {
      ByNameFinds(bs);
      CountKeptIs(bs, kept, n - 1);
      PointIs(bs, bs[n - 1]);
      OneMorePoint(bs, kept, n);
    }
  }

  lemma PointIs(bs: seq<Meta>, b: Meta)
    requires Indexes(ByName(bs)) && (b.kind == Incremental ==> b.name in ByName(bs))
    ensures IsRestorePoint(b, ByName(bs)) <==> IsPoint(bs, b)
  {
    if b.kind == Incremental {
      IsCompleteExactly(b, ByName(bs));
    }
  }

  lemma OneMorePoint(bs: seq<Meta>, kept: set<string>, n: nat)
    requires Proper(bs) && 0 < n <= |bs|
    ensures |KeptPoints(bs, kept, n)| ==
      |KeptPoints(bs, kept, n - 1)| + if bs[n - 1].name in kept && IsPoint(bs, bs[n - 1]) then 1 else 0
  {
    var b, before := bs[n - 1], KeptPoints(bs, kept, n - 1);
    assert bs[..n] == bs[..n - 1] + [b];
    assert b !in bs[..n - 1];
    assert KeptPoints(bs, kept, n) == before + if b.name in kept && IsPoint(bs, b) then {b} else {};
  }

  // ---------------------------------------------------------------------------------------------
  // The report
  // ---------------------------------------------------------------------------------------------

  datatype Candidates = Candidates(anchors: seq<string>, previousRestoreTime: Timestamp, restoreTime: Timestamp)

  datatype Found = Ok(c: Candidates) | NoBaseFor(name: string) | TargetNotFound(name: string)

  const NoCandidates := Candidates([], ZeroTS, ZeroTS)

  predicate IsMainPITRBaseSnapshot(b: Meta) {
    !b.isProfile && IsValidBaseSnapshot(b)
  }

  class Report {
    const enabled: bool
    const minKeep: int
    var aborted: bool
    var backupsKept: seq<string>
    var backupsPurged: seq<string>
    var deleteTargets: seq<string>
    var keepReasons: Reasons

    constructor (enabled: bool, minKeep: int)
      ensures this.enabled == enabled && this.minKeep == minKeep
      ensures !aborted && keepReasons == map[] && backupsKept == backupsPurged == deleteTargets == []
    {
      this.enabled := enabled;
      this.minKeep := minKeep;
      aborted, keepReasons, backupsKept, backupsPurged, deleteTargets := false, map[], [], [], [];
    }

    /** The lists are those of the current reasons, and chains are whole. */
    ghost predicate Settled(bs: seq<Meta>)
      requires Proper(bs)
      reads this
    {
      && ChainsWhole(bs, KeptNames(keepReasons))
      && backupsKept == KeptList(bs, KeptNames(keepReasons))
      && backupsPurged == PurgedList(bs, KeptNames(keepReasons))
      && deleteTargets == TargetList(bs, KeptNames(keepReasons))
    }

    method AddKeepReason(name: string, reason: string)
      modifies this`keepReasons
      ensures KeptNames(keepReasons) == KeptNames(old(keepReasons)) + {name}
      ensures keepReasons == WithReason(old(keepReasons), name, reason)
      ensures HasReason(old(keepReasons), keepReasons, name, reason)
    {
      WithReasonIs(keepReasons, name, reason);
      var reasons := if name in keepReasons then keepReasons[name] else [];
      if reason in reasons {
        return;
      }
      assert (reasons + [reason])[|reasons|] == reason;
      keepReasons := keepReasons[name := reasons + [reason]];
    }

    method CountKeptSuccessfulRestorePoints(bs: seq<Meta>) returns (count: nat)
      requires Proper(bs)
      ensures count == CountKept(bs, KeptNames(keepReasons), |bs|)
      ensures count == |KeptPoints(bs, KeptNames(keepReasons), |bs|)|
    {
      CountKeptIs(bs, KeptNames(keepReasons), |bs|);
      count := 0;
      var increments := ByName(bs);
      ByNameFinds(bs);
      for i := 0 to |bs|
        invariant count == CountKept(bs, KeptNames(keepReasons), i)
      {
        var b := bs[i];
        assert b in bs;
        var complete := true;
        if b.kind == Incremental {
          complete := IsCompleteIncrementalRestorePoint(b, increments);
        }
        if b.status == Done && !b.selective && Kept(keepReasons, b.name) && complete {
          count := count + 1;
        }
      }
    }

    /** Protects an increment whose links lead nowhere; sorts in any other. */
    method SortOne(bs: seq<Meta>, byBase0: map<string, seq<Meta>>, i: nat) returns (byBase: map<string, seq<Meta>>)
      requires Proper(bs) && i < |bs| && IsByBase(bs, byBase0, i)
      modifies this`keepReasons
      ensures KeptNames(keepReasons) == KeptNames(old(keepReasons)) + if IsStray(bs, bs[i]) then {bs[i].name} else {}
      ensures IsByBase(bs, byBase, i + 1)
    {
      byBase := byBase0;
      var b := bs[i];
      ByNameFinds(bs);
      OneMoreByBase(bs, byBase, i);
      if b.kind != Incremental {
        return;
      }
      var base := FindIncrementalBase(b, ByName(bs));
      if base.None? {
        if !IsRunning(b) {
          AddKeepReason(b.name, "Invalid Incremental Chain");
        }
        return;
      }
      var chain := if base.value.name in byBase then byBase[base.value.name] else [];
      byBase := byBase[base.value.name := chain + [b]];
    }

    /** Protects the increments whose links lead nowhere; the others are sorted by base. */
    method SortByBase(bs: seq<Meta>) returns (byBase: map<string, seq<Meta>>)
      requires Proper(bs)
      modifies this`keepReasons
      ensures KeptNames(keepReasons) == KeptNames(old(keepReasons)) + Strays(bs, |bs|)
      ensures IsByBase(bs, byBase, |bs|)
    {
      byBase := map[];
      ghost var kept := KeptNames(keepReasons);
      for i := 0 to |bs|
        invariant IsByBase(bs, byBase, i)
        invariant KeptNames(keepReasons) == kept + Strays(bs, i)
      {
        byBase := SortOne(bs, byBase, i);
      }
    }

    method KeepChain(chain: seq<Meta>)
      modifies this`keepReasons
      ensures KeptNames(keepReasons) == KeptNames(old(keepReasons)) + ChainAdds(chain, KeptNames(old(keepReasons)))
    {
      ghost var kept := KeptNames(keepReasons);
      var retain := false;
      for i := 0 to |chain|
        invariant retain <==> exists j :: 0 <= j < i && (chain[j].name in kept || IsRunning(chain[j]))
      {
        if Kept(keepReasons, chain[i].name) || IsRunning(chain[i]) {
          retain := true;
        }
      }
      if !retain {
        return;
      }
      for i := 0 to |chain|
        invariant KeptNames(keepReasons) == kept + Idle(chain, i)
      {
        if !IsRunning(chain[i]) && !Kept(keepReasons, chain[i].name) {
          AddKeepReason(chain[i].name, "Incremental Chain Retained");
        }
      }
    }

    /** Extends the decisions to whole chains. */
    method ApplyIncrementalChainRules(bs: seq<Meta>)
      requires Proper(bs)
      modifies this`keepReasons
      ensures WithChains(bs, KeptNames(old(keepReasons)), KeptNames(keepReasons))
      ensures ChainsWhole(bs, KeptNames(keepReasons))
    {
      ghost var kept0 := KeptNames(keepReasons);
      var byBase := SortByBase(bs);
      ghost var kept := KeptNames(keepReasons);
      var pending := byBase.Keys;
      while pending != {}
        invariant pending <= byBase.Keys
        invariant KeptNames(keepReasons) == kept + AllAdd(byBase, kept, byBase.Keys - pending)
        decreases pending
      {
        var k :| k in pending;
        OtherChainsDoNotMatter(bs, byBase, kept, byBase.Keys - pending, k);
        KeepChain(byBase[k]);
        AllAddOneMore(byBase, kept, byBase.Keys - pending, k);
        assert byBase.Keys - (pending - {k}) == (byBase.Keys - pending) + {k};
        pending := pending - {k};
      }
      assert byBase.Keys - pending == byBase.Keys;
      RulesMeetSpec(bs, byBase, kept0);
      ChainRulesKeepChainsWhole(bs, kept0, KeptNames(keepReasons));
    }

    method BuildBackupLists(bs: seq<Meta>)
      modifies this`backupsKept, this`backupsPurged, this`deleteTargets
      ensures backupsKept == KeptList(bs, KeptNames(keepReasons))
      ensures backupsPurged == PurgedList(bs, KeptNames(keepReasons))
      ensures deleteTargets == TargetList(bs, KeptNames(keepReasons))
    {
      backupsKept, backupsPurged, deleteTargets := [], [], [];
      for i := 0 to |bs|
        invariant backupsKept == KeptList(bs[..i], KeptNames(keepReasons))
        invariant backupsPurged == PurgedList(bs[..i], KeptNames(keepReasons))
        invariant deleteTargets == TargetList(bs[..i], KeptNames(keepReasons))
      {
        var b := bs[i];
        assert bs[..i + 1][..i] == bs[..i];
        if IsRunning(b) {
          continue;
        }
        if Kept(keepReasons, b.name) {
          backupsKept := backupsKept + [b.name];
          continue;
        }
        backupsPurged := backupsPurged + [b.name];
        if b.kind != Incremental || b.src == "" {
          deleteTargets := deleteTargets + [b.name];
        }
      }
      assert bs[..|bs|] == bs;
    }

    /** Keeps the anchors and with them their chains: backups only ever move from purged to kept. */
    method ProtectPITRAnchors(anchors: seq<string>, bs: seq<Meta>)
      requires Proper(bs)
      modifies this`keepReasons, this`backupsKept, this`backupsPurged, this`deleteTargets
      ensures Settled(bs)
      ensures WithChains(bs, KeptNames(old(keepReasons)) + NamesOf(anchors), KeptNames(keepReasons))
      ensures old(Settled(bs)) ==> forall b :: b in bs && b.name in old(backupsKept) ==> b.name in backupsKept
      ensures old(Settled(bs)) ==> forall b :: b in bs && b.name in backupsPurged ==> b.name in old(backupsPurged)
      ensures old(Settled(bs)) ==> forall b :: b in bs && b.name in deleteTargets ==> b.name in old(deleteTargets)
    {
      ghost var kept := KeptNames(keepReasons);
      for i := 0 to |anchors|
        invariant KeptNames(keepReasons) == kept + NamesOf(anchors[..i])
      {
        assert anchors[..i + 1] == anchors[..i] + [anchors[i]];
        AddKeepReason(anchors[i], "PITR Base Snapshot");
      }
      assert anchors[..|anchors|] == anchors;
      ApplyIncrementalChainRules(bs);
      BuildBackupLists(bs);
      ListsMove(bs, kept, KeptNames(keepReasons));
    }

    /** Nothing is deleted when too few restore points would be left. */
    method ApplyMinKeepGuard(bs: seq<Meta>)
      requires Proper(bs)
      modifies this`aborted, this`deleteTargets
      ensures var tooFew := enabled && old(deleteTargets) != [] && 0 < minKeep
                            && CountKept(bs, KeptNames(keepReasons), |bs|) < minKeep;
        && aborted == (old(aborted) || tooFew)
        && deleteTargets == if tooFew then [] else old(deleteTargets)
    {
      if !enabled || |deleteTargets| == 0 {
        return;
      }
      if minKeep <= 0 {
        return;
      }
      var kept := CountKeptSuccessfulRestorePoints(bs);
      if kept >= minKeep {
        return;
      }
      aborted := true;
      deleteTargets := [];
    }

    /** The newest purged snapshots that could be the base of the PITR timeline, unless a newer snapshot
        survives; with them the time of the newest older survivor. */
    method FindPITRBaseCandidates(bs: seq<Meta>) returns (r: Found)
      requires Proper(bs)
      ensures r.Ok? ==> AreCandidates(bs, backupsPurged, r.c)
      ensures r.NoBaseFor? ==>
        exists b :: b in bs && b.name == r.name && b.name in backupsPurged && b.kind == Incremental
                    && BaseOf(bs, b).None?
      ensures r.TargetNotFound? ==>
        exists b :: b in bs && b.name in backupsPurged && TargetOf(bs, b) == Some(r.name) && r.name !in deleteTargets
    {
      var latest, latestWrite := LatestPurged(bs, backupsPurged);
      if |latest| == 0 {
        return Ok(NoCandidates);
      }
      var newer, previous := LatestSurvivor(bs, backupsPurged, latestWrite);
      if newer {
        return Ok(NoCandidates);
      }
      ByNameFinds(bs);
      var byName := ByName(bs);
      var anchors := [];
      for i := 0 to |latest|
        invariant |anchors| == i && forall j :: 0 <= j < i ==> anchors[j] == latest[j].name
      {
        var b := latest[i];
        LatestAre(bs, |bs|, backupsPurged, latestWrite, b);
        var target := b.name;
        if b.kind == Incremental {
          var base := FindIncrementalBase(b, byName);
          if base.None? {
            return NoBaseFor(b.name);
          }
          target := base.value.name;
        }
        if target !in deleteTargets {
          return TargetNotFound(target);
        }
        anchors := anchors + [b.name];
      }
      AnchorsAre(bs, backupsPurged, latest, latestWrite, anchors);
      r := Ok(Candidates(anchors, previous, latestWrite));
    }
  }

  // --- the candidates for PITR -----------------------------------------------------------------

  /** What has to be deleted to delete `b`: the base of its chain. */
  function TargetOf(bs: seq<Meta>, b: Meta): Option<string>
    requires Proper(bs) && b in bs
  {
    if b.kind != Incremental then Some(b.name)
    else if BaseOf(bs, b).None? then None
    else Some(BaseOf(bs, b).value.name)
  }

  predicate IsPurgedSnapshot(b: Meta, purged: seq<string>) {
    b.name in purged && IsMainPITRBaseSnapshot(b)
  }

  predicate IsSurvivingSnapshot(b: Meta, purged: seq<string>) {
    b.name !in purged && IsMainPITRBaseSnapshot(b)
  }

  /** The purged snapshots with last write `w` among the first `n` backups. */
  function PurgedAt(bs: seq<Meta>, n: nat, purged: seq<string>, w: Timestamp): seq<Meta>
    requires n <= |bs|
  {
    if n == 0 then []
    else
      var b, before := bs[n - 1], PurgedAt(bs, n - 1, purged, w);
      if IsPurgedSnapshot(b, purged) && b.lastWriteTS == w then before + [b] else before
  }

  lemma {:induction false} LatestAre(bs: seq<Meta>, n: nat, purged: seq<string>, w: Timestamp, b: Meta)
    requires n <= |bs|
    ensures b in PurgedAt(bs, n, purged, w) <==> b in bs[..n] && IsPurgedSnapshot(b, purged) && b.lastWriteTS == w
    decreases n
  {
    if n > 0 {
      LatestAre(bs, n - 1, purged, w, b);
      assert bs[..n] == bs[..n - 1] + [bs[n - 1]];
    } else {
      assert bs[..0] == [];
    }
    assert n == |bs| ==> bs[..n] == bs;
  }

  lemma {:induction false} NoneAt(bs: seq<Meta>, n: nat, purged: seq<string>, w: Timestamp)
    requires n <= |bs|
    requires forall j :: 0 <= j < n && IsPurgedSnapshot(bs[j], purged) ==> Before(bs[j].lastWriteTS, w)
    ensures PurgedAt(bs, n, purged, w) == []
    decreases n
  {
    if n > 0 {
      NoneAt(bs, n - 1, purged, w);
    }
  }

  method LatestPurged(bs: seq<Meta>, purged: seq<string>) returns (latest: seq<Meta>, latestWrite: Timestamp)
    ensures latest == PurgedAt(bs, |bs|, purged, latestWrite)
    ensures forall j :: 0 <= j < |bs| && IsPurgedSnapshot(bs[j], purged) ==> AtMost(bs[j].lastWriteTS, latestWrite)
    ensures latest == [] <==> forall j :: 0 <= j < |bs| ==> !IsPurgedSnapshot(bs[j], purged)
  {
    latest, latestWrite := [], ZeroTS;
    for i := 0 to |bs|
      invariant latest == PurgedAt(bs, i, purged, latestWrite)
      invariant forall j :: 0 <= j < i && IsPurgedSnapshot(bs[j], purged) ==> AtMost(bs[j].lastWriteTS, latestWrite)
      invariant latest == [] <==> forall j :: 0 <= j < i ==> !IsPurgedSnapshot(bs[j], purged)
      invariant latest == [] ==> latestWrite == ZeroTS
    {
      var b := bs[i];
      if b.name !in purged {
        continue;
      }
      if !IsMainPITRBaseSnapshot(b) {
        continue;
      }
      if Before(latestWrite, b.lastWriteTS) {
        NoneAt(bs, i, purged, b.lastWriteTS);
        latestWrite := b.lastWriteTS;
        latest := [b];
      } else if b.lastWriteTS == latestWrite {
        latest := latest + [b];
      }
    }
  }

  method LatestSurvivor(bs: seq<Meta>, purged: seq<string>, w: Timestamp) returns (newer: bool, previous: Timestamp)
    ensures newer <==> exists j :: 0 <= j < |bs| && IsSurvivingSnapshot(bs[j], purged) && Before(w, bs[j].lastWriteTS)
    ensures !newer ==> IsPrevious(bs, |bs|, purged, w, previous)
  {
    newer, previous := false, ZeroTS;
    for i := 0 to |bs|
      invariant !newer && forall j :: 0 <= j < i && IsSurvivingSnapshot(bs[j], purged) ==> AtMost(bs[j].lastWriteTS, w)
      invariant IsPrevious(bs, i, purged, w, previous)
    {
      var b := bs[i];
      if !IsMainPITRBaseSnapshot(b) {
        continue;
      }
      if b.name in purged {
        continue;
      }
      if Before(w, b.lastWriteTS) {
        return true, ZeroTS;
      }
      if Before(b.lastWriteTS, w) && Before(previous, b.lastWriteTS) {
        previous := b.lastWriteTS;
      }
    }
  }

  /** A backup the oplog can be replayed on: finished, whole, taken by PBM and in the main storage. */
  predicate IsMainBase(b: Meta) {
    b.status == Done && b.kind != External && !b.selective && !b.isProfile
  }

  predicate IsGoing(b: Meta, purged: seq<string>) {
    IsMainBase(b) && b.name in purged
  }

  predicate IsStaying(b: Meta, purged: seq<string>) {
    IsMainBase(b) && b.name !in purged
  }

  /** The newest surviving snapshot older than `w`, or zero. */
  predicate IsPrevious(bs: seq<Meta>, n: nat, purged: seq<string>, w: Timestamp, previous: Timestamp)
    requires n <= |bs|
  {
    && (forall j :: 0 <= j < n && IsStaying(bs[j], purged) && Before(bs[j].lastWriteTS, w) ==>
          AtMost(bs[j].lastWriteTS, previous))
    && (previous == ZeroTS ||
        exists j :: 0 <= j < n && IsStaying(bs[j], purged) && Before(bs[j].lastWriteTS, w)
                    && bs[j].lastWriteTS == previous)
  }

  ghost predicate HasNewerSurvivor(bs: seq<Meta>, purged: seq<string>, w: Timestamp) {
    exists j :: 0 <= j < |bs| && IsStaying(bs[j], purged) && Before(w, bs[j].lastWriteTS)
  }

  /** The candidates are the newest purged snapshots, if none that survives is newer. */
  ghost predicate AreCandidates(bs: seq<Meta>, purged: seq<string>, c: Candidates) {
    if c.anchors == [] then
      forall b :: b in bs && IsGoing(b, purged) ==>
        exists d :: d in bs && IsStaying(d, purged) && Before(b.lastWriteTS, d.lastWriteTS)
    else
      && !HasNewerSurvivor(bs, purged, c.restoreTime)
      && (forall b :: b in bs && IsGoing(b, purged) ==> AtMost(b.lastWriteTS, c.restoreTime))
      && (forall b :: b in bs ==>
            (b.name in c.anchors <==> IsGoing(b, purged) && b.lastWriteTS == c.restoreTime))
      && (forall n :: n in c.anchors ==> exists b :: b in bs && b.name == n)
      && IsPrevious(bs, |bs|, purged, c.restoreTime, c.previousRestoreTime)
  }

  lemma AnchorsAre(bs: seq<Meta>, purged: seq<string>, latest: seq<Meta>, w: Timestamp, anchors: seq<string>)
    requires Proper(bs) && latest == PurgedAt(bs, |bs|, purged, w)
    requires |anchors| == |latest| && forall j :: 0 <= j < |latest| ==> anchors[j] == latest[j].name
    ensures forall b :: b in bs ==> (b.name in anchors <==> IsPurgedSnapshot(b, purged) && b.lastWriteTS == w)
    ensures forall n :: n in anchors ==> exists b :: b in bs && b.name == n
  {
    assert bs[..|bs|] == bs;
    forall n | n in anchors ensures exists b :: b in bs && b.name == n {
      var j :| 0 <= j < |anchors| && anchors[j] == n;
      LatestAre(bs, |bs|, purged, w, latest[j]);
      assert latest[j] in bs;
    }
    forall b | b in bs ensures b.name in anchors <==> IsPurgedSnapshot(b, purged) && b.lastWriteTS == w {
      LatestAre(bs, |bs|, purged, w, b);
      if b.name in anchors {
        var j :| 0 <= j < |anchors| && anchors[j] == b.name;
        LatestAre(bs, |bs|, purged, w, latest[j]);
        SameName(bs, b, latest[j]);
      }
      if b in latest {
        var j :| 0 <= j < |latest| && latest[j] == b;
        assert anchors[j] == b.name;
      }
    }
  }

  /** Neither error can happen once the lists are settled: a purged increment has a base, and that base
      is among the targets. */
  lemma ErrorsAreUnreachable(bs: seq<Meta>, kept: set<string>, b: Meta)
    requires Proper(bs) && ChainsWhole(bs, kept) && b in bs && b.name in PurgedList(bs, kept)
    ensures TargetOf(bs, b).Some? && TargetOf(bs, b).value in TargetList(bs, kept)
  {
    ListsHold(bs, kept, b);
    if b.kind == Incremental {
      ByNameFinds(bs);
      assert !ChainKeeps(bs, kept, b);
      BaseIsBase(b, ByName(bs), {});
      var base := BaseOf(bs, b).value;
      assert InChain(bs, base, base);
      assert InChain(bs, b, base);
      assert !Retained(bs, kept, base);
      ListsHold(bs, kept, base);
    }
  }

  lemma ListsMove(bs: seq<Meta>, kept: set<string>, kept': set<string>)
    requires Proper(bs) && kept <= kept'
    ensures forall b :: b in bs && b.name in KeptList(bs, kept) ==> b.name in KeptList(bs, kept')
    ensures forall b :: b in bs && b.name in PurgedList(bs, kept') ==> b.name in PurgedList(bs, kept)
    ensures forall b :: b in bs && b.name in TargetList(bs, kept') ==> b.name in TargetList(bs, kept)
  {
    forall b | b in bs
      ensures b.name in KeptList(bs, kept) ==> b.name in KeptList(bs, kept')
      ensures b.name in PurgedList(bs, kept') ==> b.name in PurgedList(bs, kept)
      ensures b.name in TargetList(bs, kept') ==> b.name in TargetList(bs, kept)
    {
      ListsHold(bs, kept, b);
      ListsHold(bs, kept', b);
    }
  }

  // --- the chain rules meet their specification ------------------------------------------------

  /** An increment that is not running and has no base. */
  predicate IsStray(bs: seq<Meta>, b: Meta)
    requires Proper(bs) && b in bs
  {
    b.kind == Incremental && !IsRunning(b) && BaseOf(bs, b).None?
  }

  function Strays(bs: seq<Meta>, n: nat): set<string>
    requires Proper(bs) && n <= |bs|
  {
    if n == 0 then {}
    else Strays(bs, n - 1) + if IsStray(bs, bs[n - 1]) then {bs[n - 1].name} else {}
  }

  /** Among the first `n` backups, the members of the chain whose base is called `k`. */
  function ChainUpTo(bs: seq<Meta>, n: nat, k: string): seq<Meta>
    requires Proper(bs) && n <= |bs|
  {
    if n == 0 then []
    else
      var b, before := bs[n - 1], ChainUpTo(bs, n - 1, k);
      if b.kind == Incremental && BaseOf(bs, b).Some? && BaseOf(bs, b).value.name == k then before + [b] else before
  }

  ghost predicate IsByBase(bs: seq<Meta>, byBase: map<string, seq<Meta>>, n: nat)
    requires Proper(bs) && n <= |bs|
  {
    forall k :: ChainUpTo(bs, n, k) == if k in byBase then byBase[k] else []
  }

  lemma OneMoreByBase(bs: seq<Meta>, byBase: map<string, seq<Meta>>, i: nat)
    requires Proper(bs) && i < |bs| && IsByBase(bs, byBase, i)
    ensures var b := bs[i];
      if b.kind == Incremental && BaseOf(bs, b).Some? then
        var k := BaseOf(bs, b).value.name;
        IsByBase(bs, byBase[k := (if k in byBase then byBase[k] else []) + [b]], i + 1)
      else IsByBase(bs, byBase, i + 1)
  {
  }

  /** The names of the members that are not running, among the first `n`. */
  function Idle(chain: seq<Meta>, n: nat): set<string>
    requires n <= |chain|
  {
    if n == 0 then {} else Idle(chain, n - 1) + if IsRunning(chain[n - 1]) then {} else {chain[n - 1].name}
  }

  function ChainAdds(chain: seq<Meta>, kept: set<string>): set<string> {
    if exists j :: 0 <= j < |chain| && (chain[j].name in kept || IsRunning(chain[j])) then Idle(chain, |chain|) else {}
  }

  function AllAdd(byBase: map<string, seq<Meta>>, kept: set<string>, keys: set<string>): set<string> {
    set k, n | k in keys && k in byBase && n in ChainAdds(byBase[k], kept) :: n
  }

  lemma {:induction false} InIdle(chain: seq<Meta>, n: nat, name: string)
    requires n <= |chain|
    ensures name in Idle(chain, n) <==> exists j :: 0 <= j < n && chain[j].name == name && !IsRunning(chain[j])
    decreases n
  {
    if n > 0 {
      InIdle(chain, n - 1, name);
    }
  }

  lemma {:induction false} InStrays(bs: seq<Meta>, n: nat, name: string)
    requires Proper(bs) && n <= |bs|
    ensures name in Strays(bs, n) <==> exists j :: 0 <= j < n && bs[j].name == name && IsStray(bs, bs[j])
    decreases n
  {
    if n > 0 {
      InStrays(bs, n - 1, name);
    }
  }

  lemma {:induction false} InChainUpTo(bs: seq<Meta>, n: nat, k: string, b: Meta)
    requires Proper(bs) && n <= |bs|
    ensures b in ChainUpTo(bs, n, k) <==>
      exists j :: 0 <= j < n && bs[j] == b && b.kind == Incremental && BaseOf(bs, b).Some?
                  && BaseOf(bs, b).value.name == k
    decreases n
  {
    if n > 0 {
      InChainUpTo(bs, n - 1, k, b);
    }
  }

  /** A backup belongs to the chain of its base only. */
  lemma OneChain(bs: seq<Meta>, byBase: map<string, seq<Meta>>, k: string, b: Meta)
    requires Proper(bs) && IsByBase(bs, byBase, |bs|) && k in byBase && b in byBase[k]
    ensures b in bs && b.kind == Incremental && BaseOf(bs, b).Some? && BaseOf(bs, b).value.name == k
  {
    InChainUpTo(bs, |bs|, k, b);
    assert byBase[k] == ChainUpTo(bs, |bs|, k);
  }

  lemma OtherChainsDoNotMatter(
    bs: seq<Meta>, byBase: map<string, seq<Meta>>, kept: set<string>, done: set<string>, k: string)
    requires Proper(bs) && IsByBase(bs, byBase, |bs|) && k in byBase && k !in done
    ensures ChainAdds(byBase[k], kept + AllAdd(byBase, kept, done)) == ChainAdds(byBase[k], kept)
  {
    forall j | 0 <= j < |byBase[k]| ensures byBase[k][j].name !in AllAdd(byBase, kept, done) {
      var b := byBase[k][j];
      if b.name in AllAdd(byBase, kept, done) {
        var l, n :| l in done && l in byBase && n in ChainAdds(byBase[l], kept) && n == b.name;
        InIdle(byBase[l], |byBase[l]|, b.name);
        var i :| 0 <= i < |byBase[l]| && byBase[l][i].name == b.name;
        OneChain(bs, byBase, l, byBase[l][i]);
        OneChain(bs, byBase, k, b);
        SameName(bs, b, byBase[l][i]);
        assert false;
      }
    }
  }

  lemma AllAddOneMore(byBase: map<string, seq<Meta>>, kept: set<string>, done: set<string>, k: string)
    requires k in byBase
    ensures AllAdd(byBase, kept, done + {k}) == AllAdd(byBase, kept, done) + ChainAdds(byBase[k], kept)
  {
  }

  lemma SameBaseName(bs: seq<Meta>, a: Meta, b: Meta)
    requires Proper(bs) && a in bs && b in bs && a.kind == Incremental && b.kind == Incremental
    requires BaseOf(bs, a).Some? && BaseOf(bs, b).Some? && BaseOf(bs, a).value.name == BaseOf(bs, b).value.name
    ensures BaseOf(bs, a) == BaseOf(bs, b)
  {
    ByNameFinds(bs);
    BaseIsBase(a, ByName(bs), {});
    BaseIsBase(b, ByName(bs), {});
  }

  /** A chain adds a member exactly if it is retained. */
  lemma ChainAddsMember(bs: seq<Meta>, byBase: map<string, seq<Meta>>, kept: set<string>, b: Meta)
    requires Proper(bs) && IsByBase(bs, byBase, |bs|) && b in bs && b.kind == Incremental && BaseOf(bs, b).Some?
    ensures var base := BaseOf(bs, b).value;
      base.name in byBase &&
      (b.name in ChainAdds(byBase[base.name], kept) <==> Retained(bs, kept, base) && !IsRunning(b))
  {
    var base := BaseOf(bs, b).value;
    var k := base.name;
    var i :| 0 <= i < |bs| && bs[i] == b;
    InChainUpTo(bs, |bs|, k, b);
    var chain := ChainUpTo(bs, |bs|, k);
    var j :| 0 <= j < |chain| && chain[j] == b;
    assert chain == if k in byBase then byBase[k] else [];
    InIdle(chain, |chain|, b.name);
    if b.name in Idle(chain, |chain|) {
      var l :| 0 <= l < |chain| && chain[l].name == b.name && !IsRunning(chain[l]);
      OneChain(bs, byBase, k, chain[l]);
      SameName(bs, b, chain[l]);
    }
    if Retained(bs, kept, base) {
      var m :| m in bs && InChain(bs, m, base) && (m.name in kept || IsRunning(m));
      var h :| 0 <= h < |bs| && bs[h] == m;
      InChainUpTo(bs, |bs|, k, m);
      assert m in chain;
    }
    if l :| 0 <= l < |chain| && (chain[l].name in kept || IsRunning(chain[l])) {
      OneChain(bs, byBase, k, chain[l]);
      SameBaseName(bs, b, chain[l]);
      assert InChain(bs, chain[l], base);
    }
  }

  lemma RetainedIgnoresStrays(bs: seq<Meta>, kept: set<string>, base: Meta)
    requires Proper(bs)
    ensures Retained(bs, kept + Strays(bs, |bs|), base) <==> Retained(bs, kept, base)
  {
    if m :| m in bs && InChain(bs, m, base) && (m.name in kept + Strays(bs, |bs|) || IsRunning(m)) {
      InStrays(bs, |bs|, m.name);
      if m.name in Strays(bs, |bs|) {
        var j :| 0 <= j < |bs| && bs[j].name == m.name && IsStray(bs, bs[j]);
        SameName(bs, bs[j], m);
      }
      assert m.name in kept || IsRunning(m);
    }
  }

  lemma AddedByItsChain(bs: seq<Meta>, byBase: map<string, seq<Meta>>, kept: set<string>, b: Meta)
    requires Proper(bs) && IsByBase(bs, byBase, |bs|) && b in bs
    ensures b.name in AllAdd(byBase, kept, byBase.Keys) <==>
      && b.kind == Incremental && BaseOf(bs, b).Some?
      && BaseOf(bs, b).value.name in byBase && b.name in ChainAdds(byBase[BaseOf(bs, b).value.name], kept)
  {
    if b.name in AllAdd(byBase, kept, byBase.Keys) {
      var k, n :| k in byBase.Keys && n in ChainAdds(byBase[k], kept) && n == b.name;
      InIdle(byBase[k], |byBase[k]|, b.name);
      var l :| 0 <= l < |byBase[k]| && byBase[k][l].name == b.name;
      OneChain(bs, byBase, k, byBase[k][l]);
      SameName(bs, b, byBase[k][l]);
    }
  }

  lemma StrayByName(bs: seq<Meta>, b: Meta)
    requires Proper(bs) && b in bs
    ensures b.name in Strays(bs, |bs|) <==> IsStray(bs, b)
  {
    InStrays(bs, |bs|, b.name);
    var i :| 0 <= i < |bs| && bs[i] == b;
    if b.name in Strays(bs, |bs|) {
      var j :| 0 <= j < |bs| && bs[j].name == b.name && IsStray(bs, bs[j]);
      SameName(bs, bs[j], b);
    }
  }

  lemma RulesDecide(bs: seq<Meta>, byBase: map<string, seq<Meta>>, kept0: set<string>, b: Meta)
    requires Proper(bs) && IsByBase(bs, byBase, |bs|) && b in bs
    ensures var kept := kept0 + Strays(bs, |bs|);
      b.name in kept + AllAdd(byBase, kept, byBase.Keys) <==> b.name in kept0 || ChainKeeps(bs, kept0, b)
  {
    var kept := kept0 + Strays(bs, |bs|);
    StrayByName(bs, b);
    AddedByItsChain(bs, byBase, kept, b);
    if b.kind == Incremental && BaseOf(bs, b).Some? {
      ChainAddsMember(bs, byBase, kept, b);
      RetainedIgnoresStrays(bs, kept0, BaseOf(bs, b).value);
    }
  }

  lemma RulesMeetSpec(bs: seq<Meta>, byBase: map<string, seq<Meta>>, kept0: set<string>)
    requires Proper(bs) && IsByBase(bs, byBase, |bs|)
    ensures var kept := kept0 + Strays(bs, |bs|);
      WithChains(bs, kept0, kept + AllAdd(byBase, kept, byBase.Keys))
  {
    var kept := kept0 + Strays(bs, |bs|);
    var kept' := kept + AllAdd(byBase, kept, byBase.Keys);
    forall b | b in bs ensures b.name in kept' <==> b.name in kept0 || ChainKeeps(bs, kept0, b) {
      RulesDecide(bs, byBase, kept0, b);
    }
    forall n | n in kept' && n !in kept0 ensures exists b :: b in bs && b.name == n {
      InStrays(bs, |bs|, n);
      if n in AllAdd(byBase, kept, byBase.Keys) {
        var k :| k in byBase.Keys && n in ChainAdds(byBase[k], kept);
        InIdle(byBase[k], |byBase[k]|, n);
        var l :| 0 <= l < |byBase[k]| && byBase[k][l].name == n;
        OneChain(bs, byBase, k, byBase[k][l]);
      }
    }
  }
}
