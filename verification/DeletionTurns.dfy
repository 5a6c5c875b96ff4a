/** Carrying out a report while PITR runs (pbm/lifecycle/manager.go, cmd/pbm-agent/delete.go,
    pbm/backup/delete.go): every deletion is checked again when its turn comes, against the backups that
    are left by then. When is a target refused that the report has found free to go? */
module DeletionTurns {
  import opened Options
  import opened Timestamps
  import opened Backups
  import opened Lifecycle
  import opened TargetOrder
  import opened Deletion
  import opened PitrGuard
  import opened Retention
  import T = Timelines

  // ---------------------------------------------------------------------------------------------
  // The execution
  // ---------------------------------------------------------------------------------------------

  /** The turn of target `i`: the guard looks at what is left, `gone` having gone before, and takes `more`
      unless it refuses. */
  ghost predicate Turn(
    db: seq<Meta>, o: Oplog, t: string, fault: Fault, gone: set<string>, v: Verdict, more: set<string>)
  {
    var rest := Without(db, gone);
    && (forall b :: b in rest && b.name == t ==> IsVerdict(rest, o, b, v))
    && BackupGone(rest, t, if v == Allowed then fault else Refused, more) && TakenWith(rest, t, more)
  }

  /** The targets as they were run through from the last to the first, with the fault that met each and the
      verdict on it; `gones[i]` is what has gone when the targets from `i` on have had their turns. */
  datatype Run = Run(targets: seq<string>, faults: seq<Fault>, verdicts: seq<Verdict>, gones: seq<set<string>>)

  predicate Aligned(run: Run) {
    |run.faults| == |run.verdicts| == |run.targets| && |run.gones| == |run.targets| + 1
  }

  /** From target `i` on, `run` is an execution. */
  ghost predicate IsExecution(db: seq<Meta>, o: Oplog, run: Run, i: nat) {
    && Aligned(run) && i <= |run.targets| && run.gones[|run.targets|] == {}
    && forall k :: i <= k < |run.targets| ==> IsTurn(db, o, run, k)
  }

  ghost predicate IsTurn(db: seq<Meta>, o: Oplog, run: Run, k: nat)
    requires Aligned(run) && k < |run.targets|
  {
    Goes(db, o, run.targets[k], run.faults[k], run.gones[k + 1], run.verdicts[k], run.gones[k])
  }

  ghost predicate Goes(
    db: seq<Meta>, o: Oplog, t: string, fault: Fault, gone: set<string>, v: Verdict, gone': set<string>)
  {
    exists more :: Turn(db, o, t, fault, gone, v, more) && gone' == gone + more
  }

  /** Checks and deletes one target. */
  method DeleteChecked(db0: seq<Meta>, o: Oplog, t: string, fault: Fault)
    returns (db: seq<Meta>, v: Verdict, ghost more: set<string>)
    requires Proper(db0) && forall b :: b in db0 && b.name == t ==> IsEntryPoint(b) && !IsRunning(b)
    ensures db == Without(db0, more)
    ensures Turn(db0, o, t, fault, {}, v, more)
  {
    v := Allowed;
    WithoutNothing(db0);
    var b := FindByName(db0, t);
    if b.Some? {
      var anchor: string;
      v, anchor := CheckTarget(db0, o, b.value);
      forall x | x in db0 && x.name == t ensures x == b.value {
        SameName(db0, x, b.value);
      }
    }
    db, more := DeleteBackup(db0, t, if v == Allowed then fault else Refused);
  }

  /** Runs through the targets from the last to the first. A target that is refused stays, and any
      deletion may fail half way. */
  method ExecuteTargets(db0: seq<Meta>, o: Oplog, targets: seq<string>, faults: seq<Fault>)
    returns (db: seq<Meta>, verdicts: seq<Verdict>, ghost gones: seq<set<string>>)
    requires Proper(db0) && |faults| == |targets|
    requires forall b :: b in db0 && b.name in targets ==> IsEntryPoint(b) && !IsRunning(b)
    ensures IsExecution(db0, o, Run(targets, faults, verdicts, gones), 0) && db == Without(db0, gones[0])
  {
    db, verdicts, gones := db0, seq(|targets|, _ => Allowed), seq(|targets| + 1, _ => {});
    WithoutNothing(db0);
    var i: nat := |targets|;
    while i > 0
      invariant i <= |targets| && IsExecution(db0, o, Run(targets, faults, verdicts, gones), i)
      invariant db == Without(db0, gones[i])
    {
      i := i - 1;
      ghost var more: set<string>;
      var v: Verdict;
      WithoutKeeps(db0, gones[i + 1]);
      assert targets[i] in targets;
      db, v, more := DeleteChecked(db, o, targets[i], faults[i]);
      OneMoreTurn(db0, o, Run(targets, faults, verdicts, gones), i, v, more);
      WithoutTwice(db0, gones[i + 1], more);
      verdicts, gones := verdicts[i := v], gones[i := gones[i + 1] + more];
    }
  }

  function AfterTurn(run: Run, i: nat, v: Verdict, more: set<string>): Run
    requires Aligned(run) && i < |run.targets|
  {
    run.(verdicts := run.verdicts[i := v], gones := run.gones[i := run.gones[i + 1] + more])
  }

  lemma OneMoreTurn(db: seq<Meta>, o: Oplog, run: Run, i: nat, v: Verdict, more: set<string>)
    requires i < |run.targets| && IsExecution(db, o, run, i + 1)
    requires Turn(Without(db, run.gones[i + 1]), o, run.targets[i], run.faults[i], {}, v, more)
    ensures IsExecution(db, o, AfterTurn(run, i, v, more), i)
  {
    TurnGoes(db, o, run.targets[i], run.faults[i], run.gones[i + 1], v, more);
    forall k | i <= k < |run.targets| ensures IsTurn(db, o, AfterTurn(run, i, v, more), k) {
      if k > i {
        assert IsTurn(db, o, run, k);
      }
    }
  }

  lemma TurnGoes(db: seq<Meta>, o: Oplog, t: string, fault: Fault, gone: set<string>, v: Verdict, more: set<string>)
    requires Turn(Without(db, gone), o, t, fault, {}, v, more)
    ensures Goes(db, o, t, fault, gone, v, gone + more)
  {
    WithoutNothing(Without(db, gone));
    assert Turn(db, o, t, fault, gone, v, more);
  }

  // ---------------------------------------------------------------------------------------------
  // The report
  // ---------------------------------------------------------------------------------------------

  /** The main storage: every base is among the backups looked at, and they are not of a profile. */
  predicate HoldsMain(db: seq<Meta>, bs: seq<Meta>) {
    && ClosedDown(db, bs)
    && (forall b :: b in db && IsMainPITRBaseSnapshot(b) ==> b in bs)
    && (forall b :: b in bs ==> !b.isProfile && (b.kind == Incremental ==> !b.selective))
  }

  /** A report on the main storage, its targets in the order of `SortDeleteTargets`. */
  ghost predicate IsReport(db: seq<Meta>, bs: seq<Meta>, kept: set<string>, targets: seq<string>) {
    && Proper(db) && Proper(bs) && HoldsMain(db, bs) && ChainsWhole(bs, kept)
    && multiset(targets) == multiset(TargetList(bs, kept)) && NewestFirst(bs, targets)
  }

  /** Backup `x` goes with target `t`. */
  predicate GoesWith(bs: seq<Meta>, x: Meta, t: string)
    requires Proper(bs)
  {
    x in bs && TargetOf(bs, x) == Some(t)
  }

  lemma {:induction false} BaseLeadsTo(bs: seq<Meta>, b: Meta, seen: set<string>)
    requires Proper(bs) && b in bs && b.kind == Incremental && Indexes(ByName(bs)) && b.name in ByName(bs)
    requires FindBase(b, ByName(bs), seen).Some?
    ensures InUnit(bs, FindBase(b, ByName(bs), seen).value.name, b.name)
    decreases ByName(bs).Keys - seen
  {
    ByNameFinds(bs);
    if b.src == "" {
      assert LeadsTo(bs, [b], b.name, b.name);
    } else {
      var parent := ByName(bs)[b.src];
      assert b.name in ByName(bs).Keys - seen && b.name !in ByName(bs).Keys - (seen + {b.name});
      BaseLeadsTo(bs, parent, seen + {b.name});
      UnitGoesOn(bs, FindBase(b, ByName(bs), seen).value.name, parent, b);
    }
  }

  /** What goes with a target is in its unit. */
  lemma GoesWithUnit(db: seq<Meta>, bs: seq<Meta>, x: Meta, t: string)
    requires Proper(db) && Proper(bs) && (forall b :: b in bs ==> b in db) && GoesWith(bs, x, t)
    ensures InUnit(db, t, x.name)
  {
    if x.kind == Incremental {
      ByNameFinds(bs);
      BaseLeadsTo(bs, x, {});
      var path :| LeadsTo(bs, path, t, x.name);
      assert LeadsTo(db, path, t, x.name);
    } else {
      assert LeadsTo(db, [x], t, x.name);
    }
  }

  /** And what is in the unit of an incremental base goes with it. */
  lemma UnitGoesWith(db: seq<Meta>, bs: seq<Meta>, b: Meta, n: string) returns (x: Meta)
    requires Proper(db) && Proper(bs) && ClosedDown(db, bs) && b in bs && b.kind == Incremental && InUnit(db, b.name, n)
    ensures x.name == n && GoesWith(bs, x, b.name)
  {
    var path: seq<Meta> :| LeadsTo(db, path, b.name, n);
    SameName(db, path[0], b);
    PathIsSelected(db, bs, path);
    PathIsDistinct(bs, path);
    ByNameFinds(bs);
    PathHasBase(bs, path, |path| - 1, {});
    x := path[|path| - 1];
    PathStartsAtBase(bs, bs, path, x);
  }

  lemma TargetIsBackup(bs: seq<Meta>, kept: set<string>, t: string) returns (b: Meta)
    requires Proper(bs) && t in TargetList(bs, kept)
    ensures b in bs && b.name == t && IsEntryPoint(b) && !IsRunning(b) && t !in kept
    ensures GoesWith(bs, b, t)
  {
    ListsAreNames(bs, kept, t);
    b :| b in bs && b.name == t;
    ListsHold(bs, kept, b);
    ByNameFinds(bs);
  }

  lemma TargetAt(db: seq<Meta>, bs: seq<Meta>, kept: set<string>, targets: seq<string>, i: nat) returns (b: Meta)
    requires IsReport(db, bs, kept, targets) && i < |targets|
    ensures b in bs && b.name == targets[i] && IsEntryPoint(b) && !IsRunning(b) && GoesWith(bs, b, b.name)
    ensures b.name !in kept && DistinctTargets(targets)
  {
    SameTargets(bs, kept, targets);
    assert targets[i] in targets;
    b := TargetIsBackup(bs, kept, targets[i]);
  }

  // ---------------------------------------------------------------------------------------------
  // What is gone at a turn
  // ---------------------------------------------------------------------------------------------

  /** `n` names a backup that goes with one of the targets from `i` on. */
  ghost predicate GoesFrom(bs: seq<Meta>, targets: seq<string>, i: nat, n: string)
    requires Proper(bs)
  {
    exists x: Meta, k :: i <= k < |targets| && x.name == n && GoesWith(bs, x, targets[k])
  }

  ghost predicate AllGoFrom(bs: seq<Meta>, targets: seq<string>, i: nat, gone: set<string>)
    requires Proper(bs)
  {
    forall n :: n in gone ==> GoesFrom(bs, targets, i, n)
  }

  /** A deletion takes only what goes with its target. */
  lemma TakenGoesWith(
    db: seq<Meta>, bs: seq<Meta>, b: Meta, fault: Fault, gone: set<string>, more: set<string>, n: string)
    returns (x: Meta)
    requires Proper(db) && Proper(bs) && ClosedDown(db, bs) && b in bs && IsEntryPoint(b) && GoesWith(bs, b, b.name)
    requires BackupGone(Without(db, gone), b.name, fault, more) && TakenWith(Without(db, gone), b.name, more)
    requires n in more
    ensures x.name == n && GoesWith(bs, x, b.name)
  {
    UnitInLarger(db, gone, b.name, n);
    if b.kind == Incremental {
      x := UnitGoesWith(db, bs, b, n);
    } else {
      x := b;
      SingleTakesItself(db, b, fault, gone, more);
    }
  }

  lemma SingleTakesItself(db: seq<Meta>, b: Meta, fault: Fault, gone: set<string>, more: set<string>)
    requires Proper(db) && b in db && b.kind != Incremental && BackupGone(Without(db, gone), b.name, fault, more)
    ensures more <= {b.name}
  {
    WithoutKeeps(db, gone);
    var rest := Without(db, gone);
    if b !in rest {
      forall y | y in rest ensures y.name != b.name {
        if y.name == b.name {
          SameName(db, y, b);
        }
      }
    }
  }

  lemma {:induction false} GoneGoesFrom(db: seq<Meta>, bs: seq<Meta>, kept: set<string>, o: Oplog, run: Run, i: nat)
    requires IsReport(db, bs, kept, run.targets) && IsExecution(db, o, run, i)
    ensures AllGoFrom(bs, run.targets, i, run.gones[i])
    decreases |run.targets| - i
  {
    if i < |run.targets| {
      ExecutionGoesOn(db, o, run, i);
      GoneGoesFrom(db, bs, kept, o, run, i + 1);
      TurnGoesFrom(db, bs, kept, o, run, i);
    }
  }

  lemma ExecutionGoesOn(db: seq<Meta>, o: Oplog, run: Run, i: nat)
    requires IsExecution(db, o, run, i) && i < |run.targets|
    ensures IsExecution(db, o, run, i + 1)
  {
  }

  lemma TurnGoesFrom(db: seq<Meta>, bs: seq<Meta>, kept: set<string>, o: Oplog, run: Run, i: nat)
    requires IsReport(db, bs, kept, run.targets) && IsExecution(db, o, run, i) && i < |run.targets|
    requires AllGoFrom(bs, run.targets, i + 1, run.gones[i + 1])
    ensures AllGoFrom(bs, run.targets, i, run.gones[i])
  {
    var b := TargetAt(db, bs, kept, run.targets, i);
    assert IsTurn(db, o, run, i);
    OneMoreGoes(db, bs, o, b, run.targets, i, run.faults[i], run.gones[i + 1], run.verdicts[i], run.gones[i]);
  }

  lemma OneMoreGoes(
    db: seq<Meta>, bs: seq<Meta>, o: Oplog, b: Meta, targets: seq<string>, i: nat, fault: Fault, gone: set<string>,
    v: Verdict, gone': set<string>)
    requires Proper(db) && Proper(bs) && ClosedDown(db, bs) && b in bs && IsEntryPoint(b) && GoesWith(bs, b, b.name)
    requires i < |targets| && targets[i] == b.name
    requires Goes(db, o, b.name, fault, gone, v, gone') && AllGoFrom(bs, targets, i + 1, gone)
    ensures AllGoFrom(bs, targets, i, gone')
  {
    var more :| Turn(db, o, b.name, fault, gone, v, more) && gone' == gone + more;
    forall n | n in gone' ensures GoesFrom(bs, targets, i, n) {
      if n in more {
        var x := TakenGoesWith(db, bs, b, if v == Allowed then fault else Refused, gone, more, n);
        assert GoesWith(bs, x, targets[i]);
      } else {
        assert GoesFrom(bs, targets, i + 1, n);
      }
    }
  }

  /** The unit whose turn it is has not been touched. */
  lemma OwnUnitUntouched(db: seq<Meta>, bs: seq<Meta>, targets: seq<string>, i: nat, gone: set<string>)
    requires Proper(db) && Proper(bs) && (forall b :: b in bs ==> b in db)
    requires DistinctTargets(targets) && i < |targets| && AllGoFrom(bs, targets, i + 1, gone)
    ensures Untouched(db, gone, targets[i])
  {
    forall n | n in gone ensures !InUnit(db, targets[i], n) {
      assert GoesFrom(bs, targets, i + 1, n);
      var x: Meta, k :| i + 1 <= k < |targets| && x.name == n && GoesWith(bs, x, targets[k]);
      GoesWithUnit(db, bs, x, targets[k]);
      if InUnit(db, targets[i], n) {
        UnitsAreDisjoint(db, targets[i], targets[k], n);
      }
    }
  }

  // --- without faults, exactly the units that were allowed to go ----------------------------------

  ghost predicate NoFaults(db: seq<Meta>, run: Run)
    requires Aligned(run)
  {
    forall k :: 0 <= k < |run.targets| ==> run.faults[k].NoFault? && CanGoWhole(db, run.targets[k])
  }

  /** Backup `x` went with one of the targets from `i` on. */
  ghost predicate Went(bs: seq<Meta>, run: Run, i: nat, x: Meta)
    requires Proper(bs) && Aligned(run)
  {
    exists k :: i <= k < |run.targets| && GoesWith(bs, x, run.targets[k]) && run.verdicts[k] == Allowed
  }

  lemma RefusedTakesNothing(db: seq<Meta>, b: Meta, more: set<string>)
    requires b in db && BackupGone(db, b.name, Refused, more)
    ensures more == {}
  {
    if b.kind == Incremental && !IsRunning(b) && b.src == "" {
      var chain :|
        IsFetched(db, b.name, chain) && more == TailNames([b] + Flat(chain), Stays([b] + Flat(chain), Refused));
    }
  }

  lemma BaseIsThere(db: seq<Meta>, gone: set<string>, b: Meta)
    requires Proper(db) && b in db && b.src == "" && Untouched(db, gone, b.name)
    ensures b in Without(db, gone)
  {
    WithoutKeeps(db, gone);
    BaseInOwnUnit(db, b);
  }

  lemma TurnTakesUnit(
    db: seq<Meta>, bs: seq<Meta>, o: Oplog, b: Meta, gone: set<string>, v: Verdict, gone': set<string>, x: Meta)
    requires Proper(db) && Proper(bs) && ClosedDown(db, bs) && b in bs && IsEntryPoint(b) && GoesWith(bs, b, b.name)
    requires Untouched(db, gone, b.name) && CanGoWhole(db, b.name)
    requires Goes(db, o, b.name, NoFault, gone, v, gone') && x in bs
    ensures x.name in gone' <==> x.name in gone || (GoesWith(bs, x, b.name) && v == Allowed)
  {
    var rest := Without(db, gone);
    var more :| Turn(db, o, b.name, NoFault, gone, v, more) && gone' == gone + more;
    WithoutKeeps(db, gone);
    BaseIsThere(db, gone, b);
    if v != Allowed {
      RefusedTakesNothing(rest, b, more);
    } else if x.name in more {
      var y := TakenGoesWith(db, bs, b, NoFault, gone, more, x.name);
      SameName(bs, x, y);
    } else if GoesWith(bs, x, b.name) {
      GoesWithUnit(db, bs, x, b.name);
      UnitStays(db, gone, b.name, x.name);
      CanStillGoWhole(db, gone, b.name);
      WholeUnitGone(rest, b.name, more, x.name);
    }
  }

  lemma {:induction false} GoneExactly(
    db: seq<Meta>, bs: seq<Meta>, kept: set<string>, o: Oplog, run: Run, i: nat, x: Meta)
    requires IsReport(db, bs, kept, run.targets) && IsExecution(db, o, run, i) && NoFaults(db, run) && x in bs
    ensures x.name in run.gones[i] <==> Went(bs, run, i, x)
    decreases |run.targets| - i
  {
    if i < |run.targets| {
      GoneExactly(db, bs, kept, o, run, i + 1, x);
      GoneGoesFrom(db, bs, kept, o, run, i + 1);
      assert IsTurn(db, o, run, i);
      var b := TargetAt(db, bs, kept, run.targets, i);
      OwnUnitUntouched(db, bs, run.targets, i, run.gones[i + 1]);
      TurnTakesUnit(db, bs, o, b, run.gones[i + 1], run.verdicts[i], run.gones[i], x);
      OneMoreWent(bs, run, i, x);
    }
  }

  lemma OneMoreWent(bs: seq<Meta>, run: Run, i: nat, x: Meta)
    requires Proper(bs) && Aligned(run) && i < |run.targets|
    ensures Went(bs, run, i, x) <==>
      Went(bs, run, i + 1, x) || (GoesWith(bs, x, run.targets[i]) && run.verdicts[i] == Allowed)
  {
  }

  // ---------------------------------------------------------------------------------------------
  // The verdict at a turn
  // ---------------------------------------------------------------------------------------------

  /** The time by which the guard judges the deletion of `b`. */
  ghost predicate RestoresTo(db: seq<Meta>, b: Meta, w: Timestamp) {
    if b.kind == Incremental then exists chain :: IsFetched(db, b.name, chain) && w == LastWrite(b, Flat(chain))
    else w == b.lastWriteTS
  }

  function Excluded(b: Meta): Timestamp {
    if b.kind == Incremental then b.lastWriteTS else ZeroTS
  }

  predicate IsGuarded(b: Meta) {
    b.kind == Incremental || IsValidBaseSnapshot(b)
  }

  lemma {:induction false} SourceInUnit(db: seq<Meta>, gone: set<string>, base: Meta, chain: seq<seq<Meta>>, j: nat)
    requires Proper(db) && base in db && base.src == "" && Untouched(db, gone, base.name)
    requires Levels(Without(db, gone), base.name, chain) && j <= |chain|
    ensures var source := SourceOf(base.name, chain, j);
      && (source == "" || exists p :: p in db && p.name == source && InUnit(db, base.name, source))
      && IncrementsOf(Without(db, gone), source) == IncrementsOf(db, source)
    decreases j
  {
    var source := SourceOf(base.name, chain, j);
    if j == 0 {
      BaseInOwnUnit(db, base);
    } else {
      SourceInUnit(db, gone, base, chain, j - 1);
      assert IsLevel(Without(db, gone), SourceOf(base.name, chain, j - 1), chain[j - 1]);
      if source != "" {
        LastDoneGoesOn(db, base.name, SourceOf(base.name, chain, j - 1), chain[j - 1]);
      }
    }
    if source != "" {
      UnitKeepsIncrements(db, gone, base.name, source);
    }
  }

  lemma LastDoneGoesOn(db: seq<Meta>, t: string, above: string, level: seq<Meta>)
    requires Proper(db) && level == IncrementsOf(db, above) && LastDoneName(level) != ""
    requires above == "" || exists p :: p in db && p.name == above && InUnit(db, t, above)
    ensures exists p :: p in db && p.name == LastDoneName(level) && InUnit(db, t, p.name)
  {
    Deletion.LastDoneIn(level);
    var c :| c in level && c.name == LastDoneName(level);
    IncrementsAre(db, above, c);
    var p :| p in db && p.name == above && InUnit(db, t, above);
    UnitGoesOn(db, t, p, c);
  }

  lemma UnitKeepsIncrements(db: seq<Meta>, gone: set<string>, t: string, source: string)
    requires Proper(db) && Untouched(db, gone, t)
    requires exists p :: p in db && p.name == source && InUnit(db, t, source)
    ensures IncrementsOf(Without(db, gone), source) == IncrementsOf(db, source)
  {
    var p :| p in db && p.name == source && InUnit(db, t, source);
    forall c | c in IncrementsOf(db, source) ensures c.name !in gone {
      IncrementsAre(db, source, c);
      UnitGoesOn(db, t, p, c);
    }
    SameIncrements(db, gone, source);
  }

  /** What has gone before does not change what is fetched for a unit. */
  lemma FetchedStays(db: seq<Meta>, gone: set<string>, base: Meta, chain: seq<seq<Meta>>)
    requires Proper(db) && base in db && base.src == "" && Untouched(db, gone, base.name)
    requires IsFetched(Without(db, gone), base.name, chain)
    ensures IsFetched(db, base.name, chain)
  {
    forall j | 0 <= j < |chain| ensures IsLevel(db, SourceOf(base.name, chain, j), chain[j]) {
      SourceInUnit(db, gone, base, chain, j);
      assert IsLevel(Without(db, gone), SourceOf(base.name, chain, j), chain[j]);
    }
    SourceInUnit(db, gone, base, chain, |chain|);
  }

  /** The verdict asks for the bases that are left, by the same times as ever. */
  lemma VerdictAtTurn(db: seq<Meta>, o: Oplog, b: Meta, gone: set<string>, v: Verdict, w: Timestamp)
    requires Proper(db) && b in db && IsEntryPoint(b) && !IsRunning(b) && Untouched(db, gone, b.name)
    requires IsVerdict(Without(db, gone), o, b, v) && RestoresTo(db, b, w)
    ensures v == if IsGuarded(b) && Required(Without(db, gone), o, w, Excluded(b)) then BaseForPITR else Allowed
  {
    if b.kind == Incremental {
      var rest := Without(db, gone);
      var there :| IsFetched(rest, b.name, there) && VerdictOnChain(rest, o, true, b, Flat(there), v);
      FetchedStays(db, gone, b, there);
      var chain :| IsFetched(db, b.name, chain) && w == LastWrite(b, Flat(chain));
      FetchedOnce(db, b.name, chain, there);
    }
  }

  // --- a newer base ------------------------------------------------------------------------------

  /** If a unit has a done backup newer than `w`, that is a base. */
  lemma OwnNewestIsBase(db: seq<Meta>, bs: seq<Meta>, b: Meta, w: Timestamp) returns (y: Meta)
    requires Proper(db) && Proper(bs) && HoldsMain(db, bs) && b in bs && IsGuarded(b)
    requires b.kind != Incremental ==> w == b.lastWriteTS
    requires Before(w, RestoreTime(bs, b.name))
    ensures GoesWith(bs, y, b.name) && IsMainPITRBaseSnapshot(y) && y.lastWriteTS == RestoreTime(bs, b.name)
  {
    RestoreTimeIs(bs, b.name);
    y :| y in bs && IsRestoreTimeOf(bs, y, b.name) && y.lastWriteTS == RestoreTime(bs, b.name);
    ByNameFinds(bs);
    if y.kind == Incremental {
      BaseIsBase(y, ByName(bs), {});
      SameName(bs, b, BaseOf(bs, y).value);
    } else {
      SameName(bs, b, y);
    }
  }

  /** If a newer base has gone before, the own unit has a base that is newer still. */
  lemma GoneButOwnIsNewer(
    db: seq<Meta>, bs: seq<Meta>, kept: set<string>, targets: seq<string>, i: nat, gone: set<string>, b: Meta,
    w: Timestamp, x: Meta) returns (y: Meta)
    requires IsReport(db, bs, kept, targets) && i < |targets| && AllGoFrom(bs, targets, i + 1, gone)
    requires b in bs && b.name == targets[i] && IsGuarded(b) && (b.kind != Incremental ==> w == b.lastWriteTS)
    requires x in db && IsMainPITRBaseSnapshot(x) && Before(w, x.lastWriteTS) && x.name in gone
    ensures GoesWith(bs, y, b.name) && IsMainPITRBaseSnapshot(y) && Before(w, y.lastWriteTS)
  {
    assert GoesFrom(bs, targets, i + 1, x.name);
    var x': Meta, k :| i + 1 <= k < |targets| && x'.name == x.name && GoesWith(bs, x', targets[k]);
    SameName(db, x, x');
    RestoreTimeIs(bs, targets[k]);
    assert IsRestoreTimeOf(bs, x, targets[k]) && MayPrecede(bs, targets[i], targets[k]);
    y := OwnNewestIsBase(db, bs, b, w);
  }

  /** A base newer than all that the unit restores to is there at its turn if it was there at all. */
  lemma NewestStays(
    db: seq<Meta>, bs: seq<Meta>, kept: set<string>, targets: seq<string>, i: nat, gone: set<string>, b: Meta,
    w: Timestamp)
    requires IsReport(db, bs, kept, targets) && i < |targets| && AllGoFrom(bs, targets, i + 1, gone)
    requires b in bs && b.name == targets[i] && IsGuarded(b) && RestoresTo(db, b, w)
    requires Untouched(db, gone, b.name)
    ensures HasBaseAfter(Without(db, gone), w) <==> HasBaseAfter(db, w)
  {
    WithoutKeeps(db, gone);
    if x :| x in db && IsMainPITRBaseSnapshot(x) && Before(w, x.lastWriteTS) {
      var y := x;
      if x.name in gone {
        y := GoneButOwnIsNewer(db, bs, kept, targets, i, gone, b, w, x);
        GoesWithUnit(db, bs, y, b.name);
      }
      assert y in Without(db, gone);
    }
  }

  // ---------------------------------------------------------------------------------------------
  // When a target is refused
  // ---------------------------------------------------------------------------------------------

  /** `p` is the newest base of the group that is older than `w`, other than at `exclude`; zero if there is
      none. */
  ghost predicate IsNewestBefore(group: set<Meta>, w: Timestamp, exclude: Timestamp, p: Timestamp) {
    && (forall x :: x in group && IsBaseBefore(x, w, exclude) ==> AtMost(x.lastWriteTS, p))
    && (p == ZeroTS || exists x :: x in group && IsBaseBefore(x, w, exclude) && x.lastWriteTS == p)
  }

  predicate IsBaseBefore(x: Meta, w: Timestamp, exclude: Timestamp) {
    IsMainPITRBaseSnapshot(x) && Before(x.lastWriteTS, w) && x.lastWriteTS != exclude
  }

  function Later(a: Timestamp, b: Timestamp): Timestamp {
    if Before(a, b) then b else a
  }

  lemma NewestOfBoth(a: set<Meta>, b: set<Meta>, w: Timestamp, exclude: Timestamp, p: Timestamp, q: Timestamp)
    requires IsNewestBefore(a, w, exclude, p) && IsNewestBefore(b, w, exclude, q)
    ensures IsNewestBefore(a + b, w, exclude, Later(p, q))
  {
  }

  lemma NewestOnce(a: set<Meta>, b: set<Meta>, w: Timestamp, exclude: Timestamp, p: Timestamp, q: Timestamp)
    requires IsNewestBefore(a, w, exclude, p) && IsNewestBefore(b, w, exclude, q)
    requires forall x :: IsMainPITRBaseSnapshot(x) ==> (x in a <==> x in b)
    ensures p == q
  {
    if p != ZeroTS {
      var x :| x in a && IsBaseBefore(x, w, exclude) && x.lastWriteTS == p;
      assert x in b;
    }
    if q != ZeroTS {
      var x :| x in b && IsBaseBefore(x, w, exclude) && x.lastWriteTS == q;
      assert x in a;
    }
  }

  /** What the report keeps. */
  function Survivors(bs: seq<Meta>, purged: seq<string>): set<Meta> {
    set x | x in bs && x.name !in purged
  }

  /** What the report purges and is there at the turn of target `i`: its own unit, those behind it, and
      those that have been refused. */
  ghost function StillThere(bs: seq<Meta>, run: Run, i: nat): set<Meta>
    requires Proper(bs) && Aligned(run)
  {
    set x | x in bs && IsStillThere(bs, run, i, x)
  }

  ghost predicate IsStillThere(bs: seq<Meta>, run: Run, i: nat, x: Meta)
    requires Proper(bs) && Aligned(run)
  {
    exists k :: 0 <= k < |run.targets| && GoesWith(bs, x, run.targets[k]) && (k <= i || run.verdicts[k] != Allowed)
  }

  /** A base that the report keeps goes with no target; one that it purges goes with exactly one. */
  lemma KeptGoesWithNone(bs: seq<Meta>, kept: set<string>, x: Meta, t: string)
    requires Proper(bs) && ChainsWhole(bs, kept) && x in bs && !IsRunning(x) && x.name !in PurgedList(bs, kept)
    requires t in TargetList(bs, kept)
    ensures !GoesWith(bs, x, t)
  {
    if GoesWith(bs, x, t) {
      var b := TargetIsBackup(bs, kept, t);
      SameFateAsTarget(bs, kept, x, b);
      ListsHold(bs, kept, x);
    }
  }

  lemma SameFateAsTarget(bs: seq<Meta>, kept: set<string>, x: Meta, b: Meta)
    requires Proper(bs) && ChainsWhole(bs, kept) && b in bs && GoesWith(bs, x, b.name)
    requires !IsRunning(x) && !IsRunning(b)
    ensures x.name in kept <==> b.name in kept
  {
    ByNameFinds(bs);
    if x.kind == Incremental {
      BaseIsBase(x, ByName(bs), {});
      SameName(bs, b, BaseOf(bs, x).value);
      assert InChain(bs, x, b) && InChain(bs, b, b);
      ChainsShareFate(bs, kept, x, b, b);
    } else {
      SameName(bs, b, x);
    }
  }

  lemma LeftUnlessWent(
    bs: seq<Meta>, kept: set<string>, run: Run, i: nat, x: Meta)
    requires Proper(bs) && ChainsWhole(bs, kept) && multiset(run.targets) == multiset(TargetList(bs, kept))
    requires Aligned(run) && x in bs && IsMainPITRBaseSnapshot(x)
    ensures x in StillThere(bs, run, i) <==> x.name in PurgedList(bs, kept) && !Went(bs, run, i + 1, x)
  {
    SameTargets(bs, kept, run.targets);
    if x.name in PurgedList(bs, kept) {
      ErrorsAreUnreachable(bs, kept, x);
      var k :| 0 <= k < |run.targets| && run.targets[k] == TargetOf(bs, x).value;
      OneTarget(bs, run, i, k, x);
    } else {
      forall k | 0 <= k < |run.targets| ensures !GoesWith(bs, x, run.targets[k]) {
        assert run.targets[k] in run.targets;
        KeptGoesWithNone(bs, kept, x, run.targets[k]);
      }
    }
  }

  lemma OneTarget(bs: seq<Meta>, run: Run, i: nat, k: nat, x: Meta)
    requires Proper(bs) && Aligned(run) && DistinctTargets(run.targets) && k < |run.targets|
    requires GoesWith(bs, x, run.targets[k])
    ensures Went(bs, run, i + 1, x) <==> i < k && run.verdicts[k] == Allowed
    ensures IsStillThere(bs, run, i, x) <==> k <= i || run.verdicts[k] != Allowed
  {
  }

  /** When the turn of a target comes, its own unit is as it was, and the guard has judged it by what is left. */
  lemma TurnState(db: seq<Meta>, bs: seq<Meta>, kept: set<string>, o: Oplog, run: Run, i: nat, b: Meta)
    requires IsReport(db, bs, kept, run.targets) && IsExecution(db, o, run, 0) && i < |run.targets|
    requires b in bs && b.name == run.targets[i]
    ensures IsEntryPoint(b) && !IsRunning(b)
    ensures AllGoFrom(bs, run.targets, i + 1, run.gones[i + 1]) && Untouched(db, run.gones[i + 1], b.name)
    ensures IsVerdict(Without(db, run.gones[i + 1]), o, b, run.verdicts[i])
  {
    var own := TargetAt(db, bs, kept, run.targets, i);
    SameName(bs, b, own);
    GoneGoesFrom(db, bs, kept, o, run, i + 1);
    OwnUnitUntouched(db, bs, run.targets, i, run.gones[i + 1]);
    BaseIsThere(db, run.gones[i + 1], b);
    assert IsTurn(db, o, run, i);
  }

  /** Whatever failed or was refused before: the verdict asks for the bases that are left. */
  lemma RequiredAtTurn(
    db: seq<Meta>, bs: seq<Meta>, kept: set<string>, o: Oplog, run: Run, i: nat, b: Meta, w: Timestamp)
    requires IsReport(db, bs, kept, run.targets) && IsExecution(db, o, run, 0) && i < |run.targets|
    requires b in bs && b.name == run.targets[i] && RestoresTo(db, b, w)
    ensures AllGoFrom(bs, run.targets, i + 1, run.gones[i + 1]) && Untouched(db, run.gones[i + 1], b.name)
    ensures run.verdicts[i] ==
      if IsGuarded(b) && Required(Without(db, run.gones[i + 1]), o, w, Excluded(b)) then BaseForPITR else Allowed
  {
    TurnState(db, bs, kept, o, run, i, b);
    VerdictAtTurn(db, o, b, run.gones[i + 1], run.verdicts[i], w);
  }

  /** What the report purges and has not gone. */
  function LeftOver(bs: seq<Meta>, purged: seq<string>, gone: set<string>): set<Meta> {
    set x | x in bs && x.name in purged && x.name !in gone
  }

  /** The bases that are left at a turn, whatever failed or was refused before: nothing that the report keeps
      has gone. */
  lemma BasesLeft(
    db: seq<Meta>, bs: seq<Meta>, kept: set<string>, targets: seq<string>, i: nat, gone: set<string>, x: Meta)
    requires IsReport(db, bs, kept, targets) && AllGoFrom(bs, targets, i, gone) && IsMainPITRBaseSnapshot(x)
    ensures x in Without(db, gone) <==>
      x in Survivors(bs, PurgedList(bs, kept)) + LeftOver(bs, PurgedList(bs, kept), gone)
  {
    WithoutKeeps(db, gone);
    if x in bs && x.name !in PurgedList(bs, kept) && x.name in gone {
      assert GoesFrom(bs, targets, i, x.name);
      var x': Meta, k :| i <= k < |targets| && x'.name == x.name && GoesWith(bs, x', targets[k]);
      SameName(bs, x, x');
      SameTargets(bs, kept, targets);
      assert targets[k] in targets;
      KeptGoesWithNone(bs, kept, x, targets[k]);
    }
  }

  /** The newest base before, at a turn: it survives the report, or it is left over. */
  lemma PreviousAtTurn(
    db: seq<Meta>, bs: seq<Meta>, kept: set<string>, targets: seq<string>, i: nat, gone: set<string>, w: Timestamp,
    exclude: Timestamp, survivor: Timestamp, left: Timestamp)
    requires IsReport(db, bs, kept, targets) && AllGoFrom(bs, targets, i, gone)
    requires IsNewestBefore(Survivors(bs, PurgedList(bs, kept)), w, exclude, survivor)
    requires IsNewestBefore(LeftOver(bs, PurgedList(bs, kept), gone), w, exclude, left)
    ensures BaseBefore(Without(db, gone), w, exclude) == Later(survivor, left)
  {
    var rest := Without(db, gone);
    var a, b := Survivors(bs, PurgedList(bs, kept)), LeftOver(bs, PurgedList(bs, kept), gone);
    BaseBeforeIs(rest, w, exclude);
    NewestOfBoth(a, b, w, exclude, survivor, left);
    forall x | IsMainPITRBaseSnapshot(x) ensures x in Members(rest) <==> x in a + b {
      BasesLeft(db, bs, kept, targets, i, gone, x);
    }
    NewestOnce(Members(rest), a + b, w, exclude, BaseBefore(rest, w, exclude), Later(survivor, left));
  }

  /** When the deletion of a proposed target is refused at its turn, for every report, every target and
      whatever failed or was refused before: the target restores to the newest time of all, and the oplog up
      to that time is one line that starts behind the newest older base, kept or left over. */
  lemma RefusedExactly(
    db: seq<Meta>, bs: seq<Meta>, kept: set<string>, o: Oplog, run: Run, i: nat, b: Meta, w: Timestamp,
    survivor: Timestamp, left: Timestamp)
    requires IsReport(db, bs, kept, run.targets) && IsExecution(db, o, run, 0) && i < |run.targets|
    requires b in bs && b.name == run.targets[i] && RestoresTo(db, b, w)
    requires IsNewestBefore(Survivors(bs, PurgedList(bs, kept)), w, Excluded(b), survivor)
    requires IsNewestBefore(LeftOver(bs, PurgedList(bs, kept), run.gones[i + 1]), w, Excluded(b), left)
    ensures run.verdicts[i] == BaseForPITR || run.verdicts[i] == Allowed
    ensures run.verdicts[i] == BaseForPITR <==>
      && IsGuarded(b) && !HasBaseAfter(db, w)
      && IsRequiredPITRBase(Later(survivor, left), LinesBetween(o, Later(survivor, left), w))
  {
    RequiredAtTurn(db, bs, kept, o, run, i, b, w);
    if IsGuarded(b) {
      NewestStays(db, bs, kept, run.targets, i, run.gones[i + 1], b, w);
      PreviousAtTurn(db, bs, kept, run.targets, i + 1, run.gones[i + 1], w, Excluded(b), survivor, left);
    }
  }

  /** Without failing deletions, the bases left over are those of the target's own unit, of the targets behind
      it, and of those that have been refused. */
  lemma LeftOverExactly(db: seq<Meta>, bs: seq<Meta>, kept: set<string>, o: Oplog, run: Run, i: nat, x: Meta)
    requires IsReport(db, bs, kept, run.targets) && IsExecution(db, o, run, 0) && i < |run.targets|
    requires NoFaults(db, run) && IsMainPITRBaseSnapshot(x)
    ensures x in LeftOver(bs, PurgedList(bs, kept), run.gones[i + 1]) <==> x in StillThere(bs, run, i)
  {
    if x in bs {
      GoneExactly(db, bs, kept, o, run, i + 1, x);
      LeftUnlessWent(bs, kept, run, i, x);
    }
  }

  // --- when no other unit restores to the same time -----------------------------------------------

  /** The backups that go with `b`. */
  function OwnUnit(bs: seq<Meta>, b: Meta): set<Meta>
    requires Proper(bs)
  {
    set x | x in bs && GoesWith(bs, x, b.name)
  }

  /** A unit with a base has one that is as new as all the unit restores to. */
  lemma UnitNewestIsBase(db: seq<Meta>, bs: seq<Meta>, x: Meta, t: string) returns (y: Meta)
    requires Proper(bs) && HoldsMain(db, bs) && GoesWith(bs, x, t) && IsMainPITRBaseSnapshot(x)
    ensures GoesWith(bs, y, t) && IsMainPITRBaseSnapshot(y) && y.lastWriteTS == RestoreTime(bs, t)
  {
    RestoreTimeIs(bs, t);
    assert IsRestoreTimeOf(bs, x, t);
    if RestoreTime(bs, t) == ZeroTS {
      y := x;
    } else {
      y :| y in bs && IsRestoreTimeOf(bs, y, t) && y.lastWriteTS == RestoreTime(bs, t);
      SingleGoesAlone(bs, x, y, t);
    }
  }

  lemma SingleGoesAlone(bs: seq<Meta>, x: Meta, y: Meta, t: string)
    requires Proper(bs) && GoesWith(bs, x, t) && GoesWith(bs, y, t)
    ensures y.kind == Incremental || x == y
  {
    ByNameFinds(bs);
    if y.kind != Incremental {
      if x.kind == Incremental {
        BaseIsBase(x, ByName(bs), {});
        SameName(bs, y, BaseOf(bs, x).value);
      } else {
        SameName(bs, x, y);
      }
    }
  }

  lemma FetchedGoesWith(db: seq<Meta>, bs: seq<Meta>, b: Meta, chain: seq<seq<Meta>>, c: Meta)
    requires Proper(db) && Proper(bs) && ClosedDown(db, bs) && b in bs && b.kind == Incremental && b.src == ""
    requires IsFetched(db, b.name, chain) && c in Flat(chain)
    ensures GoesWith(bs, c, b.name)
  {
    InFlat(chain, c);
    var j :| 0 <= j < |chain| && c in chain[j];
    WithoutNothing(db);
    SourceInUnit(db, {}, b, chain, j);
    assert IsLevel(db, SourceOf(b.name, chain, j), chain[j]);
    IncrementsAre(db, SourceOf(b.name, chain, j), c);
    var p :| p in db && p.name == SourceOf(b.name, chain, j) && InUnit(db, b.name, p.name);
    UnitGoesOn(db, b.name, p, c);
    var x := UnitGoesWith(db, bs, b, c.name);
    SameName(db, x, c);
  }

  lemma {:induction false} SomeDone(bs: seq<Meta>, x: Meta)
    requires x in bs && x.status == Done
    ensures LastDoneOf(bs).Some?
    decreases |bs|
  {
    var before := bs[..|bs| - 1];
    assert bs == before + [bs[|bs| - 1]];
    if bs[|bs| - 1].status != Done {
      SomeDone(before, x);
    }
  }

  /** With a done backup in it, a unit is judged by a time that one of its done backups restores to. */
  lemma JudgedByOwnTime(db: seq<Meta>, bs: seq<Meta>, b: Meta, w: Timestamp, x: Meta)
    requires Proper(db) && Proper(bs) && ClosedDown(db, bs) && b in bs && IsEntryPoint(b) && RestoresTo(db, b, w)
    requires CanGoWhole(db, b.name) && GoesWith(bs, x, b.name) && x.status == Done
    ensures AtMost(w, RestoreTime(bs, b.name))
  {
    RestoreTimeIs(bs, b.name);
    ByNameFinds(bs);
    SingleGoesAlone(bs, x, b, b.name);
    if b.kind == Incremental {
      var chain :| IsFetched(db, b.name, chain) && w == LastWrite(b, Flat(chain));
      LastDoneIsOne(Flat(chain));
      if LastDoneOf(Flat(chain)).Some? {
        FetchedGoesWith(db, bs, b, chain, LastDoneOf(Flat(chain)).value);
        assert IsRestoreTimeOf(bs, LastDoneOf(Flat(chain)).value, b.name);
      } else {
        OnlyBaseIsDone(db, bs, b, chain, x);
        assert IsRestoreTimeOf(bs, b, b.name);
      }
    } else {
      assert IsRestoreTimeOf(bs, b, b.name);
    }
  }

  lemma OnlyBaseIsDone(db: seq<Meta>, bs: seq<Meta>, b: Meta, chain: seq<seq<Meta>>, x: Meta)
    requires Proper(db) && Proper(bs) && ClosedDown(db, bs) && b in bs && b.kind == Incremental
    requires CanGoWhole(db, b.name) && GoesWith(bs, x, b.name) && x.status == Done
    requires IsFetched(db, b.name, chain) && LastDoneOf(Flat(chain)).None?
    ensures x == b
  {
    var b' :| b' in db && b'.name == b.name && b'.src == "" && !IsRunning(b') &&
      if b'.kind == Incremental then OnlyLastGoesOn(db, b.name) else IncrementsOf(db, b.name) == [];
    SameName(db, b, b');
    GoesWithUnit(db, bs, x, b.name);
    UnitIsFetched(db, b, chain, x);
    if x in Flat(chain) {
      SomeDone(Flat(chain), x);
    }
  }

  lemma TimeAtTurn(db: seq<Meta>, o: Oplog, b: Meta, gone: set<string>, v: Verdict) returns (w: Timestamp)
    requires Proper(db) && b in db && IsEntryPoint(b) && Untouched(db, gone, b.name)
    requires IsVerdict(Without(db, gone), o, b, v)
    ensures RestoresTo(db, b, w)
  {
    w := b.lastWriteTS;
    if b.kind == Incremental {
      var rest := Without(db, gone);
      var chain :| IsFetched(rest, b.name, chain) && VerdictOnChain(rest, o, true, b, Flat(chain), v);
      FetchedStays(db, gone, b, chain);
      w := LastWrite(b, Flat(chain));
    }
  }

  /** Whatever failed before: only what restores to the newest time of all is refused. */
  lemma RefusedIsNewest(db: seq<Meta>, bs: seq<Meta>, kept: set<string>, o: Oplog, run: Run, i: nat, b: Meta)
    returns (w: Timestamp)
    requires IsReport(db, bs, kept, run.targets) && IsExecution(db, o, run, 0) && i < |run.targets|
    requires b in bs && b.name == run.targets[i] && run.verdicts[i] != Allowed
    ensures RestoresTo(db, b, w) && !HasBaseAfter(db, w)
  {
    TurnState(db, bs, kept, o, run, i, b);
    w := TimeAtTurn(db, o, b, run.gones[i + 1], run.verdicts[i]);
    VerdictAtTurn(db, o, b, run.gones[i + 1], run.verdicts[i], w);
    NewestStays(db, bs, kept, run.targets, i, run.gones[i + 1], b, w);
  }

  /** The bases that count as older, when the target restores to the newest time of all and no other target
      to the same: but for the survivors, they are of its own unit. */
  lemma OnlyOwnUnitIsLeft(
    db: seq<Meta>, bs: seq<Meta>, kept: set<string>, o: Oplog, run: Run, i: nat, b: Meta, w: Timestamp, x: Meta)
    requires IsReport(db, bs, kept, run.targets) && IsExecution(db, o, run, 0) && i < |run.targets|
    requires NoFaults(db, run)
    requires b in bs && b.name == run.targets[i] && RestoresTo(db, b, w) && IsMainPITRBaseSnapshot(b)
    requires !HasBaseAfter(db, w) && OwnTime(bs, run.targets, i)
    requires IsMainPITRBaseSnapshot(x)
    ensures x in StillThere(bs, run, i) <==> x in OwnUnit(bs, b)
  {
    if x in StillThere(bs, run, i) {
      var k :| 0 <= k < |run.targets| && GoesWith(bs, x, run.targets[k]) && (k <= i || run.verdicts[k] != Allowed);
      var own := TargetAt(db, bs, kept, run.targets, i);
      SameName(bs, b, own);
      JudgedByOwnTime(db, bs, b, w, b);
      if k < i {
        AheadIsNewer(db, bs, kept, run.targets, k, i, x, w);
      } else if k > i {
        assert MayPrecede(bs, run.targets[i], run.targets[k]);
        RefusedIsNewer(db, bs, kept, o, run, i, k, b, x);
      }
    }
  }

  lemma AheadIsNewer(
    db: seq<Meta>, bs: seq<Meta>, kept: set<string>, targets: seq<string>, k: nat, i: nat, x: Meta, w: Timestamp)
    requires IsReport(db, bs, kept, targets) && k < i < |targets| && OwnTime(bs, targets, i)
    requires GoesWith(bs, x, targets[k]) && IsMainPITRBaseSnapshot(x) && AtMost(w, RestoreTime(bs, targets[i]))
    ensures HasBaseAfter(db, w)
  {
    var y := UnitNewestIsBase(db, bs, x, targets[k]);
    assert MayPrecede(bs, targets[k], targets[i]);
    assert y in db && Before(w, y.lastWriteTS);
  }

  /** A target that is refused before the turn of `b` restores to a newer time. */
  lemma RefusedIsNewer(
    db: seq<Meta>, bs: seq<Meta>, kept: set<string>, o: Oplog, run: Run, i: nat, k: nat, b: Meta, x: Meta)
    requires IsReport(db, bs, kept, run.targets) && IsExecution(db, o, run, 0) && i < k < |run.targets|
    requires NoFaults(db, run) && run.verdicts[k] != Allowed
    requires b in bs && b.name == run.targets[i] && IsMainPITRBaseSnapshot(b) && GoesWith(bs, b, b.name)
    requires GoesWith(bs, x, run.targets[k]) && IsMainPITRBaseSnapshot(x)
    ensures !Before(RestoreTime(bs, run.targets[k]), RestoreTime(bs, run.targets[i]))
  {
    var other := TargetAt(db, bs, kept, run.targets, k);
    var v := RefusedIsNewest(db, bs, kept, o, run, k, other);
    JudgedByOwnTime(db, bs, other, v, x);
    var y := UnitNewestIsBase(db, bs, b, run.targets[i]);
    assert y in db;
  }

  /** No other target restores to the same time as target `i`. */
  predicate OwnTime(bs: seq<Meta>, targets: seq<string>, i: nat)
    requires Proper(bs) && i < |targets|
  {
    forall k :: 0 <= k < |targets| && k != i ==> RestoreTime(bs, targets[k]) != RestoreTime(bs, targets[i])
  }

  /** What the report keeps was not written last in the very moment of `t`. */
  predicate NoneKeptAt(bs: seq<Meta>, purged: seq<string>, t: Timestamp) {
    forall x :: x in bs && x.name !in purged && IsMainPITRBaseSnapshot(x) && t != ZeroTS ==> x.lastWriteTS != t
  }

  /** The report's own promise: seen from the newest older survivor, the newest base is not required. */
  lemma SurvivorWillDo(
    db: seq<Meta>, bs: seq<Meta>, kept: set<string>, o: Oplog, targets: seq<string>, i: nat, b: Meta, w: Timestamp,
    survivor: Timestamp)
    requires IsReport(db, bs, kept, targets) && i < |targets| && b in bs && b.name == targets[i]
    requires NoRequiredBaseGoes(bs, PurgedList(bs, kept), o)
    requires IsMainPITRBaseSnapshot(b) && CanGoWhole(db, b.name) && RestoresTo(db, b, w) && !HasBaseAfter(db, w)
    requires NoneKeptAt(bs, PurgedList(bs, kept), Excluded(b))
    requires IsNewestBefore(Survivors(bs, PurgedList(bs, kept)), w, Excluded(b), survivor)
    ensures !IsRequiredPITRBase(survivor, LinesBetween(o, survivor, w))
  {
    var purged := PurgedList(bs, kept);
    var own := TargetAt(db, bs, kept, targets, i);
    SameName(bs, b, own);
    JudgedByOwnTime(db, bs, b, w, b);
    var y := UnitNewestIsBase(db, bs, b, b.name);
    assert y in db && y.lastWriteTS == w;
    SameFateAsTarget(bs, kept, y, b);
    ListsHold(bs, kept, y);
    IsPreviousSurvivor(bs, purged, w, Excluded(b), survivor);
    NewestMayGo(db, bs, purged, o, y, survivor);
  }

  lemma NewestMayGo(db: seq<Meta>, bs: seq<Meta>, purged: seq<string>, o: Oplog, y: Meta, survivor: Timestamp)
    requires (forall b :: b in bs ==> b in db) && !HasBaseAfter(db, y.lastWriteTS)
    requires NoRequiredBaseGoes(bs, purged, o) && y in bs && IsPurgedSnapshot(y, purged)
    requires IsPrevious(bs, |bs|, purged, y.lastWriteTS, survivor)
    ensures !IsRequiredPITRBase(survivor, LinesBetween(o, survivor, y.lastWriteTS))
  {
    assert forall x :: x in bs && IsMainPITRBaseSnapshot(x) ==> AtMost(x.lastWriteTS, y.lastWriteTS);
  }

  lemma IsPreviousSurvivor(bs: seq<Meta>, purged: seq<string>, w: Timestamp, exclude: Timestamp, p: Timestamp)
    requires IsNewestBefore(Survivors(bs, purged), w, exclude, p) && NoneKeptAt(bs, purged, exclude)
    ensures IsPrevious(bs, |bs|, purged, w, p)
  {
    forall j | 0 <= j < |bs| && IsSurvivingSnapshot(bs[j], purged) && Before(bs[j].lastWriteTS, w)
      ensures AtMost(bs[j].lastWriteTS, p)
    {
      assert bs[j] in Survivors(bs, purged);
      if exclude == ZeroTS && bs[j].lastWriteTS == ZeroTS {
      } else {
        assert IsBaseBefore(bs[j], w, exclude);
      }
    }
    if p != ZeroTS {
      var x :| x in Survivors(bs, purged) && IsBaseBefore(x, w, exclude) && x.lastWriteTS == p;
      var j :| 0 <= j < |bs| && bs[j] == x;
    }
  }

  /** On the main storage, where the report has kept what it finds required, a target with a time of its own
      is refused at its turn exactly if it is a chain that restores to the newest time of all, with an
      increment in the middle that is newer than every older survivor, behind which the oplog begins as one
      line. Everything else that was proposed goes. */
  lemma ChainRefusedExactly(
    db: seq<Meta>, bs: seq<Meta>, kept: set<string>, o: Oplog, run: Run, i: nat, b: Meta, w: Timestamp,
    survivor: Timestamp, middle: Timestamp)
    requires IsReport(db, bs, kept, run.targets) && NoRequiredBaseGoes(bs, PurgedList(bs, kept), o)
    requires IsExecution(db, o, run, 0) && NoFaults(db, run)
    requires i < |run.targets| && OwnTime(bs, run.targets, i)
    requires b in bs && b.name == run.targets[i] && b.status == Done && RestoresTo(db, b, w)
    requires NoneKeptAt(bs, PurgedList(bs, kept), Excluded(b))
    requires IsNewestBefore(Survivors(bs, PurgedList(bs, kept)), w, Excluded(b), survivor)
    requires IsNewestBefore(OwnUnit(bs, b), w, Excluded(b), middle)
    ensures run.verdicts[i] == BaseForPITR <==>
      && b.kind == Incremental && !HasBaseAfter(db, w)
      && Before(survivor, middle) && IsRequiredPITRBase(middle, LinesBetween(o, middle, w))
  {
    RequiredAtTurn(db, bs, kept, o, run, i, b, w);
    if IsGuarded(b) {
      if HasBaseAfter(db, w) {
        NewestStays(db, bs, kept, run.targets, i, run.gones[i + 1], b, w);
      } else {
        MiddleIsLeft(db, bs, kept, o, run, i, b, w, middle);
        RefusedExactly(db, bs, kept, o, run, i, b, w, survivor, middle);
        SurvivorWillDo(db, bs, kept, o, run.targets, i, b, w, survivor);
        if b.kind != Incremental {
          SingleHasNoMiddle(bs, b, w, middle);
        }
      }
    }
  }

  lemma SingleHasNoMiddle(bs: seq<Meta>, b: Meta, w: Timestamp, middle: Timestamp)
    requires Proper(bs) && b in bs && b.kind != Incremental && w == b.lastWriteTS
    requires IsNewestBefore(OwnUnit(bs, b), w, Excluded(b), middle)
    ensures middle == ZeroTS
  {
    ByNameFinds(bs);
    forall x | x in OwnUnit(bs, b) ensures x == b {
      SingleGoesAlone(bs, x, b, b.name);
    }
  }

  lemma MiddleIsLeft(
    db: seq<Meta>, bs: seq<Meta>, kept: set<string>, o: Oplog, run: Run, i: nat, b: Meta, w: Timestamp,
    middle: Timestamp)
    requires IsReport(db, bs, kept, run.targets) && IsExecution(db, o, run, 0) && i < |run.targets|
    requires NoFaults(db, run)
    requires b in bs && b.name == run.targets[i] && RestoresTo(db, b, w) && IsMainPITRBaseSnapshot(b)
    requires !HasBaseAfter(db, w) && OwnTime(bs, run.targets, i)
    requires IsNewestBefore(OwnUnit(bs, b), w, Excluded(b), middle)
    ensures IsNewestBefore(LeftOver(bs, PurgedList(bs, kept), run.gones[i + 1]), w, Excluded(b), middle)
  {
    var left := LeftOver(bs, PurgedList(bs, kept), run.gones[i + 1]);
    forall x | IsMainPITRBaseSnapshot(x) ensures x in left <==> x in OwnUnit(bs, b) {
      LeftOverExactly(db, bs, kept, o, run, i, x);
      OnlyOwnUnitIsLeft(db, bs, kept, o, run, i, b, w, x);
    }
  }

  // ---------------------------------------------------------------------------------------------
  // From the policy to the last deletion
  // ---------------------------------------------------------------------------------------------

  /** Evaluates the policy on the main storage while PITR runs and carries the report out. What is executed
      is a report that keeps its promises, in the right order; what is refused on the way is what
      `RefusedExactly` and `ChainRefusedExactly` say. */
  method CleanUp(p: Policy, clock: Clock, db0: seq<Meta>, o: Oplog, bs: seq<Meta>, faultOf: string -> Fault)
    returns (report: Report, db: seq<Meta>, verdicts: seq<Verdict>, ghost gones: seq<set<string>>)
    requires Proper(bs) && Proper(db0) && HoldsMain(db0, bs)
    ensures fresh(report) && (!p.enabled || report.aborted ==> db == db0)
    ensures p.enabled && !report.aborted ==>
      var kept, targets := KeptNames(report.keepReasons), report.deleteTargets;
      var faults := seq(|targets|, i requires 0 <= i < |targets| => faultOf(targets[i]));
      && PolicyKeeps(p, clock, bs) <= kept
      && IsReport(db0, bs, kept, targets) && NoRequiredBaseGoes(bs, PurgedList(bs, kept), o)
      && IsExecution(db0, o, Run(targets, faults, verdicts, gones), 0) && db == Without(db0, gones[0])
  {
    var ok: bool;
    report, ok := BuildReport(p, clock, db0, o, bs, true, true);
    report.ApplyMinKeepGuard(bs);
    SortDeleteTargets(report, bs);
    db, verdicts, gones := db0, [], [{}];
    if !report.enabled || report.aborted {
      return;
    }
    ghost var kept := KeptNames(report.keepReasons);
    var targets := report.deleteTargets;
    TargetsCanGo(db0, bs, kept, targets);
    var faults := seq(|targets|, i requires 0 <= i < |targets| => faultOf(targets[i]));
    db, verdicts, gones := ExecuteTargets(db0, o, targets, faults);
  }

  lemma TargetsCanGo(db: seq<Meta>, bs: seq<Meta>, kept: set<string>, targets: seq<string>)
    requires Proper(db) && Proper(bs) && (forall b :: b in bs ==> b in db)
    requires multiset(targets) == multiset(TargetList(bs, kept))
    ensures forall b :: b in db && b.name in targets ==> IsEntryPoint(b) && !IsRunning(b)
  {
    SameTargets(bs, kept, targets);
    forall b | b in db && b.name in targets ensures IsEntryPoint(b) && !IsRunning(b) {
      var own := TargetIsBackup(bs, kept, b.name);
      SameName(db, b, own);
    }
  }

  // --- such a chain ------------------------------------------------------------------------------

  const ChainBase := Meta("a", Incremental, Done, "", false, false, Timestamp(10, 0), 0)
  const ChainMiddle := Meta("b", Incremental, Done, "a", false, false, Timestamp(20, 0), 0)
  const ChainTop := Meta("c", Incremental, Done, "b", false, false, Timestamp(30, 0), 0)
  const Other := Meta("d", Logical, Done, "", false, false, Timestamp(25, 0), 0)

  function Four(): seq<Meta> {
    [ChainBase, ChainMiddle, Other, ChainTop]
  }

  function LateOplog(): Oplog {
    Oplog(["rs"], [Chunk(1, 5), Chunk(22, 30)])
  }

  /** An increment in the middle of the unit itself counts as the base before. With another base deleted
      at its turn, the chain that was allowed and proposed is refused. */
  lemma ChainRefusedAtItsTurn(v: Verdict, v': Verdict)
    requires VerdictOnChain(Four(), LateOplog(), true, ChainBase, [ChainMiddle, ChainTop], v)
    requires VerdictOnChain(Without(Four(), {"d"}), LateOplog(), true, ChainBase, [ChainMiddle, ChainTop], v')
    ensures v == Allowed && v' == BaseForPITR
    ensures NoRequiredBaseGoes(Four(), ["a", "b", "d", "c"], LateOplog())
  {
    var w, exclude := Timestamp(30, 0), Timestamp(10, 0);
    assert LastWrite(ChainBase, [ChainMiddle, ChainTop]) == w;
    BasesOfFour();
    BasesOfThree();
    LateLines();
    NothingSurvives();
  }

  lemma LateLines()
    ensures LinesBetween(LateOplog(), Timestamp(20, 0), Timestamp(30, 0)) == [T.Timeline(22, 30, 0)]
    ensures LinesBetween(LateOplog(), Timestamp(25, 0), Timestamp(30, 0)) == [T.Timeline(22, 30, 0)]
    ensures |LinesBetween(LateOplog(), ZeroTS, Timestamp(30, 0))| == 2
  {
    PairLines(Chunk(1, 5), Chunk(22, 30), ZeroTS, Timestamp(30, 0));
    PairLines(Chunk(1, 5), Chunk(22, 30), Timestamp(20, 0), Timestamp(30, 0));
    PairLines(Chunk(1, 5), Chunk(22, 30), Timestamp(25, 0), Timestamp(30, 0));
  }

  lemma NothingSurvives()
    ensures NoRequiredBaseGoes(Four(), ["a", "b", "d", "c"], LateOplog())
  {
    LateLines();
    var purged := ["a", "b", "d", "c"];
    FourArePurged(purged);
    forall b, prev |
      && b in Four() && IsPurgedSnapshot(b, purged)
      && (forall x :: x in Four() && IsPurgedSnapshot(x, purged) ==> AtMost(x.lastWriteTS, b.lastWriteTS))
      && !HasNewerSurvivor(Four(), purged, b.lastWriteTS)
      && IsPrevious(Four(), |Four()|, purged, b.lastWriteTS, prev)
      ensures !IsRequiredPITRBase(prev, LinesBetween(LateOplog(), prev, b.lastWriteTS))
    {
      assert b.lastWriteTS == Timestamp(30, 0);
      NoSurvivorNoPrevious(Four(), purged, b.lastWriteTS, prev);
    }
  }

  lemma FourArePurged(purged: seq<string>)
    requires purged == ["a", "b", "d", "c"]
    ensures forall b :: b in Four() ==> b.name in purged && AtMost(b.lastWriteTS, Timestamp(30, 0))
    ensures ChainTop in Four() && IsPurgedSnapshot(ChainTop, purged)
  {
  }

  lemma NoSurvivorNoPrevious(bs: seq<Meta>, purged: seq<string>, w: Timestamp, prev: Timestamp)
    requires (forall b :: b in bs ==> b.name in purged) && IsPrevious(bs, |bs|, purged, w, prev)
    ensures prev == ZeroTS
  {
    forall j | 0 <= j < |bs| ensures !IsSurvivingSnapshot(bs[j], purged) {
      assert bs[j] in bs;
    }
  }

  lemma WithoutStep(bs: seq<Meta>, b: Meta, gone: set<string>)
    ensures Without(bs + [b], gone) == if b.name in gone then Without(bs, gone) else Without(bs, gone) + [b]
  {
    assert (bs + [b])[..|bs|] == bs;
  }

  lemma BasesOfFour()
    ensures BaseBefore(Four(), Timestamp(30, 0), Timestamp(10, 0)) == Timestamp(25, 0)
    ensures !HasBaseAfter(Four(), Timestamp(30, 0))
  {
    var w, exclude := Timestamp(30, 0), Timestamp(10, 0);
    BaseStep([], ChainBase, w, exclude);
    BaseStep([ChainBase], ChainMiddle, w, exclude);
    BaseStep([ChainBase, ChainMiddle], Other, w, exclude);
    BaseStep([ChainBase, ChainMiddle, Other], ChainTop, w, exclude);
    assert [] + [ChainBase] == [ChainBase] && [ChainBase] + [ChainMiddle] == [ChainBase, ChainMiddle];
    assert [ChainBase, ChainMiddle] + [Other] == [ChainBase, ChainMiddle, Other];
    assert [ChainBase, ChainMiddle, Other] + [ChainTop] == Four();
  }

  lemma WithoutOther()
    ensures Without(Four(), {"d"}) == [ChainBase, ChainMiddle, ChainTop]
  {
    WithoutStep([], ChainBase, {"d"});
    WithoutStep([ChainBase], ChainMiddle, {"d"});
    WithoutStep([ChainBase, ChainMiddle], Other, {"d"});
    WithoutStep([ChainBase, ChainMiddle, Other], ChainTop, {"d"});
    assert [] + [ChainBase] == [ChainBase] && [ChainBase] + [ChainMiddle] == [ChainBase, ChainMiddle];
    assert [ChainBase, ChainMiddle] + [Other] == [ChainBase, ChainMiddle, Other];
    assert [ChainBase, ChainMiddle, Other] + [ChainTop] == Four();
  }

  lemma BasesOfThree()
    ensures BaseBefore(Without(Four(), {"d"}), Timestamp(30, 0), Timestamp(10, 0)) == Timestamp(20, 0)
    ensures !HasBaseAfter(Without(Four(), {"d"}), Timestamp(30, 0))
  {
    var w, exclude := Timestamp(30, 0), Timestamp(10, 0);
    WithoutOther();
    BaseStep([], ChainBase, w, exclude);
    BaseStep([ChainBase], ChainMiddle, w, exclude);
    BaseStep([ChainBase, ChainMiddle], ChainTop, w, exclude);
    assert [] + [ChainBase] == [ChainBase] && [ChainBase] + [ChainMiddle] == [ChainBase, ChainMiddle];
    assert [ChainBase, ChainMiddle] + [ChainTop] == [ChainBase, ChainMiddle, ChainTop];
  }
}
