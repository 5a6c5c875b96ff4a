/** Executing the deletion of backups (pbm/backup/delete.go, cmd/pbm-agent/delete.go): an incremental
    base takes its increments with it. Any deletion may fail half way; the failure is only logged. */
module Deletion {
  import opened Options
  import opened Timestamps
  import opened Backups
  import opened Lifecycle
  import opened TargetOrder

  // ---------------------------------------------------------------------------------------------
  // The increments of a base
  // ---------------------------------------------------------------------------------------------

  /** The backups whose source is `name`; a backup without a source has no such field to compare. */
  function IncrementsOf(db: seq<Meta>, name: string): seq<Meta> {
    if db == [] || name == "" then []
    else
      var before, b := IncrementsOf(db[..|db| - 1], name), db[|db| - 1];
      if b.src == name then before + [b] else before
  }

  /** From a base down its increments. */
  predicate IsPath(db: seq<Meta>, path: seq<Meta>) {
    && path != [] && path[0].src == ""
    && (forall i :: 0 <= i < |path| ==> path[i] in db)
    && (forall i :: 0 < i < |path| ==> path[i].src == path[i - 1].name)
  }

  ghost predicate LeadsTo(db: seq<Meta>, path: seq<Meta>, from: string, to: string) {
    IsPath(db, path) && path[0].name == from && path[|path| - 1].name == to
  }

  /** Backup `n` is part of what the deletion of `t` takes away. */
  ghost predicate InUnit(db: seq<Meta>, t: string, n: string) {
    exists path :: LeadsTo(db, path, t, n)
  }

  predicate Distinct(path: seq<Meta>) {
    forall i, j :: 0 <= i < j < |path| ==> path[i] != path[j]
  }

  lemma {:induction false} IncrementsAre(db: seq<Meta>, name: string, b: Meta)
    ensures b in IncrementsOf(db, name) <==> name != "" && b in db && b.src == name
    decreases |db|
  {
    if db != [] {
      assert db == db[..|db| - 1] + [db[|db| - 1]];
      IncrementsAre(db[..|db| - 1], name, b);
    }
  }

  /** Going down from a base never comes back to a backup already met. */
  lemma PathGrows(db: seq<Meta>, path: seq<Meta>, b: Meta)
    requires Proper(db) && IsPath(db, path) && Distinct(path)
    requires b in db && b.src == path[|path| - 1].name
    ensures IsPath(db, path + [b]) && Distinct(path + [b])
  {
    var n := |path|;
    forall i | 0 <= i < n ensures path[i] != b {
      if path[i] == b && i > 0 {
        SameName(db, path[i - 1], path[n - 1]);
      }
    }
  }

  lemma {:induction false} PathIsDistinct(db: seq<Meta>, path: seq<Meta>)
    requires Proper(db) && IsPath(db, path)
    ensures Distinct(path)
    decreases |path|
  {
    if |path| > 1 {
      var before, b := path[..|path| - 1], path[|path| - 1];
      PathIsDistinct(db, before);
      PathGrows(db, before, b);
      assert path == before + [b];
    }
  }

  /** Whatever lies on a path belongs to the unit of its base. */
  lemma PathInUnit(db: seq<Meta>, path: seq<Meta>, i: nat)
    requires IsPath(db, path) && i < |path|
    ensures InUnit(db, path[0].name, path[i].name)
  {
    assert LeadsTo(db, path[..i + 1], path[0].name, path[i].name);
  }

  function Members(s: seq<Meta>): set<Meta> {
    set b | b in s
  }

  lemma {:induction false} DistinctCount(path: seq<Meta>)
    requires Distinct(path)
    ensures |Members(path)| == |path|
    decreases |path|
  {
    if path != [] {
      var before, b := path[..|path| - 1], path[|path| - 1];
      assert path == before + [b];
      DistinctCount(before);
      assert Members(path) == Members(before) + {b};
      assert b !in Members(before);
    }
  }

  lemma {:induction false} MembersCount(s: seq<Meta>)
    ensures |Members(s)| <= |s|
    decreases |s|
  {
    if s != [] {
      var before, b := s[..|s| - 1], s[|s| - 1];
      assert s == before + [b];
      MembersCount(before);
      assert Members(s) == Members(before) + {b};
    }
  }

  lemma SubsetCount(a: set<Meta>, b: set<Meta>)
    requires a <= b
    ensures |a| <= |b|
  {
    assert b == a + (b - a);
  }

  lemma PathIsShort(db: seq<Meta>, path: seq<Meta>)
    requires IsPath(db, path) && Distinct(path)
    ensures |path| <= |db|
  {
    DistinctCount(path);
    MembersCount(db);
    assert forall b :: b in path ==> b in db;
    SubsetCount(Members(path), Members(db));
  }

  /** The increment to go on with: the last of a level that is done. */
  function LastDoneName(level: seq<Meta>): string {
    if level == [] then ""
    else if level[|level| - 1].status == Done then level[|level| - 1].name
    else LastDoneName(level[..|level| - 1])
  }

  /** The source that the increments of level `i` share. */
  function SourceOf(name: string, chain: seq<seq<Meta>>, i: nat): string
    requires i <= |chain|
  {
    if i == 0 then name else LastDoneName(chain[i - 1])
  }

  predicate IsLevel(db: seq<Meta>, source: string, level: seq<Meta>) {
    level == IncrementsOf(db, source) && level != []
  }

  predicate Levels(db: seq<Meta>, name: string, chain: seq<seq<Meta>>) {
    forall i :: 0 <= i < |chain| ==> IsLevel(db, SourceOf(name, chain, i), chain[i])
  }

  /** Level by level down from the backup called `name`, as far as it goes. */
  predicate IsFetched(db: seq<Meta>, name: string, chain: seq<seq<Meta>>) {
    Levels(db, name, chain) && IncrementsOf(db, SourceOf(name, chain, |chain|)) == []
  }

  function Flat(chain: seq<seq<Meta>>): seq<Meta> {
    if chain == [] then [] else Flat(chain[..|chain| - 1]) + chain[|chain| - 1]
  }

  ghost predicate AllInUnit(db: seq<Meta>, t: string, bs: seq<Meta>) {
    forall b :: b in bs ==> b in db && InUnit(db, t, b.name)
  }

  lemma AllInUnitConcat(db: seq<Meta>, t: string, a: seq<Meta>, b: seq<Meta>)
    requires AllInUnit(db, t, a) && AllInUnit(db, t, b)
    ensures AllInUnit(db, t, a + b)
  {
  }

  /** A way down from the base that meets no backup twice. */
  ghost predicate Walk(db: seq<Meta>, path: seq<Meta>, from: string, to: string) {
    LeadsTo(db, path, from, to) && Distinct(path)
  }

  /** The increments of one backup, and the one to go on with: the last that is done. */
  method NextLevel(db: seq<Meta>, from: string, name: string, ghost path: seq<Meta>)
    returns (increments: seq<Meta>, succ: string, ghost path': seq<Meta>)
    requires Proper(db) && Walk(db, path, from, name)
    ensures increments == IncrementsOf(db, name) && AllInUnit(db, from, increments)
    ensures succ == LastDoneName(increments)
    ensures succ == "" || (Walk(db, path', from, succ) && |path'| == |path| + 1)
    ensures |path| <= |db|
  {
    increments := IncrementsOf(db, name);
    succ, path' := "", path;
    PathIsShort(db, path);
    LevelInUnit(db, path, from, increments, name);
    var done := LastDone(increments);
    if done.Some? {
      IncrementsAre(db, name, done.value);
      PathGrows(db, path, done.value);
      path' := path + [done.value];
      succ := done.value.name;
    }
  }

  /** Level by level, following the last increment of each level that is done. The walk ends although
      it keeps no record of what it has met. */
  method FetchAllIncrements(db: seq<Meta>, base: Meta) returns (chain: seq<seq<Meta>>, err: bool)
    requires Proper(db) && base in db
    ensures err <==> base.src != ""
    ensures !err ==> IsFetched(db, base.name, chain) && AllInUnit(db, base.name, Flat(chain))
  {
    if base.src != "" {
      return [], true;
    }
    chain, err := [], false;
    var lastInc := base.name;
    ghost var path := [base];
    assert Walk(db, path, base.name, base.name);
    while lastInc != ""
      invariant AllInUnit(db, base.name, Flat(chain))
      invariant lastInc != "" ==> Walk(db, path, base.name, lastInc)
      invariant Levels(db, base.name, chain) && lastInc == SourceOf(base.name, chain, |chain|)
      decreases if lastInc == "" then 0 else 2 + |db| - |path|
    {
      var increments: seq<Meta>;
      var succ: string;
      ghost var path': seq<Meta>;
      increments, succ, path' := NextLevel(db, base.name, lastInc, path);
      if |increments| == 0 {
        break;
      }
      OneMoreLevel(db, base.name, chain, increments);
      chain := chain + [increments];
      if succ != "" {
        PathIsShort(db, path');
      }
      lastInc, path := succ, path';
    }
  }

  lemma OneMoreLevel(db: seq<Meta>, name: string, chain: seq<seq<Meta>>, level: seq<Meta>)
    requires Levels(db, name, chain) && level == IncrementsOf(db, SourceOf(name, chain, |chain|)) && level != []
    requires AllInUnit(db, name, Flat(chain)) && AllInUnit(db, name, level)
    ensures Levels(db, name, chain + [level]) && SourceOf(name, chain + [level], |chain| + 1) == LastDoneName(level)
    ensures AllInUnit(db, name, Flat(chain + [level]))
  {
    LevelsAppend(db, name, chain, level);
    FlatAppend(chain, level);
    AllInUnitConcat(db, name, Flat(chain), level);
  }

  lemma LevelsAppend(db: seq<Meta>, name: string, chain: seq<seq<Meta>>, level: seq<Meta>)
    requires Levels(db, name, chain) && level == IncrementsOf(db, SourceOf(name, chain, |chain|)) && level != []
    ensures Levels(db, name, chain + [level])
  {
    var longer := chain + [level];
    forall i | 0 <= i < |longer| ensures IsLevel(db, SourceOf(name, longer, i), longer[i]) {
      SameSource(name, chain, level, i);
    }
  }

  lemma SameSource(name: string, chain: seq<seq<Meta>>, level: seq<Meta>, i: nat)
    requires i <= |chain|
    ensures SourceOf(name, chain + [level], i) == SourceOf(name, chain, i)
    ensures (chain + [level])[i] == if i < |chain| then chain[i] else level
  {
  }

  lemma FlatAppend(chain: seq<seq<Meta>>, level: seq<Meta>)
    ensures Flat(chain + [level]) == Flat(chain) + level
  {
    assert (chain + [level])[..|chain|] == chain;
  }

  lemma LevelInUnit(db: seq<Meta>, path: seq<Meta>, from: string, increments: seq<Meta>, name: string)
    requires Proper(db) && Walk(db, path, from, name) && increments == IncrementsOf(db, name)
    ensures AllInUnit(db, from, increments)
  {
    forall b | b in increments ensures b in db && InUnit(db, from, b.name) {
      IncrementsAre(db, name, b);
      PathGrows(db, path, b);
      assert LeadsTo(db, path + [b], from, b.name);
    }
  }

  method LastDone(increments: seq<Meta>) returns (succ: Option<Meta>)
    ensures succ.Some? ==> succ.value in increments && succ.value.status == Done
    ensures LastDoneName(increments) == if succ.Some? then succ.value.name else ""
  {
    succ := None;
    for i := 0 to |increments|
      invariant succ.Some? ==> succ.value in increments && succ.value.status == Done
      invariant LastDoneName(increments[..i]) == if succ.Some? then succ.value.name else ""
    {
      assert increments[..i + 1][..i] == increments[..i];
      if increments[i].status == Done {
        succ := Some(increments[i]);
      }
    }
    assert increments[..|increments|] == increments;
  }

  /** What is fetched depends on the backups alone. */
  lemma FetchedOnce(db: seq<Meta>, name: string, a: seq<seq<Meta>>, b: seq<seq<Meta>>)
    requires IsFetched(db, name, a) && IsFetched(db, name, b)
    ensures a == b
  {
    var n := if |a| < |b| then |a| else |b|;
    SameLevels(db, name, a, b, n);
    assert SourceOf(name, a, n) == SourceOf(name, b, n);
  }

  lemma {:induction false} SameLevels(db: seq<Meta>, name: string, a: seq<seq<Meta>>, b: seq<seq<Meta>>, n: nat)
    requires Levels(db, name, a) && Levels(db, name, b) && n <= |a| && n <= |b|
    ensures forall i :: 0 <= i < n ==> a[i] == b[i]
    decreases n
  {
    if n > 0 {
      SameLevels(db, name, a, b, n - 1);
      assert SourceOf(name, a, n - 1) == SourceOf(name, b, n - 1);
    }
  }

  // --- what is fetched is the whole unit, when only the last done increment of a level goes on ---

  lemma {:induction false} InFlat(chain: seq<seq<Meta>>, b: Meta)
    ensures b in Flat(chain) <==> exists i :: 0 <= i < |chain| && b in chain[i]
    decreases |chain|
  {
    if chain != [] {
      var before := chain[..|chain| - 1];
      InFlat(before, b);
      if b in Flat(before) {
        var i :| 0 <= i < |before| && b in before[i];
        assert b in chain[i];
      }
      if i :| 0 <= i < |chain| && b in chain[i] && b !in chain[|chain| - 1] {
        assert b in before[i];
      }
    }
  }

  lemma {:induction false} LastDoneIn(level: seq<Meta>)
    ensures LastDoneName(level) != "" ==> exists b :: b in level && b.name == LastDoneName(level)
    decreases |level|
  {
    if level != [] {
      var before := level[..|level| - 1];
      LastDoneIn(before);
      if LastDoneName(before) != "" && level[|level| - 1].status != Done {
        var b :| b in before && b.name == LastDoneName(before);
        assert b in level;
      }
    }
  }

  /** In the unit of `t`, only the last done increment of a level has increments of its own. */
  ghost predicate OnlyLastGoesOn(db: seq<Meta>, t: string) {
    forall p, c :: p in db && c in db && InUnit(db, t, p.name) && p.src != "" && c.src == p.name ==>
      p.name == LastDoneName(IncrementsOf(db, p.src))
  }

  lemma {:induction false} PathIsFetched(db: seq<Meta>, base: Meta, chain: seq<seq<Meta>>, path: seq<Meta>, i: nat)
    requires Proper(db) && base in db && IsFetched(db, base.name, chain) && OnlyLastGoesOn(db, base.name)
    requires IsPath(db, path) && path[0].name == base.name && 0 < i < |path|
    ensures i <= |chain| && path[i] in chain[i - 1]
    decreases i
  {
    var p := path[i - 1];
    assert p in db && p.name != "";
    if i > 1 {
      PathIsFetched(db, base, chain, path, i - 1);
      PathInUnit(db, path, i - 1);
      LevelGoesOn(db, base, chain, p, path[i], i - 1);
    }
    BelowIsFetched(db, base.name, chain, path[i], i - 1);
  }

  lemma BelowIsFetched(db: seq<Meta>, name: string, chain: seq<seq<Meta>>, c: Meta, j: nat)
    requires IsFetched(db, name, chain) && j <= |chain|
    requires c in db && c.src == SourceOf(name, chain, j) != ""
    ensures j < |chain| && c in chain[j]
  {
    IncrementsAre(db, SourceOf(name, chain, j), c);
  }

  lemma LevelGoesOn(db: seq<Meta>, base: Meta, chain: seq<seq<Meta>>, p: Meta, c: Meta, j: nat)
    requires IsFetched(db, base.name, chain) && OnlyLastGoesOn(db, base.name) && 0 < j <= |chain|
    requires p in chain[j - 1] && p in db && InUnit(db, base.name, p.name) && c in db && c.src == p.name
    ensures p.name == SourceOf(base.name, chain, j)
  {
    IncrementsAre(db, SourceOf(base.name, chain, j - 1), p);
  }

  lemma UnitIsFetched(db: seq<Meta>, base: Meta, chain: seq<seq<Meta>>, b: Meta)
    requires Proper(db) && base in db && IsFetched(db, base.name, chain) && OnlyLastGoesOn(db, base.name)
    requires b in db && InUnit(db, base.name, b.name)
    ensures b in [base] + Flat(chain)
  {
    var path :| LeadsTo(db, path, base.name, b.name);
    SameName(db, path[|path| - 1], b);
    if |path| == 1 {
      SameName(db, base, b);
    } else {
      PathIsFetched(db, base, chain, path, |path| - 1);
      InFlat(chain, b);
    }
  }

  lemma FetchedGoesOn(db: seq<Meta>, base: Meta, chain: seq<seq<Meta>>, p: Meta, c: Meta)
    requires Proper(db) && base in db && base.src == "" && IsFetched(db, base.name, chain)
    requires p in db && p.src != "" && c in Flat(chain) && c.src == p.name
    ensures p.name == LastDoneName(IncrementsOf(db, p.src))
  {
    InFlat(chain, c);
    var j :| 0 <= j < |chain| && c in chain[j];
    IncrementsAre(db, SourceOf(base.name, chain, j), c);
    if j == 0 {
      SameName(db, p, base);
    } else {
      LastDoneIn(chain[j - 1]);
      var q :| q in chain[j - 1] && q.name == p.name;
      IncrementsAre(db, SourceOf(base.name, chain, j - 1), q);
      SameName(db, p, q);
    }
  }

  /** What is fetched for a base is its whole unit exactly if no other increment goes on. */
  lemma FetchedIsWholeUnit(db: seq<Meta>, base: Meta, chain: seq<seq<Meta>>)
    requires Proper(db) && base in db && base.src == "" && IsFetched(db, base.name, chain)
    ensures (forall b :: b in db && InUnit(db, base.name, b.name) ==> b in [base] + Flat(chain))
            <==> OnlyLastGoesOn(db, base.name)
  {
    if OnlyLastGoesOn(db, base.name) {
      forall b | b in db && InUnit(db, base.name, b.name) ensures b in [base] + Flat(chain) {
        UnitIsFetched(db, base, chain, b);
      }
    }
    if forall b :: b in db && InUnit(db, base.name, b.name) ==> b in [base] + Flat(chain) {
      forall p, c | p in db && c in db && InUnit(db, base.name, p.name) && p.src != "" && c.src == p.name
        ensures p.name == LastDoneName(IncrementsOf(db, p.src))
      {
        UnitGoesOn(db, base.name, p, c);
        assert c in [base] + Flat(chain);
        assert c != base;
        FetchedGoesOn(db, base, chain, p, c);
      }
    }
  }

  lemma UnitGoesOn(db: seq<Meta>, t: string, p: Meta, c: Meta)
    requires Proper(db) && p in db && c in db && c.src == p.name && InUnit(db, t, p.name)
    ensures InUnit(db, t, c.name) && c.src != ""
  {
    var path: seq<Meta> :| LeadsTo(db, path, t, p.name);
    assert LeadsTo(db, path + [c], t, c.name);
  }

  /** Two done increments of the same base, and an increment of the first of them: it is left behind. */
  lemma AnIncrementLeftBehind() returns (db: seq<Meta>, base: Meta, chain: seq<seq<Meta>>, b: Meta)
    ensures Proper(db) && base in db && base.src == "" && IsFetched(db, base.name, chain)
    ensures b in db && InUnit(db, base.name, b.name) && b !in [base] + Flat(chain)
  {
    var b0 := Meta("a", Incremental, Done, "", false, false, ZeroTS, 0);
    var b1 := Meta("b", Incremental, Done, "a", false, false, ZeroTS, 1);
    var b2 := Meta("c", Incremental, Done, "a", false, false, ZeroTS, 2);
    var b3 := Meta("d", Incremental, Done, "b", false, false, ZeroTS, 3);
    db, base, b, chain := [b0, b1, b2, b3], b0, b3, [[b1, b2]];
    TwoOfFour(b0, b1, b2, b3);
    if IncrementsOf(db, "c") != [] {
      IncrementsAre(db, "c", IncrementsOf(db, "c")[0]);
    }
    InFlat(chain, b3);
    assert LeadsTo(db, [b0, b1, b3], "a", "d");
    assert IsFetched(db, b0.name, chain);
  }

  lemma TwoOfFour(b0: Meta, b1: Meta, b2: Meta, b3: Meta)
    requires b0.src == "" && b1.src == b2.src == "a" && b3.src == "b"
    ensures IncrementsOf([b0, b1, b2, b3], "a") == [b1, b2]
  {
    var db := [b0, b1, b2, b3];
    assert db[..3] == [b0, b1, b2] && db[..3][..2] == [b0, b1] && db[..3][..2][..1] == [b0];
    assert IncrementsOf(db[..3][..2][..1], "a") == [];
    assert IncrementsOf(db[..3][..2], "a") == [b1];
    assert IncrementsOf(db[..3], "a") == [b1, b2];
  }

  // ---------------------------------------------------------------------------------------------
  // Deleting
  // ---------------------------------------------------------------------------------------------

  function Without(bs: seq<Meta>, gone: set<string>): seq<Meta> {
    if bs == [] then []
    else
      var before, b := Without(bs[..|bs| - 1], gone), bs[|bs| - 1];
      if b.name in gone then before else before + [b]
  }

  lemma {:induction false} WithoutKeeps(bs: seq<Meta>, gone: set<string>)
    requires Proper(bs)
    ensures forall b :: b in Without(bs, gone) <==> b in bs && b.name !in gone
    ensures Proper(Without(bs, gone))
    decreases |bs|
  {
    if bs != [] {
      var before := bs[..|bs| - 1];
      ProperPrefix(bs);
      WithoutKeeps(before, gone);
      assert bs == before + [bs[|bs| - 1]];
      var rest := Without(before, gone);
      assert forall i :: 0 <= i < |rest| ==> rest[i] in before;
    }
  }

  lemma {:induction false} WithoutTwice(bs: seq<Meta>, a: set<string>, b: set<string>)
    ensures Without(Without(bs, a), b) == Without(bs, a + b)
    decreases |bs|
  {
    if bs != [] {
      var x := bs[|bs| - 1];
      var rest := Without(bs[..|bs| - 1], a);
      WithoutTwice(bs[..|bs| - 1], a, b);
      if x.name !in a {
        assert (rest + [x])[..|rest|] == rest;
      }
    }
  }

  lemma {:induction false} WithoutNothing(bs: seq<Meta>)
    ensures Without(bs, {}) == bs
    decreases |bs|
  {
    if bs != [] {
      WithoutNothing(bs[..|bs| - 1]);
    }
  }

  lemma UnitInLarger(db: seq<Meta>, gone: set<string>, t: string, n: string)
    requires Proper(db) && InUnit(Without(db, gone), t, n)
    ensures InUnit(db, t, n)
  {
    WithoutKeeps(db, gone);
    var path :| LeadsTo(Without(db, gone), path, t, n);
    assert LeadsTo(db, path, t, n);
  }

  /** How far a deletion gets: a check refuses it, it fails after so many backups, or neither. */
  datatype Fault = Refused | FailsAfter(after: nat) | NoFault

  /** How many of the backups, counted from the front, a deletion leaves. */
  function Stays(all: seq<Meta>, fault: Fault): nat {
    match fault
    case Refused => |all|
    case FailsAfter(n) => if n >= |all| then 0 else |all| - n
    case NoFault => 0
  }

  /** Exactly what the deletion of a base takes away. */
  ghost predicate ChainGone(db: seq<Meta>, b: Meta, fault: Fault, gone: set<string>) {
    if IsRunning(b) || b.src != "" then gone == {}
    else
      exists chain :: IsFetched(db, b.name, chain) &&
        gone == TailNames([b] + Flat(chain), Stays([b] + Flat(chain), fault))
  }

  /** Exactly what the deletion of the backup with that name takes away. */
  ghost predicate BackupGone(db: seq<Meta>, name: string, fault: Fault, gone: set<string>) {
    && ((forall b :: b in db ==> b.name != name) ==> gone == {})
    && (forall b :: b in db && b.name == name ==>
          if b.kind == Incremental then ChainGone(db, b, fault, gone)
          else gone == if IsRunning(b) || Stays([b], fault) == 1 then {} else {name})
  }

  ghost predicate TakenWith(db: seq<Meta>, t: string, gone: set<string>) {
    forall n :: n in gone ==> InUnit(db, t, n)
  }

  /** The names from position `i` on. */
  function TailNames(all: seq<Meta>, i: nat): set<string>
    requires i <= |all|
    decreases |all| - i
  {
    if i == |all| then {} else TailNames(all, i + 1) + {all[i].name}
  }

  lemma {:induction false} TailNamesAre(all: seq<Meta>, i: nat, n: string)
    requires i <= |all|
    ensures n in TailNames(all, i) <==> exists j :: i <= j < |all| && all[j].name == n
    decreases |all| - i
  {
    if i < |all| {
      TailNamesAre(all, i + 1, n);
    }
  }

  /** From the last to the first, until a deletion fails. */
  method DeleteOneByOne(db0: seq<Meta>, all: seq<Meta>, fault: Fault) returns (db: seq<Meta>, ghost gone: set<string>)
    requires !fault.Refused?
    ensures db == Without(db0, gone) && gone == TailNames(all, Stays(all, fault))
  {
    db, gone := db0, {};
    WithoutNothing(db0);
    var left: nat := if fault.NoFault? then |all| else fault.after;
    ghost var all0 := left;
    var i: nat := |all|;
    while i > 0 && left > 0
      invariant i <= |all| && left == all0 - (|all| - i)
      invariant db == Without(db0, gone) && gone == TailNames(all, i)
      decreases i
    {
      i := i - 1;
      left := left - 1;
      WithoutTwice(db0, gone, {all[i].name});
      db := Without(db, {all[i].name});
      gone := gone + {all[i].name};
    }
  }

  method FindByName(db: seq<Meta>, name: string) returns (b: Option<Meta>)
    ensures b.Some? ==> b.value in db && b.value.name == name
    ensures b.None? ==> forall x :: x in db ==> x.name != name
  {
    for i := 0 to |db|
      invariant forall j :: 0 <= j < i ==> db[j].name != name
    {
      if db[i].name == name {
        return Some(db[i]);
      }
    }
    b := None;
  }

  lemma TailTakenWith(db: seq<Meta>, t: string, all: seq<Meta>, i: nat)
    requires i <= |all| && AllInUnit(db, t, all)
    ensures TakenWith(db, t, TailNames(all, i))
  {
    forall n | n in TailNames(all, i) ensures InUnit(db, t, n) {
      TailNamesAre(all, i, n);
      var j :| i <= j < |all| && all[j].name == n;
      assert all[j] in all;
    }
  }

  lemma BaseInOwnUnit(db: seq<Meta>, b: Meta)
    requires Proper(db) && b in db && b.src == ""
    ensures AllInUnit(db, b.name, [b])
  {
    assert LeadsTo(db, [b], b.name, b.name);
  }

  /** A base and all its increments, the increments first. */
  method DeleteIncrementalChain(db0: seq<Meta>, b: Meta, fault: Fault) returns (db: seq<Meta>, ghost gone: set<string>)
    requires Proper(db0) && b in db0
    ensures db == Without(db0, gone) && ChainGone(db0, b, fault, gone)
    ensures TakenWith(db0, b.name, gone)
  {
    db, gone := db0, {};
    WithoutNothing(db0);
    var increments, err := FetchAllIncrements(db0, b);
    if err {
      return;
    }
    var all := [b] + Flat(increments);
    if IsRunning(b) || fault.Refused? {
      assert gone == TailNames(all, |all|);
      return;
    }
    BaseInOwnUnit(db0, b);
    AllInUnitConcat(db0, b.name, [b], Flat(increments));
    TailTakenWith(db0, b.name, all, Stays(all, fault));
    db, gone := DeleteOneByOne(db0, all, fault);
  }

  method DeleteSingleBackup(db0: seq<Meta>, b: Meta, fault: Fault) returns (db: seq<Meta>, ghost gone: set<string>)
    requires Proper(db0) && b in db0 && b.kind != Incremental
    ensures db == Without(db0, gone) && gone == (if IsRunning(b) || Stays([b], fault) == 1 then {} else {b.name})
    ensures TakenWith(db0, b.name, gone)
  {
    db, gone := db0, {};
    WithoutNothing(db0);
    if IsRunning(b) || fault.Refused? {
      return;
    }
    if fault == FailsAfter(0) {
      return;
    }
    BaseInOwnUnit(db0, b);
    db, gone := Without(db0, {b.name}), {b.name};
  }

  method DeleteBackup(db0: seq<Meta>, name: string, fault: Fault) returns (db: seq<Meta>, ghost gone: set<string>)
    requires Proper(db0)
    ensures db == Without(db0, gone) && BackupGone(db0, name, fault, gone)
    ensures TakenWith(db0, name, gone)
  {
    db, gone := db0, {};
    var bcp := FindByName(db0, name);
    if bcp.None? {
      WithoutNothing(db0);
      return;
    }
    forall x | x in db0 && x.name == name ensures x == bcp.value {
      SameName(db0, x, bcp.value);
    }
    if bcp.value.kind == Incremental {
      db, gone := DeleteIncrementalChain(db0, bcp.value, fault);
    } else {
      db, gone := DeleteSingleBackup(db0, bcp.value, fault);
    }
  }

  // --- a deletion that does not fail takes the whole unit, whatever went before it ---------------

  /** Nothing stands against the deletion of all of `t`. */
  ghost predicate CanGoWhole(db: seq<Meta>, t: string) {
    exists b :: b in db && b.name == t && b.src == "" && !IsRunning(b) &&
      if b.kind == Incremental then OnlyLastGoesOn(db, t) else IncrementsOf(db, t) == []
  }

  lemma WholeUnitGone(db: seq<Meta>, t: string, gone: set<string>, n: string)
    requires Proper(db) && CanGoWhole(db, t) && BackupGone(db, t, NoFault, gone) && InUnit(db, t, n)
    ensures n in gone
  {
    var b :| b in db && b.name == t && b.src == "" && !IsRunning(b) &&
      if b.kind == Incremental then OnlyLastGoesOn(db, t) else IncrementsOf(db, t) == [];
    var path: seq<Meta> :| LeadsTo(db, path, t, n);
    assert t != "";
    if b.kind == Incremental {
      var chain :| IsFetched(db, b.name, chain) && gone == TailNames([b] + Flat(chain), 0);
      UnitIsFetched(db, b, chain, path[|path| - 1]);
      TailNamesAre([b] + Flat(chain), 0, n);
    } else if |path| > 1 {
      IncrementsAre(db, t, path[1]);
    }
  }

  lemma {:induction false} OneRoot(db: seq<Meta>, p: seq<Meta>, q: seq<Meta>)
    requires Proper(db) && IsPath(db, p) && IsPath(db, q) && p[|p| - 1] == q[|q| - 1]
    ensures p[0] == q[0]
    decreases |p|
  {
    LowerEndHasSource(db, p);
    LowerEndHasSource(db, q);
    if |p| > 1 {
      var p', q' := p[..|p| - 1], q[..|q| - 1];
      SameName(db, p'[|p'| - 1], q'[|q'| - 1]);
      OneRoot(db, p', q');
    }
  }

  /** No backup belongs to two units. */
  lemma UnitsAreDisjoint(db: seq<Meta>, t: string, u: string, n: string)
    requires Proper(db) && InUnit(db, t, n) && InUnit(db, u, n)
    ensures t == u
  {
    var p :| LeadsTo(db, p, t, n);
    var q :| LeadsTo(db, q, u, n);
    SameName(db, p[|p| - 1], q[|q| - 1]);
    OneRoot(db, p, q);
  }

  lemma {:induction false} SameIncrements(db: seq<Meta>, gone: set<string>, name: string)
    requires forall b :: b in IncrementsOf(db, name) ==> b.name !in gone
    ensures IncrementsOf(Without(db, gone), name) == IncrementsOf(db, name)
    decreases |db|
  {
    if db != [] && name != "" {
      var before, b := db[..|db| - 1], db[|db| - 1];
      SameIncrements(before, gone, name);
      var rest := Without(before, gone);
      assert (rest + [b])[..|rest|] == rest;
      if b.src == name {
        assert b in IncrementsOf(db, name);
      }
    }
  }

  ghost predicate Untouched(db: seq<Meta>, gone: set<string>, t: string) {
    forall n :: n in gone ==> !InUnit(db, t, n)
  }

  lemma UnitStays(db: seq<Meta>, gone: set<string>, t: string, n: string)
    requires Proper(db) && Untouched(db, gone, t) && InUnit(db, t, n)
    ensures InUnit(Without(db, gone), t, n)
  {
    WithoutKeeps(db, gone);
    var path: seq<Meta> :| LeadsTo(db, path, t, n);
    forall i | 0 <= i < |path| ensures path[i] in Without(db, gone) {
      PathInUnit(db, path, i);
    }
    assert LeadsTo(Without(db, gone), path, t, n);
  }

  lemma SiblingsStay(db: seq<Meta>, gone: set<string>, t: string, p: Meta)
    requires Proper(db) && Untouched(db, gone, t) && p in db && p.src != "" && InUnit(db, t, p.name)
    ensures IncrementsOf(Without(db, gone), p.src) == IncrementsOf(db, p.src)
  {
    var path: seq<Meta> :| LeadsTo(db, path, t, p.name);
    SameName(db, path[|path| - 1], p);
    var up := path[|path| - 2];
    PathInUnit(db, path, |path| - 2);
    forall s | s in IncrementsOf(db, p.src) ensures s.name !in gone {
      IncrementsAre(db, p.src, s);
      UnitGoesOn(db, t, up, s);
    }
    SameIncrements(db, gone, p.src);
  }

  /** What takes nothing of a unit does not stand in the way of deleting it. */
  lemma CanStillGoWhole(db: seq<Meta>, gone: set<string>, t: string)
    requires Proper(db) && Untouched(db, gone, t) && CanGoWhole(db, t)
    ensures CanGoWhole(Without(db, gone), t)
  {
    var rest := Without(db, gone);
    WithoutKeeps(db, gone);
    var b :| b in db && b.name == t && b.src == "" && !IsRunning(b) &&
      if b.kind == Incremental then OnlyLastGoesOn(db, t) else IncrementsOf(db, t) == [];
    BaseInOwnUnit(db, b);
    assert b in rest;
    if b.kind == Incremental {
      forall p, c | p in rest && c in rest && InUnit(rest, t, p.name) && p.src != "" && c.src == p.name
        ensures p.name == LastDoneName(IncrementsOf(rest, p.src))
      {
        UnitInLarger(db, gone, t, p.name);
        SiblingsStay(db, gone, t, p);
      }
    } else {
      SameIncrements(db, gone, t);
    }
  }

  predicate DistinctTargets(targets: seq<string>) {
    forall i, j :: 0 <= i < j < |targets| ==> targets[i] != targets[j]
  }

  /** From target `i` on, whatever could go whole and met no fault is gone. */
  ghost predicate Completed(db: seq<Meta>, targets: seq<string>, faults: seq<Fault>, i: nat, gone: set<string>)
    requires |faults| == |targets|
  {
    forall k, n ::
      i <= k < |targets| && faults[k].NoFault? && CanGoWhole(db, targets[k]) && InUnit(db, targets[k], n) ==>
        n in gone
  }

  lemma OtherTargetsUntouched(db: seq<Meta>, targets: seq<string>, i: nat, gone: set<string>)
    requires Proper(db) && DistinctTargets(targets) && i < |targets| && TakenWithAny(db, targets[i + 1..], gone)
    ensures Untouched(db, gone, targets[i])
  {
    forall n | n in gone ensures !InUnit(db, targets[i], n) {
      var u :| u in targets[i + 1..] && InUnit(db, u, n);
      var k :| 0 <= k < |targets[i + 1..]| && targets[i + 1..][k] == u;
      assert u == targets[i + 1 + k] != targets[i];
      if InUnit(db, targets[i], n) {
        UnitsAreDisjoint(db, targets[i], u, n);
      }
    }
  }

  lemma OneMoreCompleted(
    db: seq<Meta>, targets: seq<string>, faults: seq<Fault>, i: nat, gone: set<string>, more: set<string>)
    requires Proper(db) && |faults| == |targets| && DistinctTargets(targets) && i < |targets|
    requires TakenWithAny(db, targets[i + 1..], gone) && Completed(db, targets, faults, i + 1, gone)
    requires BackupGone(Without(db, gone), targets[i], faults[i], more)
    ensures Completed(db, targets, faults, i, gone + more)
  {
    var t := targets[i];
    if faults[i].NoFault? && CanGoWhole(db, t) {
      OtherTargetsUntouched(db, targets, i, gone);
      WithoutKeeps(db, gone);
      CanStillGoWhole(db, gone, t);
      forall n | InUnit(db, t, n) ensures n in more {
        UnitStays(db, gone, t, n);
        WholeUnitGone(Without(db, gone), t, more, n);
      }
    }
  }

  /** The targets are deleted from the last to the first, whatever becomes of the ones before. */
  method DeleteTargets(db0: seq<Meta>, targets: seq<string>, faults: seq<Fault>)
    returns (db: seq<Meta>, ghost gone: set<string>)
    requires Proper(db0) && |faults| == |targets|
    ensures db == Without(db0, gone) && TakenWithAny(db0, targets, gone)
    ensures DistinctTargets(targets) ==> Completed(db0, targets, faults, 0, gone)
  {
    db, gone := db0, {};
    WithoutNothing(db0);
    var i: nat := |targets|;
    WithoutKeeps(db0, gone);
    while i > 0
      invariant i <= |targets| && DoneFrom(db0, targets, faults, i, db, gone)
    {
      i := i - 1;
      ghost var more: set<string>;
      var next: seq<Meta>;
      next, more := DeleteBackup(db, targets[i], faults[i]);
      OneMoreTarget(db0, targets, faults, i, db, gone, next, more);
      db := next;
      gone := gone + more;
    }
    assert targets[0..] == targets;
  }

  ghost predicate DoneFrom(
    db0: seq<Meta>, targets: seq<string>, faults: seq<Fault>, i: nat, db: seq<Meta>, gone: set<string>)
    requires |faults| == |targets| && i <= |targets|
  {
    && db == Without(db0, gone) && Proper(db) && TakenWithAny(db0, targets[i..], gone)
    && (DistinctTargets(targets) ==> Completed(db0, targets, faults, i, gone))
  }

  lemma OneMoreTarget(
    db0: seq<Meta>, targets: seq<string>, faults: seq<Fault>, i: nat, db: seq<Meta>, gone: set<string>,
    next: seq<Meta>, more: set<string>)
    requires Proper(db0) && |faults| == |targets| && i < |targets| && DoneFrom(db0, targets, faults, i + 1, db, gone)
    requires next == Without(db, more) && BackupGone(db, targets[i], faults[i], more) && TakenWith(db, targets[i], more)
    ensures DoneFrom(db0, targets, faults, i, next, gone + more)
  {
    WithoutTwice(db0, gone, more);
    WithoutKeeps(db0, gone + more);
    if DistinctTargets(targets) {
      OneMoreCompleted(db0, targets, faults, i, gone, more);
    }
    MoreTargetsTaken(db0, targets, i, gone);
    MoreTaken(db0, targets[i..], gone, more, targets[i]);
  }

  lemma MoreTargetsTaken(db: seq<Meta>, targets: seq<string>, i: nat, gone: set<string>)
    requires i < |targets| && TakenWithAny(db, targets[i + 1..], gone)
    ensures targets[i] in targets[i..] && TakenWithAny(db, targets[i..], gone)
  {
    assert targets[i..] == [targets[i]] + targets[i + 1..];
  }

  ghost predicate TakenWithAny(db: seq<Meta>, targets: seq<string>, gone: set<string>) {
    forall n :: n in gone ==> exists t :: t in targets && InUnit(db, t, n)
  }

  lemma MoreTaken(db: seq<Meta>, targets: seq<string>, gone: set<string>, more: set<string>, t: string)
    requires Proper(db) && TakenWithAny(db, targets, gone) && TakenWith(Without(db, gone), t, more) && t in targets
    ensures TakenWithAny(db, targets, gone + more)
  {
    forall n | n in gone + more ensures exists u :: u in targets && InUnit(db, u, n) {
      if n in more {
        UnitInLarger(db, gone, t, n);
      }
    }
  }

  // ---------------------------------------------------------------------------------------------
  // Enough restore points stay
  // ---------------------------------------------------------------------------------------------

  /** Going down from `path[0]` and up from its last backup meets the same backups. */
  lemma {:induction false} PathStartsAtBase(bs: seq<Meta>, db: seq<Meta>, path: seq<Meta>, b: Meta)
    requires Proper(bs) && Proper(db) && (forall x :: x in bs ==> x in db)
    requires IsPath(db, path) && path[|path| - 1] == b
    requires b in bs && b.kind == Incremental && BaseOf(bs, b).Some?
    ensures BaseOf(bs, b) == Some(path[0])
    decreases |path|
  {
    ByNameFinds(bs);
    if |path| > 1 {
      var before := path[..|path| - 1];
      var parent := before[|before| - 1];
      assert parent.name != "" by { assert parent in db; }
      ParentHasSameBase(b, ByName(bs));
      SameName(db, ByName(bs)[b.src], parent);
      PathStartsAtBase(bs, db, before, parent);
    }
  }

  /** No member of a chain whose base is kept is taken. */
  lemma ChainIsSafe(
    bs: seq<Meta>, db: seq<Meta>, kept: set<string>, targets: seq<string>, gone: set<string>, b: Meta, base: Meta)
    requires Proper(bs) && Proper(db) && (forall x :: x in bs ==> x in db)
    requires TakenWithAny(db, targets, gone) && (forall t :: t in targets ==> t in TargetList(bs, kept))
    requires InChain(bs, b, base) && base in bs && base.name in kept
    ensures b.name !in gone
  {
    if b.name in gone {
      var t :| t in targets && InUnit(db, t, b.name);
      var path :| LeadsTo(db, path, t, b.name);
      SameName(db, path[|path| - 1], b);
      PathStartsAtBase(bs, db, path, b);
      ListsHold(bs, kept, base);
      assert false;
    }
  }

  lemma {:induction false} CompleteSurvives(
    b: Meta, byName: map<string, Meta>, byName': map<string, Meta>, seen: set<string>, base: Meta)
    requires Indexes(byName) && Indexes(byName') && b.name in byName && b.name in byName'
    requires IsComplete(b, byName, seen) && FindBase(b, byName, {}) == Some(base)
    requires forall n :: n in byName && FindBase(byName[n], byName, {}) == Some(base) ==>
      n in byName' && byName'[n] == byName[n]
    ensures IsComplete(b, byName', seen)
    decreases byName.Keys - seen
  {
    if b.src != "" {
      ParentHasSameBase(b, byName);
      assert b.name in byName.Keys - seen && b.name !in byName.Keys - (seen + {b.name});
      CompleteSurvives(byName[b.src], byName, byName', seen + {b.name}, base);
    }
  }

  /** A kept restore point survives with its whole ancestry, so it is still a restore point. */
  lemma RestorePointSurvives(
    bs: seq<Meta>, db: seq<Meta>, kept: set<string>, targets: seq<string>, gone: set<string>, b: Meta)
    requires Proper(bs) && Proper(db) && (forall x :: x in bs ==> x in db) && ChainsWhole(bs, kept)
    requires TakenWithAny(db, targets, gone) && (forall t :: t in targets ==> t in TargetList(bs, kept))
    requires b in bs && b.name in kept && IsPoint(bs, b)
    ensures b in Without(bs, gone) && Proper(Without(bs, gone)) && IsPoint(Without(bs, gone), b)
  {
    WithoutKeeps(bs, gone);
    ByNameFinds(bs);
    ByNameFinds(Without(bs, gone));
    PointIs(bs, b);
    if b.kind == Incremental {
      var byName, byName' := ByName(bs), ByName(Without(bs, gone));
      CompleteHasBase(b, byName, {});
      BaseIsBase(b, byName, {});
      var base := BaseOf(bs, b).value;
      BaseIsDone(b, byName, {});
      assert InChain(bs, base, base);
      ChainsShareFate(bs, kept, b, base, base);
      forall n | n in byName && FindBase(byName[n], byName, {}) == Some(base)
        ensures n in byName' && byName'[n] == byName[n]
      {
        ChainIsSafe(bs, db, kept, targets, gone, byName[n], base);
      }
      CompleteSurvives(b, byName, byName', {}, base);
      PointIs(Without(bs, gone), b);
    } else if b.name in gone {
      var t :| t in targets && InUnit(db, t, b.name);
      var path :| LeadsTo(db, path, t, b.name);
      SameName(db, path[|path| - 1], b);
      LowerEndHasSource(db, path);
      ListsHold(bs, kept, b);
      assert false;
    }
  }

  lemma LowerEndHasSource(db: seq<Meta>, path: seq<Meta>)
    requires Proper(db) && IsPath(db, path)
    ensures |path| > 1 ==> path[|path| - 1].src != ""
  {
    if |path| > 1 {
      assert path[|path| - 2] in db;
    }
  }

  lemma {:induction false} BaseIsDone(b: Meta, byName: map<string, Meta>, seen: set<string>)
    requires Indexes(byName) && b.name in byName && b.name != "" && "" !in byName && IsComplete(b, byName, seen)
    ensures FindBase(b, byName, seen).Some? && FindBase(b, byName, seen).value.status == Done
    decreases byName.Keys - seen
  {
    if b.src != "" {
      assert b.name in byName.Keys - seen && b.name !in byName.Keys - (seen + {b.name});
      BaseIsDone(byName[b.src], byName, seen + {b.name});
    }
  }

  /** The restore points that a list of backups offers. */
  ghost function Points(bs: seq<Meta>): set<Meta> {
    set b | b in bs && IsPoint(bs, b)
  }

  /** However many deletions fail, and wherever: at least as many restore points stay as the report
      counted. */
  lemma CountSurvives(bs: seq<Meta>, db: seq<Meta>, kept: set<string>, targets: seq<string>, gone: set<string>)
    requires Proper(bs) && Proper(db) && (forall x :: x in bs ==> x in db) && ChainsWhole(bs, kept)
    requires TakenWithAny(db, targets, gone) && (forall t :: t in targets ==> t in TargetList(bs, kept))
    ensures Proper(Without(bs, gone)) && |Points(Without(bs, gone))| >= CountKept(bs, kept, |bs|)
  {
    WithoutKeeps(bs, gone);
    CountKeptIs(bs, kept, |bs|);
    forall b | b in KeptPoints(bs, kept, |bs|) ensures b in Points(Without(bs, gone)) {
      RestorePointSurvives(bs, db, kept, targets, gone, b);
    }
    SubsetCount(KeptPoints(bs, kept, |bs|), Points(Without(bs, gone)));
  }

  lemma {:induction false} TargetsAreDistinct(bs: seq<Meta>, kept: set<string>)
    requires Proper(bs)
    ensures DistinctTargets(TargetList(bs, kept))
    decreases |bs|
  {
    if bs != [] {
      var before, b := bs[..|bs| - 1], bs[|bs| - 1];
      ProperPrefix(bs);
      TargetsAreDistinct(before, kept);
      if b.name in TargetList(before, kept) {
        ListsAreNames(before, kept, b.name);
      }
    }
  }

  lemma SameTargets(bs: seq<Meta>, kept: set<string>, targets: seq<string>)
    requires Proper(bs) && multiset(targets) == multiset(TargetList(bs, kept))
    ensures DistinctTargets(targets) && |targets| == |TargetList(bs, kept)|
    ensures forall t :: t in targets <==> t in TargetList(bs, kept)
  {
    var list := TargetList(bs, kept);
    TargetsAreDistinct(bs, kept);
    SameMembers(targets, list);
    OnceEach(list);
    forall i, j | 0 <= i < j < |targets| ensures targets[i] != targets[j] {
      if targets[i] == targets[j] {
        assert targets[i] in list;
        TwiceCounted(targets, i, j);
      }
    }
  }

  lemma {:induction false} OnceEach(targets: seq<string>)
    requires DistinctTargets(targets)
    ensures forall t :: t in targets ==> multiset(targets)[t] == 1
    decreases |targets|
  {
    if targets != [] {
      var before := targets[..|targets| - 1];
      assert targets == before + [targets[|targets| - 1]];
      OnceEach(before);
    }
  }

  lemma TwiceCounted(targets: seq<string>, i: nat, j: nat)
    requires i < j < |targets| && targets[i] == targets[j]
    ensures multiset(targets)[targets[i]] > 1
  {
    assert targets == targets[..i] + [targets[i]] + targets[i + 1..];
    assert targets[j] in targets[i + 1..];
    assert multiset(targets) == multiset(targets[..i]) + multiset{targets[i]} + multiset(targets[i + 1..]);
  }

  /** The clean-up of the agent: guard, order, then delete, oldest unit first. Unless nothing at all is
      deleted, `minKeep` restore points stay among the backups the policy looked at; and what the report
      wants gone is gone, but for the deletions that fail. */
  method CleanupLifecycle(report: Report, bs: seq<Meta>, db0: seq<Meta>, faults: seq<Fault>)
    returns (db: seq<Meta>, ghost gone: set<string>)
    requires Proper(bs) && Proper(db0) && (forall b :: b in bs ==> b in db0)
    requires report.Settled(bs) && |faults| == |report.deleteTargets|
    modifies report`aborted, report`deleteTargets
    ensures db == Without(db0, gone)
    ensures !report.enabled || report.aborted ==> gone == {}
    ensures report.enabled && !report.aborted ==>
      && multiset(report.deleteTargets) == multiset(old(report.deleteTargets)) && NewestFirst(bs, report.deleteTargets)
      && |report.deleteTargets| == |faults| && Completed(db0, report.deleteTargets, faults, 0, gone)
    ensures Proper(Without(bs, gone))
    ensures gone != {} && 0 < report.minKeep ==> |Points(Without(bs, gone))| >= report.minKeep
  {
    db, gone := db0, {};
    WithoutNothing(db0);
    WithoutKeeps(bs, {});
    ghost var kept := KeptNames(report.keepReasons);
    report.ApplyMinKeepGuard(bs);
    SortDeleteTargets(report, bs);
    if !report.enabled {
      return;
    }
    if report.aborted {
      return;
    }
    SameTargets(bs, kept, report.deleteTargets);
    if |report.deleteTargets| == 0 {
      return;
    }
    db, gone := DeleteTargets(db0, report.deleteTargets, faults);
    CountSurvives(bs, db0, kept, report.deleteTargets, gone);
  }
}
