/** What may be deleted before a point in time (pbm/backup/delete.go): backups and oplog chunks, except
    what later increments and a restore to that point still need. All backups here are on one storage. */
module Cleanup {
  import opened Options
  import opened Timestamps
  import opened Backups
  import T = Timelines

  // ---------------------------------------------------------------------------------------------
  // History
  // ---------------------------------------------------------------------------------------------

  predicate IsDoneIncrement(b: Meta) {
    b.kind == Incremental && b.status == Done
  }

  /** `db[j]` is the last done increment before position `i`. */
  predicate PrevDone(db: seq<Meta>, j: int, i: int) {
    0 <= j < i <= |db| && IsDoneIncrement(db[j]) && forall k :: j < k < i ==> !IsDoneIncrement(db[k])
  }

  /** How backups come about on one storage, oldest first: each increment builds on the last one that
      was done, or starts anew. */
  ghost predicate LinearHistory(db: seq<Meta>) {
    && Proper(db)
    && (forall i, j :: 0 <= i < j < |db| && !IsRunning(db[i]) && !IsRunning(db[j]) ==>
          AtMost(db[i].lastWriteTS, db[j].lastWriteTS))
    && (forall i :: 0 <= i < |db| && db[i].kind == Incremental ==> !db[i].selective)
    && (forall i :: 0 <= i < |db| && IsDoneIncrement(db[i]) && db[i].src != "" ==>
          exists j :: PrevDone(db, j, i) && db[j].name == db[i].src)
    && (forall i :: 0 <= i < |db| && db[i].kind == Incremental && IsRunning(db[i]) && db[i].src != "" ==>
          exists j :: PrevDone(db, j, |db|) && db[j].name == db[i].src)
  }

  /** An increment that is good for nothing without its source. */
  predicate Depends(s: Meta) {
    s.kind == Incremental && (s.status == Done || IsRunning(s)) && s.src != ""
  }

  /** No increment that stays, done or running, loses its source. */
  ghost predicate Closed(db: seq<Meta>, deleted: seq<Meta>) {
    forall s, p :: s in db && s !in deleted && Depends(s) && p in db && p.name == s.src ==> p !in deleted
  }

  /** From an ancestor down to a backup. */
  ghost predicate IsLineage(db: seq<Meta>, path: seq<Meta>) {
    && path != []
    && (forall i :: 0 <= i < |path| ==> path[i] in db)
    && (forall i :: 0 < i < |path| ==> path[i].src == path[i - 1].name)
  }

  /** Closure reaches all ancestors, not just the source. */
  lemma {:induction false} AncestorsStay(db: seq<Meta>, deleted: seq<Meta>, path: seq<Meta>)
    requires LinearHistory(db) && Closed(db, deleted) && IsLineage(db, path)
    requires var s := path[|path| - 1]; s !in deleted && s.kind == Incremental && (s.status == Done || IsRunning(s))
    ensures forall a :: a in path ==> a !in deleted
    decreases |path|
  {
    var n := |path| - 1;
    if n == 0 {
      assert path == [path[0]];
    } else {
      var s, p := path[n], path[n - 1];
      assert p in db && p.name != "";
      SourceIsDone(db, s, p);
      assert path == path[..n] + [s];
      AncestorsStay(db, deleted, path[..n]);
    }
  }

  lemma SourceIsDone(db: seq<Meta>, s: Meta, p: Meta)
    requires LinearHistory(db) && s in db && s.kind == Incremental && (s.status == Done || IsRunning(s))
    requires p in db && p.name == s.src != ""
    ensures IsDoneIncrement(p)
  {
    var i :| 0 <= i < |db| && db[i] == s;
    var j :| PrevDone(db, j, if s.status == Done then i else |db|) && db[j].name == s.src;
    SameName(db, db[j], p);
  }

  // ---------------------------------------------------------------------------------------------
  // Taking a chain out of a list, in place
  // ---------------------------------------------------------------------------------------------

  function RemoveChain(s: seq<Meta>, i: int, base: string): seq<Meta>
    requires -1 <= i < |s|
    decreases i + 1
  {
    if i == -1 then s
    else if s[i].status != Done || s[i].name != base then RemoveChain(s, i - 1, base)
    else
      var rest := s[..i] + s[i + 1..];
      if s[i].src == "" then rest else RemoveChain(rest, i - 1, s[i].src)
  }

  lemma RemoveStep(s: seq<Meta>, i: nat, base: string)
    requires i < |s|
    ensures RemoveChain(s, i, base) ==
      if s[i].status != Done || s[i].name != base then RemoveChain(s, i - 1, base)
      else if s[i].src == "" then s[..i] + s[i + 1..]
      else RemoveChain(s[..i] + s[i + 1..], i - 1, s[i].src)
  {
  }

  method RemoveAt(a: array<Meta>, n: nat, i: nat)
    requires i < n <= a.Length
    modifies a
    ensures a[..n - 1] == old(a[..n])[..i] + old(a[..n])[i + 1..]
  {
    ghost var s := a[..n];
    for k := i to n - 1
      invariant forall j :: i <= j < k ==> a[j] == s[j + 1]
      invariant forall j :: 0 <= j < i ==> a[j] == s[j]
      invariant forall j :: k <= j < n ==> a[j] == s[j]
    {
      a[k] := a[k + 1];
    }
    assert a[..n - 1] == s[..i] + s[i + 1..];
  }

  method ExtractIncrementalChain(a: array<Meta>, n: nat, i0: nat) returns (m: nat)
    requires i0 < n <= a.Length
    modifies a
    ensures m <= n && a[..m] == RemoveChain(old(a[..n]), i0, old(a[i0]).name)
  {
    m := n;
    var i: int := i0;
    var base := a[i].name;
    ghost var result := RemoveChain(a[..n], i0, base);
    while i != -1
      invariant -1 <= i < m <= n
      invariant RemoveChain(a[..m], i, base) == result
      decreases i
    {
      RemoveStep(a[..m], i, base);
      assert a[..m][i] == a[i];
      if a[i].status != Done {
        i := i - 1;
        continue;
      }
      if a[i].name != base {
        i := i - 1;
        continue;
      }
      base := a[i].src;
      RemoveAt(a, m, i);
      m := m - 1;
      if base == "" {
        return;
      }
      i := i - 1;
    }
  }

  /** The members of the chain, found from position `i` downwards. */
  function ChainIn(s: seq<Meta>, i: int, base: string): set<Meta>
    requires -1 <= i < |s|
    decreases i + 1
  {
    if i == -1 then {}
    else if s[i].status != Done || s[i].name != base then ChainIn(s, i - 1, base)
    else if s[i].src == "" then {s[i]}
    else {s[i]} + ChainIn(s, i - 1, s[i].src)
  }

  function Minus(s: seq<Meta>, gone: set<Meta>): seq<Meta> {
    if s == [] then []
    else
      var before := Minus(s[..|s| - 1], gone);
      if s[|s| - 1] in gone then before else before + [s[|s| - 1]]
  }

  lemma {:induction false} MinusMembers(s: seq<Meta>, gone: set<Meta>)
    ensures forall x :: x in Minus(s, gone) <==> x in s && x !in gone
    decreases |s|
  {
    if s != [] {
      MinusMembers(s[..|s| - 1], gone);
      assert s == s[..|s| - 1] + [s[|s| - 1]];
    }
  }

  lemma {:induction false} MinusConcat(a: seq<Meta>, b: seq<Meta>, gone: set<Meta>)
    ensures Minus(a + b, gone) == Minus(a, gone) + Minus(b, gone)
    decreases |b|
  {
    if b == [] {
      assert a + b == a;
    } else {
      assert (a + b)[..|a + b| - 1] == a + b[..|b| - 1];
      MinusConcat(a, b[..|b| - 1], gone);
    }
  }

  lemma {:induction false} MinusNothing(s: seq<Meta>, gone: set<Meta>)
    requires forall x :: x in s ==> x !in gone
    ensures Minus(s, gone) == s
    decreases |s|
  {
    if s != [] {
      assert s == s[..|s| - 1] + [s[|s| - 1]];
      MinusNothing(s[..|s| - 1], gone);
    }
  }

  lemma {:induction false} MinusMore(s: seq<Meta>, x: Meta, gone: set<Meta>)
    requires x !in s
    ensures Minus(s, gone + {x}) == Minus(s, gone)
    decreases |s|
  {
    if s != [] {
      assert s == s[..|s| - 1] + [s[|s| - 1]];
      MinusMore(s[..|s| - 1], x, gone);
    }
  }

  predicate NoRepeats(s: seq<Meta>) {
    forall i, j :: 0 <= i < j < |s| ==> s[i].name != s[j].name
  }

  lemma {:induction false} ChainInLower(s: seq<Meta>, t: seq<Meta>, i: int, base: string)
    requires -1 <= i < |s| && i < |t| && s[..i + 1] == t[..i + 1]
    ensures ChainIn(s, i, base) == ChainIn(t, i, base)
    decreases i + 1
  {
    if i >= 0 {
      assert s[i] == s[..i + 1][i] == t[i];
      assert s[..i] == s[..i + 1][..i] == t[..i];
      ChainInLower(s, t, i - 1, base);
      ChainInLower(s, t, i - 1, s[i].src);
    }
  }

  lemma {:induction false} ChainInMembers(s: seq<Meta>, i: int, base: string)
    requires -1 <= i < |s|
    ensures forall x :: x in ChainIn(s, i, base) ==> x in s[..i + 1] && x in s && x.status == Done
    decreases i + 1
  {
    if i >= 0 {
      assert s[..i + 1] == s[..i] + [s[i]];
      ChainInMembers(s, i - 1, base);
      ChainInMembers(s, i - 1, s[i].src);
    }
  }

  lemma MinusOne(s: seq<Meta>, i: nat, gone: set<Meta>)
    requires NoRepeats(s) && i < |s|
    ensures Minus(s, {s[i]} + gone) == Minus(s[..i] + s[i + 1..], gone)
  {
    var a, b := s[..i], s[i + 1..];
    assert s == a + [s[i]] + b;
    MinusConcat(a + [s[i]], b, {s[i]} + gone);
    MinusConcat(a, [s[i]], {s[i]} + gone);
    MinusConcat(a, b, gone);
    MinusMore(a, s[i], gone);
    MinusMore(b, s[i], gone);
    assert {s[i]} + gone == gone + {s[i]};
    assert [s[i]][..0] == [];
  }

  /** The chain is taken out, and the order of the rest is kept. */
  lemma {:induction false} RemovesChain(s: seq<Meta>, i: int, base: string)
    requires NoRepeats(s) && -1 <= i < |s|
    ensures RemoveChain(s, i, base) == Minus(s, ChainIn(s, i, base))
    decreases i + 1
  {
    if i == -1 {
      MinusNothing(s, {});
    } else if s[i].status != Done || s[i].name != base {
      RemovesChain(s, i - 1, base);
    } else {
      var rest := s[..i] + s[i + 1..];
      if s[i].src == "" {
        MinusOne(s, i, {});
        assert {s[i]} + {} == {s[i]};
        MinusNothing(rest, {});
      } else {
        RemovesChain(rest, i - 1, s[i].src);
        assert rest[..i] == s[..i];
        ChainInLower(rest, s, i - 1, s[i].src);
        MinusOne(s, i, ChainIn(s, i - 1, s[i].src));
      }
    }
  }

  // --- exactly the ancestors -------------------------------------------------------------------

  lemma {:induction false} FindsNamed(s: seq<Meta>, i: int, k: int)
    requires NoRepeats(s) && 0 <= k <= i < |s| && s[k].status == Done
    ensures s[k] in ChainIn(s, i, s[k].name)
    decreases i
  {
    if k < i {
      FindsNamed(s, i - 1, k);
    }
  }

  /** With a member, the chain has the source of that member, if it stands before it. */
  lemma {:induction false} ChainHasSource(s: seq<Meta>, i: int, base: string, x: nat, p: nat)
    requires NoRepeats(s) && -1 <= i < |s| && p < x < |s|
    requires s[x] in ChainIn(s, i, base) && s[x].src == s[p].name != "" && s[p].status == Done
    ensures s[p] in ChainIn(s, i, base)
    decreases i + 1
  {
    if s[i].status == Done && s[i].name == base {
      if i == x {
        FindsNamed(s, i - 1, p);
      } else {
        ChainHasSource(s, i - 1, s[i].src, x, p);
      }
    } else {
      ChainHasSource(s, i - 1, base, x, p);
    }
  }

  /** Every member leads down to the backup the search started with. */
  lemma {:induction false} ChainIsLineage(s: seq<Meta>, i: int, base: string, x: Meta) returns (path: seq<Meta>)
    requires -1 <= i < |s| && x in ChainIn(s, i, base)
    ensures IsLineage(s, path) && path[0] == x && path[|path| - 1].name == base
    decreases i + 1
  {
    if s[i].status == Done && s[i].name == base {
      if x == s[i] {
        path := [x];
      } else {
        var upper := ChainIsLineage(s, i - 1, s[i].src, x);
        path := upper + [s[i]];
      }
    } else {
      path := ChainIsLineage(s, i - 1, base, x);
    }
  }

  // ---------------------------------------------------------------------------------------------
  // The last incremental chain
  // ---------------------------------------------------------------------------------------------

  function LastDoneIncrement(s: seq<Meta>, n: nat): int
    requires n <= |s|
  {
    if n == 0 then -1 else if IsDoneIncrement(s[n - 1]) then n - 1 else LastDoneIncrement(s, n - 1)
  }

  /** Some increment that has not failed is based on `name`. */
  predicate IsSource(db: seq<Meta>, name: string) {
    exists i :: 0 <= i < |db| && db[i].src == name && db[i].status != Cancelled && db[i].status != Error
  }

  function ExtractLast(db: seq<Meta>, s: seq<Meta>): seq<Meta> {
    var i := LastDoneIncrement(s, |s|);
    if i < 0 || i >= |s| || !IsSource(db, s[i].name) then s else RemoveChain(s, i, s[i].name)
  }

  method ExtractLastIncrementalChain(db: seq<Meta>, a: array<Meta>, n: nat) returns (m: nat)
    requires n <= a.Length
    modifies a
    ensures m <= n && a[..m] == ExtractLast(db, old(a[..n]))
  {
    ghost var s := a[..n];
    var i := n - 1;
    while i != -1
      invariant -1 <= i < n
      invariant LastDoneIncrement(s, n) == LastDoneIncrement(s, i + 1)
    {
      if a[i].status != Done {
        i := i - 1;
        continue;
      }
      if a[i].kind == Incremental {
        break;
      }
      i := i - 1;
    }
    if i == -1 {
      return n;
    }
    assert s[i] == a[i];
    if !IsSource(db, a[i].name) {
      return n;
    }
    m := ExtractIncrementalChain(a, n, i);
  }

  // --- positions -------------------------------------------------------------------------------

  function Idx(db: seq<Meta>, b: Meta): int {
    if db == [] then -1 else if db[|db| - 1] == b then |db| - 1 else Idx(db[..|db| - 1], b)
  }

  lemma {:induction false} IdxFinds(db: seq<Meta>, i: nat)
    requires Proper(db) && i < |db|
    ensures Idx(db, db[i]) == i
    decreases |db|
  {
    if i < |db| - 1 {
      ProperPrefix(db);
      IdxFinds(db[..|db| - 1], i);
    }
  }

  /** The list has its backups in the order of the history. */
  ghost predicate InOrder(db: seq<Meta>, s: seq<Meta>) {
    && (forall x :: x in s ==> x in db)
    && (forall i, j :: 0 <= i < j < |s| ==> Idx(db, s[i]) < Idx(db, s[j]))
  }

  /** With a done increment the list has all done increments before it. */
  ghost predicate HasEarlier(db: seq<Meta>, s: seq<Meta>) {
    forall x, y :: x in s && y in db && IsDoneIncrement(x) && IsDoneIncrement(y) && Idx(db, y) < Idx(db, x) ==> y in s
  }

  lemma {:induction false} LastIsLast(s: seq<Meta>, n: nat)
    requires n <= |s|
    ensures var i := LastDoneIncrement(s, n);
      -1 <= i < n && (i >= 0 ==> IsDoneIncrement(s[i])) && forall k :: i < k < n ==> !IsDoneIncrement(s[k])
    decreases n
  {
    if n > 0 {
      LastIsLast(s, n - 1);
    }
  }

  lemma OrderedIsDistinct(db: seq<Meta>, s: seq<Meta>)
    requires Proper(db) && InOrder(db, s)
    ensures NoRepeats(s)
  {
    forall i, j | 0 <= i < j < |s| ensures s[i].name != s[j].name {
      if s[i].name == s[j].name {
        assert s[i] in s && s[j] in s;
        SameName(db, s[i], s[j]);
      }
    }
  }

  /** Position of a depending increment and of its source. */
  lemma SourcePosition(db: seq<Meta>, s: Meta, p: Meta) returns (i: nat, j: nat)
    requires LinearHistory(db) && s in db && p in db && Depends(s) && p.name == s.src
    ensures i < |db| && db[i] == s && Idx(db, s) == i && j < |db| && db[j] == p && Idx(db, p) == j
    ensures PrevDone(db, j, if s.status == Done then i else |db|)
  {
    i :| 0 <= i < |db| && db[i] == s;
    j :| PrevDone(db, j, if s.status == Done then i else |db|) && db[j].name == s.src;
    SameName(db, db[j], p);
    IdxFinds(db, i);
    IdxFinds(db, j);
  }

  /** Where the source of a depending increment stands. */
  lemma SourceStands(db: seq<Meta>, s: Meta, p: Meta)
    requires LinearHistory(db) && s in db && p in db && Depends(s) && p.name == s.src
    ensures IsDoneIncrement(p) && Idx(db, p) >= 0 && Idx(db, s) >= 0
    ensures s.status == Done ==> Idx(db, p) < Idx(db, s)
    ensures forall x :: x in db && IsDoneIncrement(x) && Idx(db, p) < Idx(db, x) ==>
      s.status == Done && Idx(db, s) <= Idx(db, x)
  {
    var i, j := SourcePosition(db, s, p);
    forall x | x in db && IsDoneIncrement(x) && Idx(db, p) < Idx(db, x)
      ensures s.status == Done && Idx(db, s) <= Idx(db, x)
    {
      var k :| 0 <= k < |db| && db[k] == x;
      IdxFinds(db, k);
    }
  }

  /** The last done increment of the list, and nothing of the history between it and the list. */
  lemma NotPastTheList(db: seq<Meta>, l: seq<Meta>, p: Meta, s: Meta, i: nat)
    requires LinearHistory(db) && InOrder(db, l) && HasEarlier(db, l)
    requires i < |l| && IsDoneIncrement(l[i]) && forall k :: i < k < |l| ==> !IsDoneIncrement(l[k])
    requires s in db && Depends(s) && p in l && p.name == s.src
    ensures p == l[i] || s in l
  {
    assert l[i] in l && p in db && l[i] in db;
    SourceStands(db, s, p);
    if p != l[i] {
      var k :| 0 <= k < |l| && l[k] == p;
      assert k < i;
      assert Idx(db, p) < Idx(db, l[i]);
      if s != l[i] {
        SameIdx(db, s, l[i]);
      }
    }
  }

  lemma SameIdx(db: seq<Meta>, a: Meta, b: Meta)
    requires Proper(db) && a in db && b in db && a != b
    ensures Idx(db, a) != Idx(db, b)
  {
    var i :| 0 <= i < |db| && db[i] == a;
    var j :| 0 <= j < |db| && db[j] == b;
    IdxFinds(db, i);
    IdxFinds(db, j);
  }

  lemma DependentIsSource(db: seq<Meta>, s: Meta, name: string)
    requires s in db && Depends(s) && s.src == name
    ensures IsSource(db, name)
  {
    var i :| 0 <= i < |db| && db[i] == s;
  }

  /** Deleting the list without its last chain is safe. */
  lemma ExtractLastIsClosed(db: seq<Meta>, l: seq<Meta>)
    requires LinearHistory(db) && InOrder(db, l) && HasEarlier(db, l)
    ensures Closed(db, ExtractLast(db, l))
  {
    var i := LastDoneIncrement(l, |l|);
    LastIsLast(l, |l|);
    OrderedIsDistinct(db, l);
    forall s, p | s in db && s !in ExtractLast(db, l) && Depends(s) && p in db && p.name == s.src
      ensures p !in ExtractLast(db, l)
    {
      SourceStands(db, s, p);
      if i == -1 {
        assert p !in l;
      } else {
        StaysWithItsSource(db, l, i, s, p);
      }
    }
  }

  /** `l[i]` is the last done increment of the list. */
  predicate IsLastDone(l: seq<Meta>, i: int) {
    && 0 <= i < |l| && l[i].kind == Incremental && l[i].status == Done
    && forall k :: i < k < |l| && l[k].kind == Incremental ==> l[k].status != Done
  }

  /** A later increment needs it: done or running, and based on it. */
  ghost predicate IsNeeded(db: seq<Meta>, name: string) {
    exists x :: x in db && x.src == name && (x.status == Done || x.status == Active)
  }

  /** The last done increment of the list is spared, and its chain with it, exactly if one that has not
      failed is based on it; otherwise the list stays as it is. */
  lemma LastChainSparedExactly(db: seq<Meta>, l: seq<Meta>, i: nat)
    requires NoRepeats(l) && IsLastDone(l, i)
    ensures l[i] !in ExtractLast(db, l) <==> IsNeeded(db, l[i].name)
    ensures !IsNeeded(db, l[i].name) ==> ExtractLast(db, l) == l
  {
    LastIsLast(l, |l|);
    assert LastDoneIncrement(l, |l|) == i;
    if x :| x in db && x.src == l[i].name && (x.status == Done || x.status == Active) {
      var k :| 0 <= k < |db| && db[k] == x;
      assert IsSource(db, l[i].name);
    }
    ExtractedMembers(db, l, i);
    FindsNamed(l, i, i);
  }

  lemma StaysWithItsSource(db: seq<Meta>, l: seq<Meta>, i: nat, s: Meta, p: Meta)
    requires LinearHistory(db) && InOrder(db, l) && HasEarlier(db, l) && NoRepeats(l)
    requires i < |l| && IsDoneIncrement(l[i]) && forall k :: i < k < |l| ==> !IsDoneIncrement(l[k])
    requires i == LastDoneIncrement(l, |l|)
    requires s in db && s !in ExtractLast(db, l) && Depends(s) && p in db && p.name == s.src && IsDoneIncrement(p)
    ensures p !in ExtractLast(db, l)
  {
    var chain := ChainIn(l, i, l[i].name);
    if p in l {
      NotPastTheList(db, l, p, s, i);
      if p == l[i] {
        DependentIsSource(db, s, l[i].name);
        FindsNamed(l, i, i);
        ExtractedMembers(db, l, i);
      } else {
        ExtractedMembers(db, l, i);
        ChainTakesSource(db, l, i, s, p);
      }
    } else {
      ExtractedMembers(db, l, i);
    }
  }

  lemma ExtractedMembers(db: seq<Meta>, l: seq<Meta>, i: nat)
    requires NoRepeats(l) && i < |l| && i == LastDoneIncrement(l, |l|)
    ensures forall x :: x in ExtractLast(db, l) <==>
      x in l && !(IsSource(db, l[i].name) && x in ChainIn(l, i, l[i].name))
  {
    RemovesChain(l, i, l[i].name);
    MinusMembers(l, ChainIn(l, i, l[i].name));
  }

  lemma ChainTakesSource(db: seq<Meta>, l: seq<Meta>, i: nat, s: Meta, p: Meta)
    requires LinearHistory(db) && InOrder(db, l) && NoRepeats(l) && i < |l|
    requires Depends(s) && p in l && p.name == s.src && IsDoneIncrement(p) && s in ChainIn(l, i, l[i].name)
    ensures p in ChainIn(l, i, l[i].name)
  {
    ChainInMembers(l, i, l[i].name);
    var x :| 0 <= x < |l| && l[x] == s;
    var k :| 0 <= k < |l| && l[k] == p;
    SourceBefore(db, l, x, k);
    ChainHasSource(l, i, l[i].name, x, k);
  }

  lemma SourceBefore(db: seq<Meta>, l: seq<Meta>, x: nat, k: nat)
    requires LinearHistory(db) && InOrder(db, l) && x < |l| && k < |l|
    requires Depends(l[x]) && l[x].status == Done && l[k].name == l[x].src
    ensures k < x
  {
    assert l[x] in l && l[k] in l;
    SourceStands(db, l[x], l[k]);
  }

  /** And every backup that leads down to it is a member: the chain is exactly its lineage. */
  lemma {:induction false} LineageIsChain(db: seq<Meta>, l: seq<Meta>, i: nat, path: seq<Meta>, k: nat)
    requires LinearHistory(db) && InOrder(db, l) && i < |l| && IsDoneIncrement(l[i])
    requires IsLineage(l, path) && path[|path| - 1] == l[i] && k < |path|
    ensures path[k] in ChainIn(l, i, l[i].name)
    decreases |path| - k
  {
    OrderedIsDistinct(db, l);
    if k == |path| - 1 {
      FindsNamed(l, i, i);
    } else {
      LineageIsChain(db, l, i, path, k + 1);
      var s, p := path[k + 1], path[k];
      ChainInMembers(l, i, l[i].name);
      assert p in l && p in db && s in db && p.name != "";
      SourceIsDone(db, s, p);
      ChainTakesSource(db, l, i, s, p);
    }
  }

  // ---------------------------------------------------------------------------------------------
  // What to delete
  // ---------------------------------------------------------------------------------------------

  datatype CleanupInfo = CleanupInfo(backups: seq<Meta>, chunks: seq<T.OplogChunk>)

  /** The query for backups with a last write before `bound`, oldest first. */
  function ListBackupsBefore(db: seq<Meta>, bound: Timestamp): seq<Meta> {
    if db == [] then []
    else
      var before, b := ListBackupsBefore(db[..|db| - 1], bound), db[|db| - 1];
      if !IsRunning(b) && Before(b.lastWriteTS, bound) then before + [b] else before
  }

  function ListChunksBefore(index: seq<T.OplogChunk>, ts: Timestamp): seq<T.OplogChunk> {
    if index == [] then []
    else
      var before, c := ListChunksBefore(index[..|index| - 1], ts), index[|index| - 1];
      if Before(c.startTS, ts) then before + [c] else before
  }

  /** The second after `ts`, in 32 bits. */
  function Bound(ts: Timestamp): Timestamp {
    Timestamp((ts.t + 1) % 0x1_0000_0000, 0)
  }

  function EndingBy(chunks: seq<T.OplogChunk>, ts: Timestamp): seq<T.OplogChunk> {
    if chunks == [] then []
    else
      var before, c := EndingBy(chunks[..|chunks| - 1], ts), chunks[|chunks| - 1];
      if AtMost(c.endTS, ts) then before + [c] else before
  }

  function EndingAfter(chunks: seq<T.OplogChunk>, ts: Timestamp): seq<T.OplogChunk> {
    if chunks == [] then []
    else
      var before, c := EndingAfter(chunks[..|chunks| - 1], ts), chunks[|chunks| - 1];
      if AtMost(c.endTS, ts) then before else before + [c]
  }

  function LastBase(s: seq<Meta>, n: nat): int
    requires n <= |s|
  {
    if n == 0 then -1 else if IsValidBaseSnapshot(s[n - 1]) then n - 1 else LastBase(s, n - 1)
  }

  predicate EndsAt(s: seq<Meta>, ts: Timestamp) {
    s != [] && s[|s| - 1].lastWriteTS.t == ts.t
  }

  /** The list without a backup that restores to `ts` itself. */
  function Older(s: seq<Meta>, ts: Timestamp): seq<Meta> {
    if EndsAt(s, ts) then s[..|s| - 1] else s
  }

  function WithoutAt(s: seq<Meta>, i: nat): seq<Meta>
    requires i < |s|
  {
    s[..i] + s[i + 1..]
  }

  lemma {:induction false} ListedAre(db: seq<Meta>, bound: Timestamp)
    ensures forall b :: b in ListBackupsBefore(db, bound) <==> b in db && !IsRunning(b) && Before(b.lastWriteTS, bound)
    decreases |db|
  {
    if db != [] {
      ListedAre(db[..|db| - 1], bound);
      assert db == db[..|db| - 1] + [db[|db| - 1]];
    }
  }

  lemma {:induction false} ListedInOrder(db: seq<Meta>, bound: Timestamp)
    requires Proper(db)
    ensures InOrder(db, ListBackupsBefore(db, bound))
    decreases |db|
  {
    ListedAre(db, bound);
    if db != [] {
      var before, b := db[..|db| - 1], db[|db| - 1];
      ProperPrefix(db);
      ListedInOrder(before, bound);
      OrderGrows(db, ListBackupsBefore(before, bound));
    }
  }

  lemma OrderGrows(db: seq<Meta>, l: seq<Meta>)
    requires Proper(db) && db != [] && InOrder(db[..|db| - 1], l)
    ensures InOrder(db, l) && InOrder(db, l + [db[|db| - 1]])
  {
    var before, b := db[..|db| - 1], db[|db| - 1];
    ProperPrefix(db);
    forall i | 0 <= i < |l| ensures Idx(db, l[i]) == Idx(before, l[i]) < |before| {
      assert l[i] in l;
      IdxBelow(before, l[i]);
    }
  }

  lemma {:induction false} IdxBelow(db: seq<Meta>, b: Meta)
    ensures Idx(db, b) < |db|
    decreases |db|
  {
    if db != [] {
      IdxBelow(db[..|db| - 1], b);
    }
  }

  lemma ListedHasEarlier(db: seq<Meta>, bound: Timestamp)
    requires LinearHistory(db)
    ensures HasEarlier(db, ListBackupsBefore(db, bound))
  {
    ListedAre(db, bound);
    var l := ListBackupsBefore(db, bound);
    forall x, y | x in l && y in db && IsDoneIncrement(x) && IsDoneIncrement(y) && Idx(db, y) < Idx(db, x)
      ensures y in l
    {
      var i :| 0 <= i < |db| && db[i] == x;
      var j :| 0 <= j < |db| && db[j] == y;
      IdxFinds(db, i);
      IdxFinds(db, j);
    }
  }

  lemma TakeOutOrder(db: seq<Meta>, l: seq<Meta>, i: nat)
    requires Proper(db) && InOrder(db, l) && i < |l|
    ensures InOrder(db, WithoutAt(l, i))
  {
    OrderedIsDistinct(db, l);
    WithoutMembers(l, i);
    var r := WithoutAt(l, i);
    assert forall k :: 0 <= k < |r| ==> r[k] == if k < i then l[k] else l[k + 1];
  }

  /** A list stays closed downwards if what is taken out stands after all its done increments. */
  lemma TakeOut(db: seq<Meta>, l: seq<Meta>, i: nat)
    requires LinearHistory(db) && InOrder(db, l) && HasEarlier(db, l) && i < |l|
    requires forall k :: i < k < |l| ==> !IsDoneIncrement(l[k])
    ensures HasEarlier(db, WithoutAt(l, i))
  {
    OrderedIsDistinct(db, l);
    WithoutMembers(l, i);
    forall x, y | x in WithoutAt(l, i) && y in db && IsDoneIncrement(x) && IsDoneIncrement(y) && Idx(db, y) < Idx(db, x)
      ensures y in WithoutAt(l, i)
    {
      var k :| 0 <= k < |l| && l[k] == x;
      assert k < i;
      assert Idx(db, l[k]) < Idx(db, l[i]);
    }
  }

  lemma WithoutMembers(l: seq<Meta>, i: nat)
    requires NoRepeats(l) && i < |l|
    ensures forall x :: x in WithoutAt(l, i) <==> x in l && x != l[i]
  {
    assert l == l[..i] + [l[i]] + l[i + 1..];
  }

  lemma {:induction false} LastBaseIsLast(s: seq<Meta>, n: nat)
    requires n <= |s|
    ensures var i := LastBase(s, n);
      -1 <= i < n && (i >= 0 ==> IsValidBaseSnapshot(s[i])) && forall k :: i < k < n ==> !IsValidBaseSnapshot(s[k])
    decreases n
  {
    if n > 0 {
      LastBaseIsLast(s, n - 1);
    }
  }

  /** The chunks have to be there, gapless for every replica set, from the base to `ts`. */
  ghost predicate Covered(chunks: seq<T.OplogChunk>, from: Timestamp, ts: Timestamp) {
    && chunks != []
    && forall rs :: rs in T.ReplsetsOf(chunks) ==>
      T.HasLine(T.TimelinesOf(T.OwnChunks(chunks, rs)), from.t, ts.t)
  }

  method SplitChunks(chunks: seq<T.OplogChunk>, at: Timestamp)
    returns (before: seq<T.OplogChunk>, after: seq<T.OplogChunk>)
    ensures before == EndingBy(chunks, at) && after == EndingAfter(chunks, at)
  {
    before, after := [], [];
    for i := 0 to |chunks|
      invariant before == EndingBy(chunks[..i], at) && after == EndingAfter(chunks[..i], at)
    {
      assert chunks[..i + 1][..i] == chunks[..i];
      if !Before(at, chunks[i].endTS) {
        before := before + [chunks[i]];
      } else {
        after := after + [chunks[i]];
      }
    }
    assert chunks[..|chunks|] == chunks;
  }

  lemma {:induction false} AfterIsProper(chunks: seq<T.OplogChunk>, at: Timestamp)
    requires T.ProperIndex(chunks)
    ensures T.ProperIndex(EndingAfter(chunks, at)) && forall c :: c in EndingAfter(chunks, at) ==> c in chunks
    decreases |chunks|
  {
    if chunks != [] {
      var before, c := chunks[..|chunks| - 1], chunks[|chunks| - 1];
      assert chunks == before + [c];
      AfterIsProper(before, at);
      var after := EndingAfter(before, at);
      forall i | 0 <= i < |after| ensures AtMost(after[i].startTS, c.startTS) {
        assert after[i] in before;
        var k :| 0 <= k < |before| && before[k] == after[i];
        assert AtMost(chunks[k].startTS, chunks[|chunks| - 1].startTS);
      }
    }
  }

  lemma {:induction false} ListedChunksProper(index: seq<T.OplogChunk>, ts: Timestamp)
    requires T.ProperIndex(index)
    ensures T.ProperIndex(ListChunksBefore(index, ts)) && forall c :: c in ListChunksBefore(index, ts) ==> c in index
    decreases |index|
  {
    if index != [] {
      var before, c := index[..|index| - 1], index[|index| - 1];
      assert index == before + [c];
      ListedChunksProper(before, ts);
      var listed := ListChunksBefore(before, ts);
      forall i | 0 <= i < |listed| ensures AtMost(listed[i].startTS, c.startTS) {
        assert listed[i] in before;
        var k :| 0 <= k < |before| && before[k] == listed[i];
        assert AtMost(index[k].startTS, index[|index| - 1].startTS);
      }
    }
  }

  lemma {:induction false} BeforeAndAfter(chunks: seq<T.OplogChunk>, at: Timestamp, c: T.OplogChunk)
    ensures c in EndingBy(chunks, at) <==> c in chunks && AtMost(c.endTS, at)
    ensures c in EndingAfter(chunks, at) <==> c in chunks && Before(at, c.endTS)
    decreases |chunks|
  {
    if chunks != [] {
      assert chunks == chunks[..|chunks| - 1] + [chunks[|chunks| - 1]];
      BeforeAndAfter(chunks[..|chunks| - 1], at, c);
    }
  }

  // --- the decisions ---------------------------------------------------------------------------

  /** Whether a backup that can restore to `ts` itself is there. */
  predicate RestoresTo(listed: seq<Meta>, ts: Timestamp) {
    EndsAt(listed, ts) && IsValidBaseSnapshot(listed[|listed| - 1])
  }

  /** The chunks lead from the base to `ts`; for a base that ends in the very second of `ts`, through it. */
  ghost predicate LeadsTo(chunks: seq<T.OplogChunk>, from: Timestamp, ts: Timestamp) {
    if from.t < ts.t then Covered(chunks, from, ts) else chunks != [] && T.Passes(chunks, from.t)
  }

  /** On the main storage, whether the newest base before `ts` and the chunks after it are kept: if they
      can restore to `ts`, or if the base may be needed for PITR. */
  ghost predicate KeepsBase(older: seq<Meta>, chunks: seq<T.OplogChunk>, ts: Timestamp, pitrOn: bool, nextBase: bool) {
    LastBaseIsLast(older, |older|);
    var i := LastBase(older, |older|);
    i >= 0 &&
    (LeadsTo(EndingAfter(chunks, older[i].lastWriteTS), older[i].lastWriteTS, ts) || (pitrOn && !nextBase))
  }

  /** What of the main storage may go. */
  ghost function OnMain(
    db: seq<Meta>, older: seq<Meta>, chunks: seq<T.OplogChunk>, ts: Timestamp, pitrOn: bool, nextBase: bool):
    CleanupInfo
  {
    LastBaseIsLast(older, |older|);
    var i := LastBase(older, |older|);
    if i == -1 then CleanupInfo(older, EndingBy(chunks, ts))
    else if KeepsBase(older, chunks, ts, pitrOn, nextBase) then
      CleanupInfo(ExtractLast(db, WithoutAt(older, i)), EndingBy(chunks, older[i].lastWriteTS))
    else CleanupInfo(ExtractLast(db, older), chunks)
  }

  function ListedChunks(index: seq<T.OplogChunk>, ts: Timestamp, isMain: bool): seq<T.OplogChunk> {
    if isMain then ListChunksBefore(index, ts) else []
  }

  /** What may go before `ts`: with a base that ends at `ts`, all that is older; otherwise, on the main
      storage, all that no restore to `ts` needs; and never a chain that goes on after `ts`. */
  ghost function Decision(
    db: seq<Meta>, index: seq<T.OplogChunk>, ts: Timestamp, isMain: bool, pitrOn: bool, nextBase: bool): CleanupInfo
  {
    var listed, chunks := ListBackupsBefore(db, Bound(ts)), ListedChunks(index, ts, isMain);
    if listed == [] then CleanupInfo([], chunks)
    else if RestoresTo(listed, ts) then
      CleanupInfo(ExtractLast(db, Older(listed, ts)), EndingBy(chunks, listed[|listed| - 1].lastWriteTS))
    else if !isMain then CleanupInfo(ExtractLast(db, Older(listed, ts)), chunks)
    else OnMain(db, Older(listed, ts), chunks, ts, pitrOn, nextBase)
  }

  method KeepBaseForPITR(
    a: array<Meta>, n: nat, baseIndex: nat, chunks0: seq<T.OplogChunk>, ts: Timestamp, pitrOn: bool, nextBase: bool)
    returns (m: nat, chunks: seq<T.OplogChunk>)
    requires n <= a.Length && baseIndex < n && baseIndex == LastBase(a[..n], n) && T.ProperIndex(chunks0)
    requires a[baseIndex].lastWriteTS.t <= ts.t
    modifies a
    ensures m <= n && (m < n <==> KeepsBase(old(a[..n]), chunks0, ts, pitrOn, nextBase))
    ensures chunks == if m < n then EndingBy(chunks0, old(a[baseIndex]).lastWriteTS) else chunks0
    ensures a[..m] == if m < n then WithoutAt(old(a[..n]), baseIndex) else old(a[..n])
  {
    ghost var s := a[..n];
    assert s[baseIndex] == a[baseIndex];
    var lw := a[baseIndex].lastWriteTS;
    var beforeChunks, afterChunks := SplitChunks(chunks0, lw);
    AfterIsProper(chunks0, lw);
    var single := T.HasSingleTimelineToCover(afterChunks, lw.t, ts.t);
    if single {
      RemoveAt(a, n, baseIndex);
      return n - 1, beforeChunks;
    }
    if pitrOn {
      if !nextBase {
        RemoveAt(a, n, baseIndex);
        return n - 1, beforeChunks;
      }
    }
    return n, chunks0;
  }

  /** A restore to `ts` that was possible stays possible: either from the backup at `ts`, or from the
      newest base before it with all the chunks after that base. */
  ghost predicate KeepsWayTo(db: seq<Meta>, index: seq<T.OplogChunk>, ts: Timestamp, info: CleanupInfo) {
    var listed, chunks := ListBackupsBefore(db, Bound(ts)), ListChunksBefore(index, ts);
    var older := Older(listed, ts);
    var i := LastBase(older, |older|);
    if RestoresTo(listed, ts) then
      forall c :: c in info.chunks ==> AtMost(c.endTS, listed[|listed| - 1].lastWriteTS)
    else 0 <= i < |older| && older[i].lastWriteTS.t < ts.t
         && Covered(EndingAfter(chunks, older[i].lastWriteTS), older[i].lastWriteTS, ts) ==>
      older[i] !in info.backups && forall c :: c in info.chunks ==> AtMost(c.endTS, older[i].lastWriteTS)
  }

  lemma {:induction false} OlderIsFit(db: seq<Meta>, listed: seq<Meta>, ts: Timestamp)
    requires LinearHistory(db) && InOrder(db, listed) && HasEarlier(db, listed)
    ensures InOrder(db, Older(listed, ts)) && HasEarlier(db, Older(listed, ts))
    ensures forall x :: x in Older(listed, ts) ==> x in listed
    ensures EndsAt(listed, ts) ==> listed[|listed| - 1] !in Older(listed, ts)
  {
    if EndsAt(listed, ts) {
      var n := |listed| - 1;
      assert Older(listed, ts) == WithoutAt(listed, n);
      OrderedIsDistinct(db, listed);
      WithoutMembers(listed, n);
      TakeOutOrder(db, listed, n);
      TakeOut(db, listed, n);
    }
  }

  lemma ExtractLastIsPart(db: seq<Meta>, l: seq<Meta>)
    requires Proper(db) && InOrder(db, l)
    ensures forall x :: x in ExtractLast(db, l) ==> x in l
  {
    OrderedIsDistinct(db, l);
    LastIsLast(l, |l|);
    var i := LastDoneIncrement(l, |l|);
    if i >= 0 {
      ExtractedMembers(db, l, i);
    }
  }

  lemma NoBaseNoIncrement(db: seq<Meta>, l: seq<Meta>)
    requires LinearHistory(db) && InOrder(db, l) && LastBase(l, |l|) == -1
    ensures ExtractLast(db, l) == l
  {
    LastBaseIsLast(l, |l|);
    LastIsLast(l, |l|);
    var i := LastDoneIncrement(l, |l|);
    if i >= 0 {
      IncrementIsBase(db, l[i]);
    }
  }

  lemma IncrementIsBase(db: seq<Meta>, b: Meta)
    requires LinearHistory(db) && b in db && IsDoneIncrement(b)
    ensures IsValidBaseSnapshot(b)
  {
    var i :| 0 <= i < |db| && db[i] == b;
  }

  /** After the newest base there is no done increment. */
  lemma BaseTakenOut(db: seq<Meta>, l: seq<Meta>)
    requires LinearHistory(db) && InOrder(db, l) && HasEarlier(db, l) && LastBase(l, |l|) >= 0
    ensures var i := LastBase(l, |l|);
      i < |l| && InOrder(db, WithoutAt(l, i)) && HasEarlier(db, WithoutAt(l, i)) && l[i] !in WithoutAt(l, i)
    ensures forall x :: x in WithoutAt(l, LastBase(l, |l|)) ==> x in l
  {
    LastBaseIsLast(l, |l|);
    var i := LastBase(l, |l|);
    forall k | i < k < |l| ensures !IsDoneIncrement(l[k]) {
      assert l[k] in l;
      if IsDoneIncrement(l[k]) {
        IncrementIsBase(db, l[k]);
      }
    }
    OrderedIsDistinct(db, l);
    WithoutMembers(l, i);
    TakeOutOrder(db, l, i);
    TakeOut(db, l, i);
  }

  method FindBase(a: array<Meta>, n: nat) returns (baseIndex: int)
    requires n <= a.Length
    ensures baseIndex == LastBase(a[..n], n) && -1 <= baseIndex < n
  {
    baseIndex := n - 1;
    while baseIndex != -1
      invariant -1 <= baseIndex < n
      invariant LastBase(a[..n], n) == LastBase(a[..n], baseIndex + 1)
    {
      assert a[..n][baseIndex] == a[baseIndex];
      if IsValidBaseSnapshot(a[baseIndex]) {
        break;
      }
      baseIndex := baseIndex - 1;
    }
  }

  predicate NoneLater(s: seq<Meta>, ts: Timestamp) {
    forall b :: b in s ==> b.lastWriteTS.t <= ts.t
  }

  lemma OlderNotLater(db: seq<Meta>, ts: Timestamp)
    ensures NoneLater(Older(ListBackupsBefore(db, Bound(ts)), ts), ts)
  {
    ListedAre(db, Bound(ts));
  }

  method CleanupOnMain(
    db: seq<Meta>, a: array<Meta>, n0: nat, chunks: seq<T.OplogChunk>, ts: Timestamp, pitrOn: bool, nextBase: bool)
    returns (info: CleanupInfo)
    requires T.ProperIndex(chunks) && n0 <= a.Length && NoneLater(a[..n0], ts)
    modifies a
    ensures info == OnMain(db, old(a[..n0]), chunks, ts, pitrOn, nextBase)
  {
    var n := n0;
    var baseIndex := FindBase(a, n);
    if baseIndex == -1 {
      var beforeChunks, _ := SplitChunks(chunks, ts);
      return CleanupInfo(a[..n], beforeChunks);
    }
    assert a[..n][baseIndex] == a[baseIndex];
    var rest: seq<T.OplogChunk>;
    n, rest := KeepBaseForPITR(a, n, baseIndex, chunks, ts, pitrOn, nextBase);
    n := ExtractLastIncrementalChain(db, a, n);
    info := CleanupInfo(a[..n], rest);
  }

  method Decide(
    db: seq<Meta>, index: seq<T.OplogChunk>, ts: Timestamp, isMain: bool, pitrOn: bool, nextBase: bool)
    returns (info: CleanupInfo)
    requires T.ProperIndex(index)
    ensures info == Decision(db, index, ts, isMain, pitrOn, nextBase)
  {
    var listed := ListBackupsBefore(db, Bound(ts));
    var chunks := if isMain then ListChunksBefore(index, ts) else [];
    ListedChunksProper(index, ts);
    OlderNotLater(db, ts);
    if |listed| == 0 {
      return CleanupInfo(listed, chunks);
    }
    var a := new Meta[|listed|](i requires 0 <= i < |listed| => listed[i]);
    assert a[..] == listed;
    var n := |listed|;
    var r := a[n - 1];
    if r.lastWriteTS.t == ts.t {
      n := n - 1;
      if IsValidBaseSnapshot(r) {
        assert a[..n] == Older(listed, ts);
        var m := ExtractLastIncrementalChain(db, a, n);
        var beforeChunks, _ := SplitChunks(chunks, r.lastWriteTS);
        return CleanupInfo(a[..m], beforeChunks);
      }
    }
    assert a[..n] == Older(listed, ts);
    if !isMain {
      var m := ExtractLastIncrementalChain(db, a, n);
      return CleanupInfo(a[..m], chunks);
    }
    info := CleanupOnMain(db, a, n, chunks, ts, pitrOn, nextBase);
  }

  // --- what is decided is safe -----------------------------------------------------------------

  lemma OnMainIsClosed(
    db: seq<Meta>, older: seq<Meta>, chunks: seq<T.OplogChunk>, ts: Timestamp, pitrOn: bool, nextBase: bool)
    requires LinearHistory(db) && InOrder(db, older) && HasEarlier(db, older)
    ensures var info := OnMain(db, older, chunks, ts, pitrOn, nextBase);
      Closed(db, info.backups) && forall b :: b in info.backups ==> b in older
  {
    LastBaseIsLast(older, |older|);
    var i := LastBase(older, |older|);
    ExtractLastIsClosed(db, older);
    ExtractLastIsPart(db, older);
    if i == -1 {
      NoBaseNoIncrement(db, older);
    } else {
      BaseTakenOut(db, older);
      ExtractLastIsClosed(db, WithoutAt(older, i));
      ExtractLastIsPart(db, WithoutAt(older, i));
    }
  }

  lemma OnMainKeepsWay(
    db: seq<Meta>, older: seq<Meta>, chunks: seq<T.OplogChunk>, ts: Timestamp, pitrOn: bool, nextBase: bool)
    requires LinearHistory(db) && InOrder(db, older) && HasEarlier(db, older)
    ensures var info, i := OnMain(db, older, chunks, ts, pitrOn, nextBase), LastBase(older, |older|);
      0 <= i < |older| && older[i].lastWriteTS.t < ts.t
      && Covered(EndingAfter(chunks, older[i].lastWriteTS), older[i].lastWriteTS, ts) ==>
        older[i] !in info.backups && forall c :: c in info.chunks ==> AtMost(c.endTS, older[i].lastWriteTS)
  {
    LastBaseIsLast(older, |older|);
    var i := LastBase(older, |older|);
    if i >= 0 {
      BaseTakenOut(db, older);
      ExtractLastIsPart(db, WithoutAt(older, i));
      EndingByAll(chunks, older[i].lastWriteTS);
    }
  }

  /** No backup that goes is an ancestor of one that stays, only listed backups go and never the one that
      ends at `ts` and can restore to it, and on the main storage the way to `ts` is kept. */
  lemma CleanupIsSafe(
    db: seq<Meta>, index: seq<T.OplogChunk>, ts: Timestamp, isMain: bool, pitrOn: bool, nextBase: bool)
    requires LinearHistory(db)
    ensures var listed, info := ListBackupsBefore(db, Bound(ts)), Decision(db, index, ts, isMain, pitrOn, nextBase);
      && Closed(db, info.backups)
      && (forall b :: b in info.backups ==> b in listed)
      && (RestoresTo(listed, ts) ==> listed[|listed| - 1] !in info.backups)
      && (isMain ==> KeepsWayTo(db, index, ts, info))
  {
    var listed, chunks := ListBackupsBefore(db, Bound(ts)), ListedChunks(index, ts, isMain);
    var older := Older(listed, ts);
    ListedInOrder(db, Bound(ts));
    ListedHasEarlier(db, Bound(ts));
    if listed != [] {
      OlderIsFit(db, listed, ts);
      if RestoresTo(listed, ts) {
        ExtractLastIsClosed(db, older);
        ExtractLastIsPart(db, older);
        EndingByAll(chunks, listed[|listed| - 1].lastWriteTS);
      } else if !isMain {
        ExtractLastIsClosed(db, older);
        ExtractLastIsPart(db, older);
      } else {
        OnMainIsClosed(db, older, chunks, ts, pitrOn, nextBase);
        OnMainKeepsWay(db, older, chunks, ts, pitrOn, nextBase);
      }
    }
  }

  lemma {:induction false} EndingByAll(chunks: seq<T.OplogChunk>, at: Timestamp)
    ensures forall c :: c in EndingBy(chunks, at) ==> AtMost(c.endTS, at)
    decreases |chunks|
  {
    if chunks != [] {
      EndingByAll(chunks[..|chunks| - 1], at);
    }
  }

  // --- the newest base, exactly ----------------------------------------------------------------

  /** A full backup that is done stands at position `i`, with a last write not after `ts`, and no other such
      backup behind it. */
  ghost predicate IsNewestBase(db: seq<Meta>, i: nat, ts: Timestamp) {
    && i < |db| && IsFullUpTo(db[i], ts)
    && forall j :: i < j < |db| ==> !IsFullUpTo(db[j], ts)
  }

  predicate IsFullUpTo(b: Meta, ts: Timestamp) {
    b.status == Done && b.kind != External && !b.selective && b.lastWriteTS.t <= ts.t
  }

  /** No finished backup lies between it and the end of the second of `ts`, and it ends in that second. */
  ghost predicate EndsLastAt(db: seq<Meta>, i: nat, ts: Timestamp)
    requires i < |db|
  {
    db[i].lastWriteTS.t == ts.t && forall j :: i < j < |db| && !IsRunning(db[j]) ==> db[j].lastWriteTS.t > ts.t
  }

  /** The chunks that start before `ts` and end after `from`. */
  ghost predicate AreBetween(
    index: seq<T.OplogChunk>, from: Timestamp, ts: Timestamp, chunks: seq<T.OplogChunk>)
  {
    forall c :: c in chunks <==> c in index && Before(c.startTS, ts) && Before(from, c.endTS)
  }

  ghost predicate HasSuccessor(db: seq<Meta>, b: Meta) {
    exists x :: x in db && x.src == b.name && (x.status == Done || x.status == Active)
  }

  lemma {:induction false} ListedChunksAre(index: seq<T.OplogChunk>, ts: Timestamp, c: T.OplogChunk)
    ensures c in ListChunksBefore(index, ts) <==> c in index && Before(c.startTS, ts)
    decreases |index|
  {
    if index != [] {
      assert index == index[..|index| - 1] + [index[|index| - 1]];
      ListedChunksAre(index[..|index| - 1], ts, c);
    }
  }

  lemma ListedUpTo(db: seq<Meta>, ts: Timestamp, x: Meta)
    requires ts.t < 0xFFFF_FFFF
    ensures x in ListBackupsBefore(db, Bound(ts)) <==> x in db && !IsRunning(x) && x.lastWriteTS.t <= ts.t
  {
    ListedAre(db, Bound(ts));
  }

  lemma NewestIsListed(db: seq<Meta>, ts: Timestamp, i: nat)
    requires Proper(db) && ts.t < 0xFFFF_FFFF && IsNewestBase(db, i, ts)
    ensures var listed := ListBackupsBefore(db, Bound(ts));
      db[i] in listed && InOrder(db, listed)
  {
    ListedUpTo(db, ts, db[i]);
    ListedInOrder(db, Bound(ts));
  }

  lemma PositionsInOrder(db: seq<Meta>, l: seq<Meta>, p: nat, k: nat, i: nat, j: nat)
    requires Proper(db) && InOrder(db, l) && p <= k < |l| && i < |db| && j < |db| && l[p] == db[i] && l[k] == db[j]
    ensures i <= j
  {
    IdxFinds(db, i);
    IdxFinds(db, j);
  }

  /** In a list that has the newest base, that base is the last one. */
  lemma NewestIsLast(db: seq<Meta>, l: seq<Meta>, ts: Timestamp, i: nat)
    requires Proper(db) && IsNewestBase(db, i, ts) && InOrder(db, l) && NoneLater(l, ts) && db[i] in l
    ensures var k := LastBase(l, |l|); 0 <= k < |l| && l[k] == db[i]
  {
    LastBaseIsLast(l, |l|);
    var p :| 0 <= p < |l| && l[p] == db[i];
    assert IsValidBaseSnapshot(l[p]);
    var k := LastBase(l, |l|);
    assert l[k] in l && l[k] in db;
    var j :| 0 <= j < |db| && db[j] == l[k];
    PositionsInOrder(db, l, p, k, i, j);
    assert IsFullUpTo(db[j], ts);
  }

  /** The last one listed, and nothing finished lies between it and the end of the second of `ts`. */
  lemma LastListed(db: seq<Meta>, ts: Timestamp, i: nat) returns (j: nat)
    requires Proper(db) && ts.t < 0xFFFF_FFFF && IsNewestBase(db, i, ts)
    ensures var listed := ListBackupsBefore(db, Bound(ts));
      listed != [] && i <= j < |db| && db[j] == listed[|listed| - 1]
    ensures !IsRunning(db[j]) && db[j].lastWriteTS.t <= ts.t
    ensures forall x :: j < x < |db| && !IsRunning(db[x]) ==> db[x].lastWriteTS.t > ts.t
  {
    var listed := ListBackupsBefore(db, Bound(ts));
    NewestIsListed(db, ts, i);
    var last := listed[|listed| - 1];
    assert last in listed;
    ListedUpTo(db, ts, last);
    j :| 0 <= j < |db| && db[j] == last;
    IdxFinds(db, j);
    var p :| 0 <= p < |listed| && listed[p] == db[i];
    PositionsInOrder(db, listed, p, |listed| - 1, i, j);
    forall x | j < x < |db| && !IsRunning(db[x]) ensures db[x].lastWriteTS.t > ts.t {
      ListedUpTo(db, ts, db[x]);
      if db[x] in listed {
        var q :| 0 <= q < |listed| && listed[q] == db[x];
        PositionsInOrder(db, listed, q, |listed| - 1, x, j);
      }
    }
  }

  lemma LastListedIs(db: seq<Meta>, ts: Timestamp, i: nat)
    requires Proper(db) && ts.t < 0xFFFF_FFFF && IsNewestBase(db, i, ts)
    ensures var listed := ListBackupsBefore(db, Bound(ts));
      listed != [] && (RestoresTo(listed, ts) <==> EndsLastAt(db, i, ts))
    ensures var listed := ListBackupsBefore(db, Bound(ts));
      RestoresTo(listed, ts) ==> listed[|listed| - 1] == db[i]
  {
    var j := LastListed(db, ts, i);
    if RestoresTo(ListBackupsBefore(db, Bound(ts)), ts) {
      assert IsFullUpTo(db[j], ts);
    }
  }

  /** The newest base ends in the second of `ts`, and nothing after it does: it stays, with all chunks that
      end after it, whatever else there is. */
  lemma BaseAtTimeStays(
    db: seq<Meta>, index: seq<T.OplogChunk>, ts: Timestamp, isMain: bool, pitrOn: bool, nextBase: bool, i: nat)
    requires LinearHistory(db) && ts.t < 0xFFFF_FFFF && IsNewestBase(db, i, ts) && EndsLastAt(db, i, ts)
    ensures var info := Decision(db, index, ts, isMain, pitrOn, nextBase);
      && db[i] !in info.backups
      && forall c :: c in info.chunks <==>
           isMain && c in index && Before(c.startTS, ts) && AtMost(c.endTS, db[i].lastWriteTS)
  {
    CleanupIsSafe(db, index, ts, isMain, pitrOn, nextBase);
    LastListedIs(db, ts, i);
    ChunksAround(index, db[i].lastWriteTS, ts);
  }

  /** Taking out the last chain spares the newest base exactly if it is an increment that has a successor. */
  lemma ChainSparesBase(db: seq<Meta>, l: seq<Meta>, k: nat)
    requires LinearHistory(db) && InOrder(db, l) && k < |l| && k == LastBase(l, |l|)
    ensures l[k] !in ExtractLast(db, l) <==> l[k].kind == Incremental && HasSuccessor(db, l[k])
  {
    LastBaseIsLast(l, |l|);
    LastIsLast(l, |l|);
    OrderedIsDistinct(db, l);
    var m := LastDoneIncrement(l, |l|);
    if m >= 0 {
      assert l[m] in l;
      IncrementIsBase(db, l[m]);
      ExtractedMembers(db, l, m);
      ChainInMembers(l, m, l[m].name);
      if m == k {
        FindsNamed(l, k, k);
        SuccessorIsSource(db, l[k]);
      } else {
        assert l[k] !in l[..m + 1];
      }
    }
  }

  lemma SuccessorIsSource(db: seq<Meta>, b: Meta)
    ensures IsSource(db, b.name) <==> HasSuccessor(db, b)
  {
    if x :| x in db && x.src == b.name && (x.status == Done || x.status == Active) {
      var i :| 0 <= i < |db| && db[i] == x;
    }
  }

  lemma ChunksAround(index: seq<T.OplogChunk>, from: Timestamp, ts: Timestamp)
    ensures AreBetween(index, from, ts, EndingAfter(ListChunksBefore(index, ts), from))
    ensures forall c :: c in ListChunksBefore(index, ts) <==> c in index && Before(c.startTS, ts)
    ensures forall c :: c in EndingBy(ListChunksBefore(index, ts), from) <==>
      c in index && Before(c.startTS, ts) && AtMost(c.endTS, from)
  {
    forall c
      ensures c in ListChunksBefore(index, ts) <==> c in index && Before(c.startTS, ts)
      ensures c in EndingBy(ListChunksBefore(index, ts), from) <==>
        c in ListChunksBefore(index, ts) && AtMost(c.endTS, from)
      ensures c in EndingAfter(ListChunksBefore(index, ts), from) <==>
        c in ListChunksBefore(index, ts) && Before(from, c.endTS)
    {
      ListedChunksAre(index, ts, c);
      BeforeAndAfter(ListChunksBefore(index, ts), from, c);
    }
  }

  lemma SparedOnMain(
    db: seq<Meta>, older: seq<Meta>, chunks: seq<T.OplogChunk>, ts: Timestamp, pitrOn: bool, nextBase: bool, b: Meta)
    requires LinearHistory(db) && InOrder(db, older) && HasEarlier(db, older)
    requires 0 <= LastBase(older, |older|) < |older| && older[LastBase(older, |older|)] == b
    ensures var info := OnMain(db, older, chunks, ts, pitrOn, nextBase);
      var stays := LeadsTo(EndingAfter(chunks, b.lastWriteTS), b.lastWriteTS, ts) || (pitrOn && !nextBase);
      && (b !in info.backups <==> stays || (b.kind == Incremental && HasSuccessor(db, b)))
      && info.chunks == if stays then EndingBy(chunks, b.lastWriteTS) else chunks
  {
    var k := LastBase(older, |older|);
    BaseTakenOut(db, older);
    ExtractLastIsPart(db, WithoutAt(older, k));
    ChainSparesBase(db, older, k);
  }

  lemma NewestIsOlder(db: seq<Meta>, ts: Timestamp, i: nat)
    requires Proper(db) && ts.t < 0xFFFF_FFFF && IsNewestBase(db, i, ts) && !EndsLastAt(db, i, ts)
    ensures db[i] in Older(ListBackupsBefore(db, Bound(ts)), ts)
  {
    var listed := ListBackupsBefore(db, Bound(ts));
    NewestIsListed(db, ts, i);
    LastListedIs(db, ts, i);
    assert IsValidBaseSnapshot(db[i]);
    var p :| 0 <= p < |listed| && listed[p] == db[i];
    if EndsAt(listed, ts) {
      assert p < |listed| - 1;
      assert Older(listed, ts)[p] == db[i];
    }
  }

  /** What becomes of the newest base up to `ts`, at position `i`. If it ends in the second of `ts`, and nothing
      after it does, it stays. Otherwise it is spared exactly if a later increment is built on it or, on the
      main storage, if the chunks after it lead on to `ts` or PITR runs and no later base exists. In these
      cases, but for that of the increment, all chunks that end after it are spared as well. */
  ghost predicate BaseDecided(
    db: seq<Meta>, index: seq<T.OplogChunk>, ts: Timestamp, isMain: bool, pitrOn: bool, nextBase: bool, i: nat,
    info: CleanupInfo)
    requires i < |db|
  {
    var b := db[i];
    var after := EndingAfter(ListChunksBefore(index, ts), b.lastWriteTS);
    var stays := EndsLastAt(db, i, ts) || (isMain && (LeadsTo(after, b.lastWriteTS, ts) || (pitrOn && !nextBase)));
    && AreBetween(index, b.lastWriteTS, ts, after)
    && (b !in info.backups <==> stays || (b.kind == Incremental && HasSuccessor(db, b)))
    && forall c :: c in info.chunks <==>
         isMain && c in index && Before(c.startTS, ts) && (stays ==> AtMost(c.endTS, b.lastWriteTS))
  }

  lemma NewestBaseDecided(
    db: seq<Meta>, index: seq<T.OplogChunk>, ts: Timestamp, isMain: bool, pitrOn: bool, nextBase: bool, i: nat)
    requires LinearHistory(db) && ts.t < 0xFFFF_FFFF && IsNewestBase(db, i, ts)
    ensures BaseDecided(db, index, ts, isMain, pitrOn, nextBase, i, Decision(db, index, ts, isMain, pitrOn, nextBase))
  {
    ChunksAround(index, db[i].lastWriteTS, ts);
    if EndsLastAt(db, i, ts) {
      BaseAtTimeStays(db, index, ts, isMain, pitrOn, nextBase, i);
    } else {
      var listed := ListBackupsBefore(db, Bound(ts));
      NewestIsListed(db, ts, i);
      ListedHasEarlier(db, Bound(ts));
      LastListedIs(db, ts, i);
      OlderIsFit(db, listed, ts);
      OlderNotLater(db, ts);
      NewestIsOlder(db, ts, i);
      NewestIsLast(db, Older(listed, ts), ts, i);
      ChainSparesBase(db, Older(listed, ts), LastBase(Older(listed, ts), |Older(listed, ts)|));
      SparedOnMain(db, Older(listed, ts), ListChunksBefore(index, ts), ts, pitrOn, nextBase, db[i]);
    }
  }

  /** With no base up to `ts`, on the main storage, everything finished before the second of `ts` goes, with the
      chunks that end by `ts`, or with all of them when there is nothing finished up to then. */
  lemma NoBaseAllGoes(db: seq<Meta>, index: seq<T.OplogChunk>, ts: Timestamp, pitrOn: bool, nextBase: bool)
    requires LinearHistory(db) && ts.t < 0xFFFF_FFFF && forall b :: b in db ==> !IsFullUpTo(b, ts)
    ensures var info := Decision(db, index, ts, true, pitrOn, nextBase);
      && (forall b :: b in info.backups ==> b in db && !IsRunning(b) && b.lastWriteTS.t <= ts.t)
      && (forall b :: b in db && !IsRunning(b) && b.lastWriteTS.t < ts.t ==> b in info.backups)
      && forall c :: c in info.chunks <==>
           && c in index && Before(c.startTS, ts)
           && ((exists b :: b in db && !IsRunning(b) && b.lastWriteTS.t <= ts.t) ==> AtMost(c.endTS, ts))
  {
    var listed := ListBackupsBefore(db, Bound(ts));
    ChunksAround(index, ts, ts);
    forall b ensures b in listed <==> b in db && !IsRunning(b) && b.lastWriteTS.t <= ts.t {
      ListedUpTo(db, ts, b);
    }
    var older := Older(listed, ts);
    LastBaseIsLast(older, |older|);
    if listed != [] {
      assert listed == listed[..|listed| - 1] + [listed[|listed| - 1]];
      assert listed[|listed| - 1] in listed;
      assert forall k :: 0 <= k < |older| ==> older[k] in listed;
    }
  }

  /** While PITR runs and no later base exists, the newest base up to `ts` stays in any case, and with it every
      chunk that ends after it. */
  lemma PITRKeepsNewestBase(db: seq<Meta>, index: seq<T.OplogChunk>, ts: Timestamp, i: nat)
    requires LinearHistory(db) && ts.t < 0xFFFF_FFFF && IsNewestBase(db, i, ts)
    ensures var info := Decision(db, index, ts, true, true, false);
      db[i] !in info.backups && forall c :: c in info.chunks ==> AtMost(c.endTS, db[i].lastWriteTS)
  {
    NewestBaseDecided(db, index, ts, true, true, false, i);
  }

  /** What the caller may delete before `ts`. `nextBase` says whether a base snapshot exists after `ts`,
      `pitrOn` whether PITR runs and is not oplog-only. */
  method MakeCleanupInfo(
    db: seq<Meta>, index: seq<T.OplogChunk>, ts: Timestamp, isMain: bool, pitrOn: bool, nextBase: bool)
    returns (info: CleanupInfo)
    requires T.ProperIndex(index)
    ensures info == Decision(db, index, ts, isMain, pitrOn, nextBase)
    ensures LinearHistory(db) && ts.t < 0xFFFF_FFFF ==>
      forall i :: IsNewestBase(db, i, ts) ==> BaseDecided(db, index, ts, isMain, pitrOn, nextBase, i, info)
  {
    info := Decide(db, index, ts, isMain, pitrOn, nextBase);
    if LinearHistory(db) && ts.t < 0xFFFF_FFFF {
      forall i | IsNewestBase(db, i, ts) ensures BaseDecided(db, index, ts, isMain, pitrOn, nextBase, i, info) {
        NewestBaseDecided(db, index, ts, isMain, pitrOn, nextBase, i);
      }
    }
  }
}
