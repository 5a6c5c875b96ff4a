/** The retention policy (pbm/lifecycle/manager.go): which backups are kept outright, and which one of
    each weekly and monthly bucket. How dates fall into buckets, and how far a date is from the wanted
    day, are parameters here; module Buckets gives them. */
module Retention {
  import opened Options
  import opened Timestamps
  import opened Backups
  import opened Lifecycle

  // ---------------------------------------------------------------------------------------------
  // The best candidate of a bucket
  // ---------------------------------------------------------------------------------------------

  /** Order of names, character by character. */
  predicate NameBefore(a: string, b: string) {
    b != "" && (a == "" || a[0] < b[0] || (a[0] == b[0] && NameBefore(a[1..], b[1..])))
  }

  predicate BetterCandidate(c: Meta, current: Meta) {
    if c.lastWriteTS != current.lastWriteTS then Before(current.lastWriteTS, c.lastWriteTS)
    else if c.startTS != current.startTS then c.startTS > current.startTS
    else NameBefore(c.name, current.name)
  }

  /** With a calendar the distance from the wanted day counts first. */
  predicate Prefers(calendar: bool, diff: Meta -> int, c: Meta, current: Meta) {
    if calendar && diff(c) != diff(current) then diff(c) < diff(current) else BetterCandidate(c, current)
  }

  function Best(candidates: seq<Meta>, calendar: bool, diff: Meta -> int): Option<Meta> {
    if candidates == [] then None
    else
      var before, c := Best(candidates[..|candidates| - 1], calendar, diff), candidates[|candidates| - 1];
      if before.None? || Prefers(calendar, diff, c, before.value) then Some(c) else before
  }

  method FindBestCandidate(candidates: seq<Meta>, calendar: bool, diff: Meta -> int) returns (best: Option<Meta>)
    ensures best == Best(candidates, calendar, diff)
  {
    best := None;
    var minDiff := 0;
    for i := 0 to |candidates|
      invariant best == Best(candidates[..i], calendar, diff)
      invariant calendar && best.Some? ==> minDiff == diff(best.value)
    {
      assert candidates[..i + 1][..i] == candidates[..i];
      var c := candidates[i];
      if !calendar {
        if best.None? || BetterCandidate(c, best.value) {
          best := Some(c);
        }
      } else {
        var d := diff(c);
        if best.None? || d < minDiff || (d == minDiff && BetterCandidate(c, best.value)) {
          minDiff := d;
          best := Some(c);
        }
      }
    }
    assert candidates[..|candidates|] == candidates;
  }

  // --- preference is a strict total order ------------------------------------------------------

  lemma {:induction false} NamesCompare(a: string, b: string)
    ensures a == b <==> !NameBefore(a, b) && !NameBefore(b, a)
    ensures !(NameBefore(a, b) && NameBefore(b, a))
    decreases |a|
  {
    if a != "" && b != "" && a[0] == b[0] {
      NamesCompare(a[1..], b[1..]);
      assert a == [a[0]] + a[1..] && b == [b[0]] + b[1..];
    }
  }

  lemma {:induction false} NamesTransitive(a: string, b: string, c: string)
    requires NameBefore(a, b) && NameBefore(b, c)
    ensures NameBefore(a, c)
    decreases |a|
  {
    if a != "" && a[0] == b[0] == c[0] {
      NamesTransitive(a[1..], b[1..], c[1..]);
    }
  }

  lemma PrefersCompares(calendar: bool, diff: Meta -> int, a: Meta, b: Meta)
    ensures a.name != b.name ==> Prefers(calendar, diff, a, b) || Prefers(calendar, diff, b, a)
    ensures !(Prefers(calendar, diff, a, b) && Prefers(calendar, diff, b, a))
  {
    NamesCompare(a.name, b.name);
  }

  lemma PrefersTransitive(calendar: bool, diff: Meta -> int, a: Meta, b: Meta, c: Meta)
    requires Prefers(calendar, diff, a, b) && Prefers(calendar, diff, b, c)
    ensures Prefers(calendar, diff, a, c)
  {
    if NameBefore(a.name, b.name) && NameBefore(b.name, c.name) {
      NamesTransitive(a.name, b.name, c.name);
    }
  }

  predicate IsTop(candidates: seq<Meta>, calendar: bool, diff: Meta -> int, x: Meta) {
    x in candidates && forall y :: y in candidates ==> y == x || Prefers(calendar, diff, x, y)
  }

  predicate DistinctNames(bs: seq<Meta>) {
    forall i, j :: 0 <= i < j < |bs| ==> bs[i].name != bs[j].name
  }

  /** The candidate found is preferred to every other one. */
  lemma {:induction false} BestIsTop(candidates: seq<Meta>, calendar: bool, diff: Meta -> int)
    requires DistinctNames(candidates) && candidates != []
    ensures Best(candidates, calendar, diff).Some?
    ensures IsTop(candidates, calendar, diff, Best(candidates, calendar, diff).value)
    decreases |candidates|
  {
    var before, c := candidates[..|candidates| - 1], candidates[|candidates| - 1];
    if before == [] {
      assert candidates == [c];
    } else {
      BestIsTop(before, calendar, diff);
      TopStep(before, c, calendar, diff, Best(before, calendar, diff).value);
      assert candidates == before + [c];
    }
  }

  lemma TopStep(before: seq<Meta>, c: Meta, calendar: bool, diff: Meta -> int, top: Meta)
    requires DistinctNames(before + [c]) && IsTop(before, calendar, diff, top)
    ensures IsTop(before + [c], calendar, diff, if Prefers(calendar, diff, c, top) then c else top)
  {
    var i :| 0 <= i < |before| && before[i] == top;
    assert (before + [c])[i].name != (before + [c])[|before|].name;
    PrefersCompares(calendar, diff, c, top);
    if Prefers(calendar, diff, c, top) {
      forall y | y in before + [c] && y != c ensures Prefers(calendar, diff, c, y) {
        if y != top {
          PrefersTransitive(calendar, diff, c, top, y);
        }
      }
    }
  }

  /** Which one is kept of a bucket does not depend on the order of the backups. */
  lemma BestIgnoresOrder(a: seq<Meta>, b: seq<Meta>, calendar: bool, diff: Meta -> int)
    requires DistinctNames(a) && DistinctNames(b) && multiset(a) == multiset(b)
    ensures Best(a, calendar, diff) == Best(b, calendar, diff)
  {
    assert |a| == |multiset(a)| == |multiset(b)| == |b|;
    if a != [] {
      BestIsTop(a, calendar, diff);
      BestIsTop(b, calendar, diff);
      var x, y := Best(a, calendar, diff).value, Best(b, calendar, diff).value;
      assert x in multiset(a) && y in multiset(b);
      PrefersCompares(calendar, diff, x, y);
    }
  }

  // --- what is kept of a bucket, over the fields -------------------------------------------------

  /** The first difference of the names is at `n`, and `a` ends there or has the smaller character. */
  predicate DifferAt(a: string, b: string, n: int) {
    0 <= n <= |a| && n < |b| && a[..n] == b[..n] && (n == |a| || a[n] < b[n])
  }

  ghost predicate HasSmallerName(a: Meta, b: Meta) {
    exists n :: DifferAt(a.name, b.name, n)
  }

  predicate SameLastWrite(a: Meta, b: Meta) {
    a.lastWriteTS.t == b.lastWriteTS.t && a.lastWriteTS.i == b.lastWriteTS.i
  }

  /** The newer last write counts, then the later start, then the smaller name. */
  ghost predicate IsNewer(a: Meta, b: Meta) {
    || a.lastWriteTS.t > b.lastWriteTS.t
    || (a.lastWriteTS.t == b.lastWriteTS.t && a.lastWriteTS.i > b.lastWriteTS.i)
    || (SameLastWrite(a, b) && a.startTS > b.startTS)
    || (SameLastWrite(a, b) && a.startTS == b.startTS && HasSmallerName(a, b))
  }

  lemma {:induction false} NameBeforeIs(a: string, b: string)
    ensures NameBefore(a, b) <==> exists n :: DifferAt(a, b, n)
    decreases |a|
  {
    if a == "" || b == "" || a[0] != b[0] {
      if NameBefore(a, b) {
        assert DifferAt(a, b, 0);
      }
      assert forall n :: DifferAt(a, b, n) && n > 0 ==> a[..n][0] == b[..n][0];
    } else {
      NameBeforeIs(a[1..], b[1..]);
      forall n | DifferAt(a, b, n) ensures DifferAt(a[1..], b[1..], n - 1) {
        assert a[..n][1..] == b[..n][1..] && a[1..][..n - 1] == a[..n][1..] && b[1..][..n - 1] == b[..n][1..];
      }
      forall n | DifferAt(a[1..], b[1..], n) ensures DifferAt(a, b, n + 1) {
        assert a[..n + 1] == [a[0]] + a[1..][..n] && b[..n + 1] == [b[0]] + b[1..][..n];
      }
    }
  }

  lemma BetterIsNewer(a: Meta, b: Meta)
    ensures BetterCandidate(a, b) <==> IsNewer(a, b)
  {
    NameBeforeIs(a.name, b.name);
  }

  /** The one kept of a bucket is newer than all others: than all in it without a calendar, and with one
      than all others as near to the wanted day, where none is nearer. */
  lemma NewestIsKept(candidates: seq<Meta>, calendar: bool, diff: Meta -> int)
    requires DistinctNames(candidates) && candidates != []
    ensures Best(candidates, calendar, diff).Some?
    ensures var x := Best(candidates, calendar, diff).value;
      x in candidates && forall y :: y in candidates && y != x ==>
        if calendar then diff(x) < diff(y) || (diff(x) == diff(y) && IsNewer(x, y)) else IsNewer(x, y)
  {
    BestIsTop(candidates, calendar, diff);
    var x := Best(candidates, calendar, diff).value;
    forall y | y in candidates {
      BetterIsNewer(x, y);
    }
  }

  // ---------------------------------------------------------------------------------------------
  // The policy
  // ---------------------------------------------------------------------------------------------

  datatype Policy = Policy(enabled: bool, minKeep: int, purgeFailed: bool, calendar: bool)

  /** What the dates of a backup mean at the time of the evaluation: whether it is from before, lies in
      the daily window, in which weekly and monthly bucket it falls, if in any that is retained, and
      how far it is from the wanted day of the week and of the month. */
  datatype Clock = Clock(
    past: Meta -> bool, daily: Meta -> bool,
    week: Meta -> Option<int>, month: Meta -> Option<int>,
    weekDiff: Meta -> int, monthDiff: Meta -> int)

  type Bucket = (int, Kind)

  predicate HasFailed(b: Meta) {
    b.status == Error || b.status == Cancelled
  }

  /** Kept whatever the other backups are. */
  predicate KeptOutright(p: Policy, clock: Clock, b: Meta) {
    && !IsRunning(b)
    && (b.selective || !clock.past(b) || (if HasFailed(b) && !p.purgeFailed then true else clock.daily(b)))
  }

  predicate Competes(clock: Clock, b: Meta) {
    !IsRunning(b) && !b.selective && clock.past(b) && !HasFailed(b)
  }

  function WeekOf(clock: Clock, b: Meta): Option<Bucket> {
    if Competes(clock, b) && clock.week(b).Some? then Some((clock.week(b).value, b.kind)) else None
  }

  function MonthOf(clock: Clock, b: Meta): Option<Bucket> {
    if Competes(clock, b) && clock.month(b).Some? then Some((clock.month(b).value, b.kind)) else None
  }

  /** Among the first `n` backups, those in bucket `k`. */
  function InBucket(bs: seq<Meta>, n: nat, bucketOf: Meta -> Option<Bucket>, k: Bucket): seq<Meta>
    requires n <= |bs|
  {
    if n == 0 then []
    else
      var before := InBucket(bs, n - 1, bucketOf, k);
      if bucketOf(bs[n - 1]) == Some(k) then before + [bs[n - 1]] else before
  }

  function Outright(p: Policy, clock: Clock, bs: seq<Meta>, n: nat): set<string>
    requires n <= |bs|
  {
    if n == 0 then {}
    else Outright(p, clock, bs, n - 1) + if KeptOutright(p, clock, bs[n - 1]) then {bs[n - 1].name} else {}
  }

  /** The names of the best of each bucket. */
  function BestNames(bs: seq<Meta>, bucketOf: Meta -> Option<Bucket>, calendar: bool, diff: Meta -> int): set<string> {
    set b |
      b in bs && bucketOf(b).Some? && Best(InBucket(bs, |bs|, bucketOf, bucketOf(b).value), calendar, diff).Some? ::
      Best(InBucket(bs, |bs|, bucketOf, bucketOf(b).value), calendar, diff).value.name
  }

  /** The names the policy itself keeps, before chains are considered. */
  function PolicyKeeps(p: Policy, clock: Clock, bs: seq<Meta>): set<string> {
    Outright(p, clock, bs, |bs|)
    + BestNames(bs, b => WeekOf(clock, b), p.calendar, clock.weekDiff)
    + BestNames(bs, b => MonthOf(clock, b), p.calendar, clock.monthDiff)
  }

  ghost predicate SortedInto(
    bs: seq<Meta>, n: nat, bucketOf: Meta -> Option<Bucket>, buckets: map<Bucket, seq<Meta>>)
    requires n <= |bs|
  {
    forall k :: InBucket(bs, n, bucketOf, k) == if k in buckets then buckets[k] else []
  }

  function Sorted(buckets: map<Bucket, seq<Meta>>, k: Option<Bucket>, b: Meta): map<Bucket, seq<Meta>> {
    if k.None? then buckets
    else buckets[k.value := (if k.value in buckets then buckets[k.value] else []) + [b]]
  }

  function BestOf(buckets: map<Bucket, seq<Meta>>, keys: set<Bucket>, calendar: bool, diff: Meta -> int): set<string> {
    set k | k in keys && k in buckets && Best(buckets[k], calendar, diff).Some? ::
      Best(buckets[k], calendar, diff).value.name
  }

  method KeepBest(
    report: Report, buckets: map<Bucket, seq<Meta>>, calendar: bool, diff: Meta -> int, reason: string)
    modifies report`keepReasons
    ensures KeptNames(report.keepReasons) ==
      KeptNames(old(report.keepReasons)) + BestOf(buckets, buckets.Keys, calendar, diff)
  {
    var pending := buckets.Keys;
    ghost var kept := KeptNames(report.keepReasons);
    while pending != {}
      invariant pending <= buckets.Keys
      invariant KeptNames(report.keepReasons) == kept + BestOf(buckets, buckets.Keys - pending, calendar, diff)
      decreases pending
    {
      var k :| k in pending;
      assert buckets.Keys - (pending - {k}) == (buckets.Keys - pending) + {k};
      BestOfOneMore(buckets, buckets.Keys - pending, k, calendar, diff);
      var best := FindBestCandidate(buckets[k], calendar, diff);
      if best.Some? {
        report.AddKeepReason(best.value.name, reason);
      }
      pending := pending - {k};
    }
    assert buckets.Keys - pending == buckets.Keys;
  }

  lemma BestOfOneMore(buckets: map<Bucket, seq<Meta>>, keys: set<Bucket>, k: Bucket, calendar: bool, diff: Meta -> int)
    requires k in buckets
    ensures BestOf(buckets, keys + {k}, calendar, diff) == BestOf(buckets, keys, calendar, diff) +
      match Best(buckets[k], calendar, diff) case Some(b) => {b.name} case None => {}
  {
  }

  lemma {:induction false} BucketMembers(bs: seq<Meta>, n: nat, bucketOf: Meta -> Option<Bucket>, k: Bucket)
    requires n <= |bs| && InBucket(bs, n, bucketOf, k) != []
    ensures exists b :: b in bs && bucketOf(b) == Some(k)
    decreases n
  {
    if bucketOf(bs[n - 1]) != Some(k) {
      BucketMembers(bs, n - 1, bucketOf, k);
    }
  }

  lemma {:induction false} BucketNotEmpty(bs: seq<Meta>, n: nat, bucketOf: Meta -> Option<Bucket>, i: nat)
    requires i < n <= |bs| && bucketOf(bs[i]).Some?
    ensures InBucket(bs, n, bucketOf, bucketOf(bs[i]).value) != []
    decreases n
  {
    if i < n - 1 {
      BucketNotEmpty(bs, n - 1, bucketOf, i);
    }
  }

  lemma BestOfAll(
    bs: seq<Meta>, bucketOf: Meta -> Option<Bucket>, buckets: map<Bucket, seq<Meta>>, calendar: bool, diff: Meta -> int)
    requires SortedInto(bs, |bs|, bucketOf, buckets)
    ensures BestOf(buckets, buckets.Keys, calendar, diff) == BestNames(bs, bucketOf, calendar, diff)
  {
    forall n | n in BestOf(buckets, buckets.Keys, calendar, diff) ensures n in BestNames(bs, bucketOf, calendar, diff) {
      var k :|
        k in buckets && Best(buckets[k], calendar, diff).Some? && Best(buckets[k], calendar, diff).value.name == n;
      assert InBucket(bs, |bs|, bucketOf, k) == buckets[k];
      BucketMembers(bs, |bs|, bucketOf, k);
    }
    forall n | n in BestNames(bs, bucketOf, calendar, diff) ensures n in BestOf(buckets, buckets.Keys, calendar, diff) {
      var b :|
        b in bs && bucketOf(b).Some? && Best(InBucket(bs, |bs|, bucketOf, bucketOf(b).value), calendar, diff).Some?
        && Best(InBucket(bs, |bs|, bucketOf, bucketOf(b).value), calendar, diff).value.name == n;
      var i :| 0 <= i < |bs| && bs[i] == b;
      BucketNotEmpty(bs, |bs|, bucketOf, i);
      var k := bucketOf(b).value;
      assert InBucket(bs, |bs|, bucketOf, k) == if k in buckets then buckets[k] else [];
    }
  }

  // --- who is kept, without the buckets ----------------------------------------------------------

  /** No backup of the same bucket is preferred to `b`. */
  predicate IsBestOf(bs: seq<Meta>, bucketOf: Meta -> Option<Bucket>, calendar: bool, diff: Meta -> int, b: Meta) {
    bucketOf(b).Some? &&
    forall c :: c in bs && bucketOf(c) == bucketOf(b) ==> c == b || Prefers(calendar, diff, b, c)
  }

  lemma {:induction false} InBucketAre(bs: seq<Meta>, n: nat, bucketOf: Meta -> Option<Bucket>, k: Bucket)
    requires DistinctNames(bs) && n <= |bs|
    ensures var bucket := InBucket(bs, n, bucketOf, k);
      DistinctNames(bucket) && forall c :: c in bucket <==> c in bs[..n] && bucketOf(c) == Some(k)
    decreases n
  {
    if n > 0 {
      var before := InBucket(bs, n - 1, bucketOf, k);
      InBucketAre(bs, n - 1, bucketOf, k);
      assert bs[..n] == bs[..n - 1] + [bs[n - 1]];
      forall j | 0 <= j < |before| ensures before[j].name != bs[n - 1].name {
        assert before[j] in bs[..n - 1];
      }
    }
  }

  lemma TopOfBucket(bs: seq<Meta>, bucketOf: Meta -> Option<Bucket>, calendar: bool, diff: Meta -> int, b: Meta)
    returns (top: Meta)
    requires DistinctNames(bs) && b in bs && bucketOf(b).Some?
    ensures Best(InBucket(bs, |bs|, bucketOf, bucketOf(b).value), calendar, diff) == Some(top)
    ensures top in bs && bucketOf(top) == bucketOf(b) && IsBestOf(bs, bucketOf, calendar, diff, top)
  {
    var bucket := InBucket(bs, |bs|, bucketOf, bucketOf(b).value);
    InBucketAre(bs, |bs|, bucketOf, bucketOf(b).value);
    assert bs[..|bs|] == bs;
    assert b in bucket;
    BestIsTop(bucket, calendar, diff);
    top := Best(bucket, calendar, diff).value;
  }

  lemma BestNamesAre(bs: seq<Meta>, bucketOf: Meta -> Option<Bucket>, calendar: bool, diff: Meta -> int, b: Meta)
    requires Proper(bs) && b in bs
    ensures b.name in BestNames(bs, bucketOf, calendar, diff) <==> IsBestOf(bs, bucketOf, calendar, diff, b)
  {
    if b.name in BestNames(bs, bucketOf, calendar, diff) {
      var x :|
        x in bs && bucketOf(x).Some? && Best(InBucket(bs, |bs|, bucketOf, bucketOf(x).value), calendar, diff).Some?
        && Best(InBucket(bs, |bs|, bucketOf, bucketOf(x).value), calendar, diff).value.name == b.name;
      var top := TopOfBucket(bs, bucketOf, calendar, diff, x);
      SameName(bs, top, b);
    }
    if IsBestOf(bs, bucketOf, calendar, diff, b) {
      var top := TopOfBucket(bs, bucketOf, calendar, diff, b);
      PrefersCompares(calendar, diff, b, top);
    }
  }

  /** The policy itself keeps exactly what is kept outright and what is preferred to all others of its
      week or of its month. */
  lemma KeptExactly(p: Policy, clock: Clock, bs: seq<Meta>, b: Meta)
    requires Proper(bs) && b in bs
    ensures b.name in PolicyKeeps(p, clock, bs) <==>
      || KeptOutright(p, clock, b)
      || IsBestOf(bs, x => WeekOf(clock, x), p.calendar, clock.weekDiff, b)
      || IsBestOf(bs, x => MonthOf(clock, x), p.calendar, clock.monthDiff, b)
  {
    var weekOf, monthOf := (x => WeekOf(clock, x)), (x => MonthOf(clock, x));
    OutrightAre(p, clock, bs, |bs|, b);
    assert bs[..|bs|] == bs;
    BestNamesAre(bs, weekOf, p.calendar, clock.weekDiff, b);
    BestNamesAre(bs, monthOf, p.calendar, clock.monthDiff, b);
  }

  lemma {:induction false} OutrightAre(p: Policy, clock: Clock, bs: seq<Meta>, n: nat, b: Meta)
    requires Proper(bs) && b in bs && n <= |bs|
    ensures b.name in Outright(p, clock, bs, n) <==> b in bs[..n] && KeptOutright(p, clock, b)
    decreases n
  {
    if n > 0 {
      OutrightAre(p, clock, bs, n - 1, b);
      assert bs[..n] == bs[..n - 1] + [bs[n - 1]];
      if b.name == bs[n - 1].name {
        SameName(bs, b, bs[n - 1]);
      }
    }
  }

  /** No week and no month that is retained loses its last backup of a kind to the policy. */
  lemma EveryBucketKeepsOne(p: Policy, clock: Clock, bs: seq<Meta>, b: Meta)
    returns (week: Option<Meta>, month: Option<Meta>)
    requires Proper(bs) && b in bs
    ensures WeekOf(clock, b).Some? ==>
      week.Some? && week.value in bs && WeekOf(clock, week.value) == WeekOf(clock, b)
      && week.value.name in PolicyKeeps(p, clock, bs)
    ensures MonthOf(clock, b).Some? ==>
      month.Some? && month.value in bs && MonthOf(clock, month.value) == MonthOf(clock, b)
      && month.value.name in PolicyKeeps(p, clock, bs)
  {
    week, month := None, None;
    if WeekOf(clock, b).Some? {
      var top := TopOfBucket(bs, x => WeekOf(clock, x), p.calendar, clock.weekDiff, b);
      KeptExactly(p, clock, bs, top);
      week := Some(top);
    }
    if MonthOf(clock, b).Some? {
      var top := TopOfBucket(bs, x => MonthOf(clock, x), p.calendar, clock.monthDiff, b);
      KeptExactly(p, clock, bs, top);
      month := Some(top);
    }
  }

  lemma SortedOneMore(bs: seq<Meta>, n: nat, bucketOf: Meta -> Option<Bucket>, buckets: map<Bucket, seq<Meta>>)
    requires n < |bs| && SortedInto(bs, n, bucketOf, buckets)
    ensures SortedInto(bs, n + 1, bucketOf, Sorted(buckets, bucketOf(bs[n]), bs[n]))
  {
  }

  /** The first pass: reasons of their own, and the buckets. */
  method Classify(report: Report, p: Policy, clock: Clock, bs: seq<Meta>)
    returns (weekly: map<Bucket, seq<Meta>>, monthly: map<Bucket, seq<Meta>>)
    requires report.keepReasons == map[]
    modifies report`keepReasons
    ensures KeptNames(report.keepReasons) == Outright(p, clock, bs, |bs|)
    ensures SortedInto(bs, |bs|, b => WeekOf(clock, b), weekly)
    ensures SortedInto(bs, |bs|, b => MonthOf(clock, b), monthly)
  {
    weekly, monthly := map[], map[];
    ghost var weekOf, monthOf := (b => WeekOf(clock, b)), (b => MonthOf(clock, b));
    for i := 0 to |bs|
      invariant KeptNames(report.keepReasons) == Outright(p, clock, bs, i)
      invariant SortedInto(bs, i, weekOf, weekly)
      invariant SortedInto(bs, i, monthOf, monthly)
    {
      var b := bs[i];
      SortedOneMore(bs, i, weekOf, weekly);
      SortedOneMore(bs, i, monthOf, monthly);
      if IsRunning(b) {
        continue;
      }
      if b.selective {
        report.AddKeepReason(b.name, "Selective Backup (Excluded)");
        continue;
      }
      if !clock.past(b) {
        report.AddKeepReason(b.name, "Created After Evaluation");
        continue;
      }
      if b.status == Error || b.status == Cancelled {
        if !p.purgeFailed {
          report.AddKeepReason(b.name, "Failed (Protected)");
        } else if clock.daily(b) {
          report.AddKeepReason(b.name, "Failed (Inside Daily Window)");
        }
        continue;
      }
      if clock.daily(b) {
        report.AddKeepReason(b.name, "Daily");
      }
      weekly := Sorted(weekly, WeekOf(clock, b), b);
      monthly := Sorted(monthly, MonthOf(clock, b), b);
    }
  }

  /** The report of the policy: what it keeps itself, extended to whole chains. */
  method EvaluateRetentionPolicy(p: Policy, clock: Clock, bs: seq<Meta>) returns (report: Report)
    requires Proper(bs)
    ensures fresh(report) && report.enabled == p.enabled && report.minKeep == p.minKeep && !report.aborted
    ensures report.Settled(bs)
    ensures p.enabled ==> WithChains(bs, PolicyKeeps(p, clock, bs), KeptNames(report.keepReasons))
    ensures !p.enabled ==> report.deleteTargets == []
  {
    report := new Report(p.enabled, p.minKeep);
    assert KeptNames(report.keepReasons) == {};
    if !p.enabled {
      KeepEverything(report, bs);
      return;
    }
    var weekly, monthly := Classify(report, p, clock, bs);
    KeepBest(report, weekly, p.calendar, clock.weekDiff, "Weekly");
    KeepBest(report, monthly, p.calendar, clock.monthDiff, "Monthly");
    BestOfAll(bs, b => WeekOf(clock, b), weekly, p.calendar, clock.weekDiff);
    BestOfAll(bs, b => MonthOf(clock, b), monthly, p.calendar, clock.monthDiff);
    assert KeptNames(report.keepReasons) == PolicyKeeps(p, clock, bs);
    report.ApplyIncrementalChainRules(bs);
    report.BuildBackupLists(bs);
  }

  method KeepEverything(report: Report, bs: seq<Meta>)
    requires Proper(bs)
    modifies report`keepReasons, report`backupsKept, report`backupsPurged, report`deleteTargets
    ensures report.Settled(bs) && report.deleteTargets == []
  {
    for i := 0 to |bs|
      invariant forall j :: 0 <= j < i && !IsRunning(bs[j]) ==> bs[j].name in KeptNames(report.keepReasons)
    {
      if IsRunning(bs[i]) {
        continue;
      }
      report.AddKeepReason(bs[i].name, "Lifecycle Disabled");
    }
    NoTargets(bs, KeptNames(report.keepReasons));
    report.BuildBackupLists(bs);
  }

  lemma {:induction false} NoTargets(bs: seq<Meta>, kept: set<string>)
    requires forall b :: b in bs && !IsRunning(b) ==> b.name in kept
    ensures TargetList(bs, kept) == []
    decreases |bs|
  {
    if bs != [] {
      assert bs == bs[..|bs| - 1] + [bs[|bs| - 1]];
      NoTargets(bs[..|bs| - 1], kept);
    }
  }
}
