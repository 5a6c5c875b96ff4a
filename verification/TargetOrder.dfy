/** The order in which a report is executed (pbm/lifecycle/manager.go): the targets are listed by the
    newest time that their unit restores to, newest first, and the agent runs through them backwards. */
module TargetOrder {
  import opened Options
  import opened Timestamps
  import opened Backups
  import opened Lifecycle
  import R = Retention

  /** The newest time that the done backups with this target restore to, among the first `n`; zero if
      there is none. */
  function RestoreTimeOf(bs: seq<Meta>, n: nat, t: string): Timestamp
    requires Proper(bs) && n <= |bs|
  {
    if n == 0 then ZeroTS
    else
      var b, time := bs[n - 1], RestoreTimeOf(bs, n - 1, t);
      if IsRestoreTimeOf(bs, b, t) && Before(time, b.lastWriteTS) then b.lastWriteTS else time
  }

  predicate IsRestoreTimeOf(bs: seq<Meta>, b: Meta, t: string)
    requires Proper(bs) && b in bs
  {
    TargetOf(bs, b) == Some(t) && b.status == Done
  }

  function RestoreTime(bs: seq<Meta>, t: string): Timestamp
    requires Proper(bs)
  {
    RestoreTimeOf(bs, |bs|, t)
  }

  lemma {:induction false} RestoreTimeUpTo(bs: seq<Meta>, n: nat, t: string)
    requires Proper(bs) && n <= |bs|
    ensures var time := RestoreTimeOf(bs, n, t);
      && (forall i :: 0 <= i < n && IsRestoreTimeOf(bs, bs[i], t) ==> AtMost(bs[i].lastWriteTS, time))
      && (time == ZeroTS || exists i :: 0 <= i < n && IsRestoreTimeOf(bs, bs[i], t) && bs[i].lastWriteTS == time)
    decreases n
  {
    if n > 0 {
      RestoreTimeUpTo(bs, n - 1, t);
    }
  }

  /** No done backup of the unit is newer, and one of them is as new. */
  lemma RestoreTimeIs(bs: seq<Meta>, t: string)
    requires Proper(bs)
    ensures forall b :: b in bs && IsRestoreTimeOf(bs, b, t) ==> AtMost(b.lastWriteTS, RestoreTime(bs, t))
    ensures RestoreTime(bs, t) == ZeroTS ||
            exists b :: b in bs && IsRestoreTimeOf(bs, b, t) && b.lastWriteTS == RestoreTime(bs, t)
  {
    RestoreTimeUpTo(bs, |bs|, t);
    if RestoreTime(bs, t) != ZeroTS {
      var i :| 0 <= i < |bs| && IsRestoreTimeOf(bs, bs[i], t) && bs[i].lastWriteTS == RestoreTime(bs, t);
      assert bs[i] in bs;
    }
  }

  /** The times that the program collects in a map; a name that is not in it has time zero. */
  type Times = map<string, Timestamp>

  function TimeIn(times: Times, t: string): Timestamp {
    if t in times then times[t] else ZeroTS
  }

  /** `a` does not come behind `b`. */
  predicate NotBehind(times: Times, a: string, b: string) {
    Before(TimeIn(times, b), TimeIn(times, a)) || (TimeIn(times, a) == TimeIn(times, b) && !R.NameBefore(a, b))
  }

  predicate InOrder(times: Times, targets: seq<string>) {
    forall i, j :: 0 <= i < j < |targets| ==> NotBehind(times, targets[i], targets[j])
  }

  lemma {:induction false} NameOrder(a: string, b: string, c: string)
    ensures !(R.NameBefore(a, b) && R.NameBefore(b, a))
    ensures !R.NameBefore(a, b) && !R.NameBefore(b, c) ==> !R.NameBefore(a, c)
    decreases |a|
  {
    if a != [] && b != [] && c != [] {
      NameOrder(a[1..], b[1..], c[1..]);
    } else if a != [] && b != [] {
      NameOrder(a[1..], b[1..], []);
    }
  }

  function Insert(times: Times, t: string, targets: seq<string>): (r: seq<string>)
    ensures multiset(r) == multiset(targets) + multiset{t}
  {
    if targets == [] then [t]
    else if NotBehind(times, t, targets[0]) then [t] + targets
    else
      assert targets == [targets[0]] + targets[1..];
      [targets[0]] + Insert(times, t, targets[1..])
  }

  lemma {:induction false} InsertKeepsOrder(times: Times, t: string, targets: seq<string>)
    requires InOrder(times, targets)
    ensures InOrder(times, Insert(times, t, targets))
    decreases |targets|
  {
    if targets == [] {
    } else if NotBehind(times, t, targets[0]) {
      forall j | 0 <= j < |targets| ensures NotBehind(times, t, targets[j]) {
        NotBehindChain(times, t, targets[0], targets[j]);
      }
      FrontInOrder(times, t, targets);
    } else {
      var rest := Insert(times, t, targets[1..]);
      InsertKeepsOrder(times, t, targets[1..]);
      NotBehindChain(times, targets[0], t, targets[0]);
      forall j | 0 <= j < |rest| ensures NotBehind(times, targets[0], rest[j]) {
        assert rest[j] in multiset(rest);
        assert rest[j] == t || rest[j] in targets[1..];
      }
      FrontInOrder(times, targets[0], rest);
    }
  }

  lemma NotBehindChain(times: Times, a: string, b: string, c: string)
    ensures NotBehind(times, a, b) || NotBehind(times, b, a)
    ensures NotBehind(times, a, b) && NotBehind(times, b, c) ==> NotBehind(times, a, c)
    ensures NotBehind(times, a, a)
  {
    NameOrder(a, b, c);
    NameOrder(a, a, a);
  }

  lemma FrontInOrder(times: Times, t: string, targets: seq<string>)
    requires InOrder(times, targets) && forall j :: 0 <= j < |targets| ==> NotBehind(times, t, targets[j])
    ensures InOrder(times, [t] + targets)
  {
  }

  function Sorted(times: Times, targets: seq<string>): (r: seq<string>)
    ensures multiset(r) == multiset(targets)
  {
    if targets == [] then []
    else
      assert targets == targets[..|targets| - 1] + [targets[|targets| - 1]];
      Insert(times, targets[|targets| - 1], Sorted(times, targets[..|targets| - 1]))
  }

  lemma {:induction false} SortedIsInOrder(times: Times, targets: seq<string>)
    ensures InOrder(times, Sorted(times, targets))
    decreases |targets|
  {
    if targets != [] {
      SortedIsInOrder(times, targets[..|targets| - 1]);
      InsertKeepsOrder(times, targets[|targets| - 1], Sorted(times, targets[..|targets| - 1]));
    }
  }

  /** Target `t` may be listed before `u`: it is newer, or of the same time and not of a lesser name. */
  predicate MayPrecede(bs: seq<Meta>, t: string, u: string)
    requires Proper(bs)
  {
    Before(RestoreTime(bs, u), RestoreTime(bs, t)) || (RestoreTime(bs, t) == RestoreTime(bs, u) && !R.NameBefore(t, u))
  }

  /** Newest first. */
  predicate NewestFirst(bs: seq<Meta>, targets: seq<string>)
    requires Proper(bs)
  {
    forall i, j {:trigger MayPrecede(bs, targets[i], targets[j])} :: 0 <= i < j < |targets| ==>
      MayPrecede(bs, targets[i], targets[j])
  }

  predicate TimesUpTo(bs: seq<Meta>, n: nat, targets: seq<string>, times: Times)
    requires Proper(bs) && n <= |bs|
  {
    forall t :: t in targets ==> TimeIn(times, t) == RestoreTimeOf(bs, n, t)
  }

  method CollectTimes(bs: seq<Meta>, targets: seq<string>) returns (times: Times)
    requires Proper(bs)
    ensures TimesUpTo(bs, |bs|, targets, times)
  {
    times := map[];
    ByNameFinds(bs);
    var byName := ByName(bs);
    for i := 0 to |bs|
      invariant TimesUpTo(bs, i, targets, times)
    {
      var b := bs[i];
      var target := b.name;
      if b.kind == Incremental {
        var base := FindIncrementalBase(b, byName);
        if base.None? {
          continue;
        }
        target := base.value.name;
      }
      if target !in targets {
        continue;
      }
      if b.status == Done && Before(TimeIn(times, target), b.lastWriteTS) {
        times := times[target := b.lastWriteTS];
      }
    }
  }

  /** The same targets, in the order of their times. */
  method SortDeleteTargets(report: Report, bs: seq<Meta>)
    requires Proper(bs)
    modifies report`deleteTargets
    ensures multiset(report.deleteTargets) == multiset(old(report.deleteTargets))
    ensures NewestFirst(bs, report.deleteTargets)
  {
    if |report.deleteTargets| < 2 {
      return;
    }
    var times := CollectTimes(bs, report.deleteTargets);
    SortedIsInOrder(times, report.deleteTargets);
    SameMembers(Sorted(times, report.deleteTargets), report.deleteTargets);
    report.deleteTargets := Sorted(times, report.deleteTargets);
  }

  lemma SameMembers<T>(a: seq<T>, b: seq<T>)
    requires multiset(a) == multiset(b)
    ensures |a| == |b| && forall x :: x in a <==> x in b
  {
    assert |multiset(a)| == |a| && |multiset(b)| == |b|;
    forall x ensures x in a <==> x in b {
      assert x in multiset(a) <==> x in a;
      assert x in multiset(b) <==> x in b;
    }
  }
}
