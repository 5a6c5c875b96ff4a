/** How the retention policy reads dates (pbm/lifecycle/manager.go): the daily window, rolling buckets of
    7 and 30 days, calendar weeks and months, and the wanted day in each. All times are seconds (UTC). */
module Buckets {
  import opened Options
  import opened Backups
  import opened Lifecycle
  import opened Retention
  import C = Calendar

  datatype Config = Config(
    enabled: bool, minKeep: int, purgeFailed: bool, calendar: bool,
    dailyRetention: int, weeklyRetention: int, weeklyDay: int, monthlyRetention: int, monthlyDay: int)

  /** What the validation of the configuration lets through. */
  predicate IsValid(cfg: Config) {
    && cfg.dailyRetention >= 0 && cfg.weeklyRetention >= 0 && cfg.monthlyRetention >= 0 && cfg.minKeep >= 0
    && (cfg.calendar && cfg.weeklyRetention > 0 ==> 0 <= cfg.weeklyDay <= 6)
    && (cfg.calendar && cfg.monthlyRetention > 0 ==> 1 <= cfg.monthlyDay <= 31)
  }

  // ---------------------------------------------------------------------------------------------
  // Days, weeks and months
  // ---------------------------------------------------------------------------------------------

  function Day(t: int): int {
    t / C.DAY
  }

  /** 0 is Sunday; the first day of 1970 was a Thursday. */
  function Weekday(day: int): int {
    (day + 4) % 7
  }

  function WeekStart(day: int): int {
    day - (Weekday(day) + 6) % 7
  }

  const ERA := 146097

  /** The date of any day, also before 1970: the calendar repeats after 400 years. */
  function DateOn(day: int): C.Date {
    var date := C.DateOf(day % ERA);
    C.Date(date.y + 400 * (day / ERA), date.m, date.d)
  }

  function MonthStart(date: C.Date): int
    requires 1 <= date.m <= 12
  {
    C.DaysBeforeYear(date.y) + C.DaysBeforeMonth(date.y, date.m)
  }

  lemma YearsRepeat(y: int, e: int)
    ensures C.IsLeap(y + 400 * e) == C.IsLeap(y) && C.Leaps(y + 400 * e) == C.Leaps(y) + 97 * e
  {
    assert (y + 400 * e) / 4 == y / 4 + 100 * e && (y + 400 * e) % 4 == y % 4;
    assert (y + 400 * e) / 100 == y / 100 + 4 * e && (y + 400 * e) % 100 == y % 100;
    assert (y + 400 * e) / 400 == y / 400 + e && (y + 400 * e) % 400 == y % 400;
  }

  lemma {:induction false} MonthsRepeat(y: int, e: int, m: int)
    requires 1 <= m <= 12
    ensures C.DaysBeforeMonth(y + 400 * e, m) == C.DaysBeforeMonth(y, m)
    decreases m
  {
    YearsRepeat(y, e);
    if m > 1 {
      MonthsRepeat(y, e, m - 1);
    }
  }

  lemma EraRepeats(y: int, e: int)
    ensures C.IsLeap(y + 400 * e) == C.IsLeap(y) && C.DaysBeforeYear(y + 400 * e) == C.DaysBeforeYear(y) + ERA * e
  {
    YearsRepeat(y, e);
    assert y + 400 * e - 1 == (y - 1) + 400 * e;
    YearsRepeat(y - 1, e);
  }

  /** The date of a day is a date, and it is the date of that day. */
  lemma DateOnIs(day: int)
    ensures C.IsDate(DateOn(day)) && C.DaysOf(DateOn(day)) == day
  {
    C.DayReadsBack(day % ERA);
    var date := C.DateOf(day % ERA);
    EraRepeats(date.y, day / ERA);
    MonthsRepeat(date.y, day / ERA, date.m);
  }

  // ---------------------------------------------------------------------------------------------
  // Buckets
  // ---------------------------------------------------------------------------------------------

  function RollingBucket(now: int, t: int, days: int): int
    requires days > 0
  {
    (if now - t < 0 then 0 else now - t) / (days * C.DAY)
  }

  function WeekBucket(now: int, t: int): int {
    (WeekStart(Day(now)) - WeekStart(Day(t))) / 7
  }

  function MonthBucket(now: int, t: int): int {
    var a, b := DateOn(Day(now)), DateOn(Day(t));
    (a.y - b.y) * 12 + (a.m - b.m)
  }

  function IfRetained(retention: int, bucket: int): Option<int> {
    if retention > 0 && 0 <= bucket < retention then Some(bucket) else None
  }

  /** The wanted day in the week of `t`. */
  function WeekTarget(t: int, targetDay: int): int {
    WeekStart(Day(t)) + (targetDay - 1 + 7) % 7
  }

  /** The wanted day in the month of `t`, or the last one of a shorter month. */
  function MonthTarget(t: int, targetDay: int): int {
    DateOnIs(Day(t));
    var date := DateOn(Day(t));
    var last := C.MonthLength(date.y, date.m);
    MonthStart(date) + (if targetDay > last then last else targetDay) - 1
  }

  function Distance(a: int, b: int): int {
    if a - b < 0 then b - a else a - b
  }

  function WeeklyBucket(cfg: Config, now: int, t: int): int {
    if cfg.calendar then WeekBucket(now, t) else RollingBucket(now, t, 7)
  }

  function MonthlyBucket(cfg: Config, now: int, t: int): int {
    if cfg.calendar then MonthBucket(now, t) else RollingBucket(now, t, 30)
  }

  /** What the dates mean at `now`. */
  function ClockAt(cfg: Config, now: int): Clock {
    Clock(
      (b: Meta) => b.startTS < now,
      (b: Meta) => cfg.dailyRetention > 0 && b.startTS >= now - cfg.dailyRetention * C.DAY,
      (b: Meta) => IfRetained(cfg.weeklyRetention, WeeklyBucket(cfg, now, b.startTS)),
      (b: Meta) => IfRetained(cfg.monthlyRetention, MonthlyBucket(cfg, now, b.startTS)),
      (b: Meta) => Distance(Day(b.startTS), WeekTarget(b.startTS, cfg.weeklyDay)),
      (b: Meta) => Distance(Day(b.startTS), MonthTarget(b.startTS, cfg.monthlyDay)))
  }

  function PolicyOf(cfg: Config): Policy {
    Policy(cfg.enabled, cfg.minKeep, cfg.purgeFailed, cfg.calendar)
  }

  // --- what the buckets are --------------------------------------------------------------------

  /** A rolling bucket holds the ages from `k` widths up to, but not including, `k + 1` widths. */
  lemma RollingBucketIs(now: int, t: int, days: int, k: int)
    requires days > 0 && t <= now
    ensures RollingBucket(now, t, days) == k <==> k * (days * C.DAY) <= now - t < (k + 1) * (days * C.DAY)
  {
    var width, age := days * C.DAY, now - t;
    var q := age / width;
    assert q * width <= age < (q + 1) * width;
    if k < q {
      assert (k + 1) * width <= q * width by { Scales(k + 1, q, width); }
    } else if k > q {
      assert (q + 1) * width <= k * width by { Scales(q + 1, k, width); }
    }
  }

  lemma Scales(a: int, b: int, width: int)
    requires a <= b && width > 0
    ensures a * width <= b * width
  {
  }

  /** Weeks run from Monday to Sunday, and bucket `k` is the week `k` weeks before the current one. */
  lemma WeekBucketIs(now: int, t: int, k: int)
    ensures WeekBucket(now, t) == k <==> WeekStart(Day(now)) - 7 * k <= Day(t) <= WeekStart(Day(now)) - 7 * k + 6
    ensures Weekday(WeekStart(Day(t))) == 1
  {
    WeekStartIs(Day(now));
    WeekStartIs(Day(t));
  }

  lemma WeekStartIs(day: int)
    ensures var w := (day + 3) / 7;
      WeekStart(day) == 7 * w - 3 && 7 * w - 3 <= day <= 7 * w + 3
  {
    assert (Weekday(day) + 6) % 7 == (day + 3) % 7;
  }

  /** Two backups are in the same monthly bucket exactly if they started in the same month of the same
      year, and bucket 0 is the current month. */
  lemma MonthBucketIs(now: int, a: int, b: int)
    ensures MonthBucket(now, a) == MonthBucket(now, b) <==>
      DateOn(Day(a)).y == DateOn(Day(b)).y && DateOn(Day(a)).m == DateOn(Day(b)).m
    ensures MonthBucket(now, now) == 0
  {
    DateOnIs(Day(a));
    DateOnIs(Day(b));
  }

  /** A later month lies behind all of an earlier one. */
  lemma MonthsInOrder(a: C.Date, b: C.Date)
    requires C.IsDate(a) && C.IsDate(b) && 12 * a.y + a.m < 12 * b.y + b.m
    ensures C.DaysOf(a) < C.DaysOf(b)
  {
    if a.y == b.y {
      C.MonthsGrow(a.y, a.m, b.m);
    } else {
      C.YearsGrow(a.y + 1, b.y);
      C.YearByYear(a.y);
      C.YearIsMonths(a.y);
      if a.m < 12 {
        C.MonthsGrow(a.y, a.m, 12);
      }
      MonthsNotNegative(b.y, b.m);
    }
  }

  lemma {:induction false} MonthsNotNegative(y: int, m: int)
    requires 1 <= m <= 12
    ensures C.DaysBeforeMonth(y, m) >= 0
    decreases m
  {
    if m > 1 {
      MonthsNotNegative(y, m - 1);
    }
  }

  /** The older a backup, the higher its bucket, in every way of counting. */
  lemma OlderIsHigher(now: int, a: int, b: int, days: int)
    requires a <= b && days > 0
    ensures RollingBucket(now, a, days) >= RollingBucket(now, b, days)
    ensures WeekBucket(now, a) >= WeekBucket(now, b)
    ensures MonthBucket(now, a) >= MonthBucket(now, b)
  {
    QuotientGrows(if now - b < 0 then 0 else now - b, if now - a < 0 then 0 else now - a, days * C.DAY);
    assert Day(a) <= Day(b);
    OlderIsEarlierWeek(now, a, b);
    OlderIsEarlierMonth(now, a, b);
  }

  lemma OlderIsEarlierWeek(now: int, a: int, b: int)
    requires Day(a) <= Day(b)
    ensures WeekBucket(now, a) >= WeekBucket(now, b)
  {
    WeekStartIs(Day(now));
    WeekStartIs(Day(a));
    WeekStartIs(Day(b));
  }

  lemma OlderIsEarlierMonth(now: int, a: int, b: int)
    requires Day(a) <= Day(b)
    ensures MonthBucket(now, a) >= MonthBucket(now, b)
  {
    var x, y := DateOn(Day(a)), DateOn(Day(b));
    DateOnIs(Day(a));
    DateOnIs(Day(b));
    if 12 * x.y + x.m > 12 * y.y + y.m {
      MonthsInOrder(y, x);
    }
  }

  lemma QuotientGrows(a: int, b: int, width: int)
    requires 0 <= a <= b && width > 0
    ensures a / width <= b / width
  {
    var p, q := a / width, b / width;
    assert p * width <= a && b < (q + 1) * width;
    if p > q {
      Scales(q + 1, p, width);
    }
  }

  // --- the wanted day --------------------------------------------------------------------------

  /** All backups of a week are measured against the same day, which is the wanted day of that week. */
  lemma {:induction false} OneWeekTarget(now: int, a: int, b: int, targetDay: int)
    requires 0 <= targetDay <= 6
    ensures WeekBucket(now, a) == WeekBucket(now, b) ==> WeekTarget(a, targetDay) == WeekTarget(b, targetDay)
    ensures Weekday(WeekTarget(a, targetDay)) == targetDay
    ensures WeekStart(WeekTarget(a, targetDay)) == WeekStart(Day(a))
  {
    SameWeek(now, a, b);
    WeekStartIs(Day(a));
    DayOfWeek((Day(a) + 3) / 7, (targetDay - 1 + 7) % 7);
  }

  lemma SameWeek(now: int, a: int, b: int)
    ensures WeekBucket(now, a) == WeekBucket(now, b) ==> WeekStart(Day(a)) == WeekStart(Day(b))
  {
    WeekStartIs(Day(now));
    WeekStartIs(Day(a));
    WeekStartIs(Day(b));
  }

  lemma DayOfWeek(w: int, offset: int)
    requires 0 <= offset <= 6
    ensures Weekday(7 * w - 3 + offset) == (offset + 1) % 7 && WeekStart(7 * w - 3 + offset) == 7 * w - 3
  {
    assert (7 * w + 1 + offset) % 7 == (1 + offset) % 7;
  }

  /** All backups of a month are measured against the same day, which lies in that month and is the
      wanted one, or the last if the month is too short. */
  lemma OneMonthTarget(now: int, a: int, b: int, targetDay: int)
    requires 1 <= targetDay <= 31
    ensures MonthBucket(now, a) == MonthBucket(now, b) ==> MonthTarget(a, targetDay) == MonthTarget(b, targetDay)
    ensures var date, last := DateOn(Day(a)), C.MonthLength(DateOn(Day(a)).y, DateOn(Day(a)).m);
      DateOn(MonthTarget(a, targetDay)) == C.Date(date.y, date.m, if targetDay > last then last else targetDay)
  {
    MonthBucketIs(now, a, b);
    DateOnIs(Day(a));
    DateOnIs(MonthTarget(a, targetDay));
    var date := DateOn(Day(a));
    var last := C.MonthLength(date.y, date.m);
    var wanted := C.Date(date.y, date.m, if targetDay > last then last else targetDay);
    OneDateADay(DateOn(MonthTarget(a, targetDay)), wanted);
  }

  lemma OneDateADay(a: C.Date, b: C.Date)
    requires C.IsDate(a) && C.IsDate(b) && C.DaysOf(a) == C.DaysOf(b)
    ensures a == b
  {
    if 12 * a.y + a.m < 12 * b.y + b.m {
      MonthsInOrder(a, b);
    } else if 12 * a.y + a.m > 12 * b.y + b.m {
      MonthsInOrder(b, a);
    } else {
      assert a.y == b.y && a.m == b.m;
    }
  }

  // --- what the policy keeps -------------------------------------------------------------------

  /** With a calendar, the backup kept of a week is as near to the wanted day as any of its kind in that
      week; and a backup of the wanted day is passed over only for another one of that day. */
  lemma KeptIsNearest(cfg: Config, now: int, bs: seq<Meta>, b: Meta, c: Meta)
    requires IsValid(cfg) && cfg.calendar && b in bs && c in bs
    ensures var clock := ClockAt(cfg, now);
      IsBestOf(bs, x => WeekOf(clock, x), true, clock.weekDiff, b) && WeekOf(clock, c) == WeekOf(clock, b) ==>
        && WeekTarget(b.startTS, cfg.weeklyDay) == WeekTarget(c.startTS, cfg.weeklyDay)
        && clock.weekDiff(b) <= clock.weekDiff(c)
        && (Weekday(Day(c.startTS)) == cfg.weeklyDay ==> Weekday(Day(b.startTS)) == cfg.weeklyDay)
  {
    var clock := ClockAt(cfg, now);
    var weekOf := (x => WeekOf(clock, x));
    if IsBestOf(bs, weekOf, true, clock.weekDiff, b) && WeekOf(clock, c) == WeekOf(clock, b) {
      OneWeekTarget(now, b.startTS, c.startTS, cfg.weeklyDay);
      OneWeekTarget(now, c.startTS, b.startTS, cfg.weeklyDay);
      assert weekOf(c) == weekOf(b);
      WeekdayMeetsTarget(c.startTS, cfg.weeklyDay);
      WeekdayMeetsTarget(b.startTS, cfg.weeklyDay);
    }
  }

  lemma WeekdayMeetsTarget(t: int, targetDay: int)
    requires 0 <= targetDay <= 6
    ensures Weekday(Day(t)) == targetDay <==> Day(t) == WeekTarget(t, targetDay)
  {
    WeekStartIs(Day(t));
    OneWeekTarget(t, t, t, targetDay);
  }

  /** In dates: the policy keeps every backup of the daily window that has not failed; and of each kind one
      backup from every retained week that has any, seven days counted back from now or from a Monday. */
  lemma EveryWeekKeepsOne(cfg: Config, now: int, bs: seq<Meta>, c: Meta) returns (b: Meta)
    requires IsValid(cfg) && Proper(bs) && c in bs && Competes(ClockAt(cfg, now), c)
    requires 0 <= WeeklyBucket(cfg, now, c.startTS) < cfg.weeklyRetention
    ensures b in bs && b.kind == c.kind && b.name in PolicyKeeps(PolicyOf(cfg), ClockAt(cfg, now), bs)
    ensures cfg.calendar ==> WeekStart(Day(b.startTS)) == WeekStart(Day(c.startTS))
    ensures !cfg.calendar ==> SameAge(now, b.startTS, c.startTS, 7)
    ensures 0 < cfg.dailyRetention && now - c.startTS <= cfg.dailyRetention * C.DAY ==>
      c.name in PolicyKeeps(PolicyOf(cfg), ClockAt(cfg, now), bs)
  {
    var clock := ClockAt(cfg, now);
    assert WeekOf(clock, c).Some?;
    var week, _ := EveryBucketKeepsOne(PolicyOf(cfg), clock, bs, c);
    b := week.value;
    assert WeeklyBucket(cfg, now, b.startTS) == WeeklyBucket(cfg, now, c.startTS);
    SameWeek(now, b.startTS, c.startTS);
    SameRolling(now, b.startTS, c.startTS, 7);
    KeptExactly(PolicyOf(cfg), clock, bs, c);
  }

  /** And one from every retained month, of thirty days or of the calendar. */
  lemma EveryMonthKeepsOne(cfg: Config, now: int, bs: seq<Meta>, c: Meta) returns (b: Meta)
    requires IsValid(cfg) && Proper(bs) && c in bs && Competes(ClockAt(cfg, now), c)
    requires 0 <= MonthlyBucket(cfg, now, c.startTS) < cfg.monthlyRetention
    ensures b in bs && b.kind == c.kind && b.name in PolicyKeeps(PolicyOf(cfg), ClockAt(cfg, now), bs)
    ensures cfg.calendar ==>
      DateOn(Day(b.startTS)).y == DateOn(Day(c.startTS)).y && DateOn(Day(b.startTS)).m == DateOn(Day(c.startTS)).m
    ensures !cfg.calendar ==> SameAge(now, b.startTS, c.startTS, 30)
  {
    var clock := ClockAt(cfg, now);
    assert MonthOf(clock, c).Some?;
    var _, month := EveryBucketKeepsOne(PolicyOf(cfg), clock, bs, c);
    b := month.value;
    assert MonthlyBucket(cfg, now, b.startTS) == MonthlyBucket(cfg, now, c.startTS);
    MonthBucketIs(now, b.startTS, c.startTS);
    SameRolling(now, b.startTS, c.startTS, 30);
  }

  /** Both ages lie between the same multiples of so many days. */
  ghost predicate SameAge(now: int, a: int, b: int, days: int) {
    exists k :: IsAge(now, a, days, k) && IsAge(now, b, days, k)
  }

  predicate IsAge(now: int, t: int, days: int, k: int) {
    k * (days * C.DAY) <= now - t < (k + 1) * (days * C.DAY)
  }

  lemma SameRolling(now: int, a: int, b: int, days: int)
    requires days > 0 && a <= now && b <= now
    ensures RollingBucket(now, a, days) == RollingBucket(now, b, days) ==> SameAge(now, a, b, days)
  {
    var k := RollingBucket(now, b, days);
    RollingBucketIs(now, a, days, k);
    RollingBucketIs(now, b, days, k);
    assert IsAge(now, b, days, k);
  }

  // --- what the policy keeps, in dates -----------------------------------------------------------

  /** Weekdays are counted from Sunday, and the fourth day of 1970 was one. */
  predicate FallsOn(day: int, weekday: int) {
    (day - 3) % 7 == weekday
  }

  predicate InWeekFrom(monday: int, day: int) {
    FallsOn(monday, 1) && monday <= day <= monday + 6
  }

  /** The day of `t` is in the week that began `k` weeks before the Monday of this week. */
  ghost predicate WeeksAgo(now: int, t: int, k: int) {
    exists monday :: InWeekFrom(monday, now / C.DAY) && InWeekFrom(monday - 7 * k, t / C.DAY)
  }

  predicate MonthsAgo(now: int, t: int, k: int) {
    var a, b := DateOn(now / C.DAY), DateOn(t / C.DAY);
    12 * a.y + a.m == 12 * b.y + b.m + k
  }

  /** Week `k` before `now`: of the calendar, or seven days counted back. */
  ghost predicate InWeek(cfg: Config, now: int, t: int, k: int) {
    if cfg.calendar then WeeksAgo(now, t, k) else IsAge(now, t, 7, k)
  }

  predicate InMonth(cfg: Config, now: int, t: int, k: int) {
    if cfg.calendar then MonthsAgo(now, t, k) else IsAge(now, t, 30, k)
  }

  /** The wanted weekday in the week of `day`. */
  ghost predicate IsWantedOfWeek(cfg: Config, day: int, wanted: int) {
    FallsOn(wanted, cfg.weeklyDay) && exists monday :: InWeekFrom(monday, day) && InWeekFrom(monday, wanted)
  }

  /** The wanted day in the month of `day`, or the last of a shorter month. */
  predicate IsWantedOfMonth(cfg: Config, day: int, wanted: int) {
    var a, w := DateOn(day), DateOn(wanted);
    w.y == a.y && w.m == a.m &&
    (w.d == cfg.monthlyDay || (w.d < cfg.monthlyDay && w.d == C.MonthLength(a.y, a.m)))
  }

  predicate IsNearer(a: int, b: int, wanted: int) {
    -(b - wanted) < a - wanted < b - wanted || b - wanted < a - wanted < -(b - wanted)
  }

  predicate IsAsNear(a: int, b: int, wanted: int) {
    a - wanted == b - wanted || a - wanted == -(b - wanted)
  }

  /** Against the wanted day, `b` is nearer than `c`, or as near and newer. */
  ghost predicate WinsNear(b: Meta, c: Meta, wanted: int) {
    var x, y := b.startTS / C.DAY, c.startTS / C.DAY;
    IsNearer(x, y, wanted) || (IsAsNear(x, y, wanted) && IsNewer(b, c))
  }

  ghost predicate WinsWeek(cfg: Config, b: Meta, c: Meta) {
    if cfg.calendar then exists w :: IsWantedOfWeek(cfg, b.startTS / C.DAY, w) && WinsNear(b, c, w) else IsNewer(b, c)
  }

  ghost predicate WinsMonth(cfg: Config, b: Meta, c: Meta) {
    if cfg.calendar then exists w :: IsWantedOfMonth(cfg, b.startTS / C.DAY, w) && WinsNear(b, c, w) else IsNewer(b, c)
  }

  /** Weekly and monthly backups are chosen among the finished full ones from before `now`. */
  predicate IsEligible(now: int, b: Meta) {
    b.status == Done && !b.selective && b.startTS < now
  }

  ghost predicate IsRivalInWeek(cfg: Config, now: int, kind: Kind, k: int, c: Meta) {
    IsEligible(now, c) && c.kind == kind && InWeek(cfg, now, c.startTS, k)
  }

  ghost predicate IsRivalInMonth(cfg: Config, now: int, kind: Kind, k: int, c: Meta) {
    IsEligible(now, c) && c.kind == kind && InMonth(cfg, now, c.startTS, k)
  }

  /** `b` is in week `k` and wins against every other one of its kind there. */
  ghost predicate HoldsWeek(cfg: Config, now: int, bs: seq<Meta>, b: Meta, k: int) {
    && IsRivalInWeek(cfg, now, b.kind, k, b)
    && forall c :: c in bs && c != b && IsRivalInWeek(cfg, now, b.kind, k, c) ==> WinsWeek(cfg, b, c)
  }

  ghost predicate HoldsMonth(cfg: Config, now: int, bs: seq<Meta>, b: Meta, k: int) {
    && IsRivalInMonth(cfg, now, b.kind, k, b)
    && forall c :: c in bs && c != b && IsRivalInMonth(cfg, now, b.kind, k, c) ==> WinsMonth(cfg, b, c)
  }

  ghost predicate IsWeekly(cfg: Config, now: int, bs: seq<Meta>, b: Meta) {
    exists k :: 0 <= k < cfg.weeklyRetention && HoldsWeek(cfg, now, bs, b, k)
  }

  ghost predicate IsMonthly(cfg: Config, now: int, bs: seq<Meta>, b: Meta) {
    exists k :: 0 <= k < cfg.monthlyRetention && HoldsMonth(cfg, now, bs, b, k)
  }

  predicate IsRecent(cfg: Config, now: int, b: Meta) {
    0 < cfg.dailyRetention && now - b.startTS <= cfg.dailyRetention * C.DAY
  }

  lemma MondayIs(day: int, monday: int)
    ensures InWeekFrom(monday, day) <==> monday == WeekStart(day)
  {
    WeekStartIs(day);
    var w, v := (day + 3) / 7, (monday - 3) / 7;
    if FallsOn(monday, 1) {
      assert monday == 7 * (v + 1) - 3;
    }
    assert (7 * w - 6) % 7 == 1;
  }

  lemma WeeksAgoIs(now: int, t: int, k: int)
    ensures WeeksAgo(now, t, k) <==> WeekBucket(now, t) == k
  {
    var monday := WeekStart(Day(now));
    forall m { MondayIs(Day(now), m); }
    forall m { MondayIs(Day(t), m); }
    WeekStartIs(Day(now));
    WeekStartIs(Day(t));
    if WeekBucket(now, t) == k {
      assert InWeekFrom(monday, Day(now)) && InWeekFrom(monday - 7 * k, Day(t));
    }
  }

  /** A week of each way of counting is told by its bucket. */
  lemma WeekIsBucket(cfg: Config, now: int, t: int, k: int)
    requires t < now
    ensures InWeek(cfg, now, t, k) <==> WeeklyBucket(cfg, now, t) == k
  {
    if cfg.calendar {
      WeeksAgoIs(now, t, k);
    } else {
      RollingBucketIs(now, t, 7, k);
    }
  }

  lemma MonthIsBucket(cfg: Config, now: int, t: int, k: int)
    requires t < now
    ensures InMonth(cfg, now, t, k) <==> MonthlyBucket(cfg, now, t) == k
  {
    RollingBucketIs(now, t, 30, k);
  }

  lemma WantedOfWeekIs(cfg: Config, t: int, wanted: int)
    requires 0 <= cfg.weeklyDay <= 6
    ensures IsWantedOfWeek(cfg, Day(t), wanted) <==> wanted == WeekTarget(t, cfg.weeklyDay)
  {
    var target, monday := WeekTarget(t, cfg.weeklyDay), WeekStart(Day(t));
    OneWeekTarget(t, t, t, cfg.weeklyDay);
    WeekdayIs(target, cfg.weeklyDay);
    MondayIs(target, monday);
    forall m { MondayIs(Day(t), m); }
    assert InWeekFrom(monday, Day(t)) && InWeekFrom(monday, target);
    if IsWantedOfWeek(cfg, Day(t), wanted) {
      OneDayAWeek(monday, wanted, target, cfg.weeklyDay);
    }
  }

  lemma WeekdayIs(day: int, weekday: int)
    ensures FallsOn(day, weekday) <==> Weekday(day) == weekday
  {
    assert day + 4 == day - 3 + 7;
  }

  lemma OneDayAWeek(monday: int, a: int, b: int, weekday: int)
    requires InWeekFrom(monday, a) && InWeekFrom(monday, b) && FallsOn(a, weekday) && FallsOn(b, weekday)
    ensures a == b
  {
    var x, y := (a - 3) / 7, (b - 3) / 7;
    assert a - b == 7 * (x - y);
  }

  lemma WantedOfMonthIs(cfg: Config, t: int, wanted: int)
    requires 1 <= cfg.monthlyDay <= 31
    ensures IsWantedOfMonth(cfg, Day(t), wanted) <==> wanted == MonthTarget(t, cfg.monthlyDay)
  {
    OneMonthTarget(t, t, t, cfg.monthlyDay);
    DateOnIs(Day(t));
    DateOnIs(wanted);
    DateOnIs(MonthTarget(t, cfg.monthlyDay));
    if IsWantedOfMonth(cfg, Day(t), wanted) {
      assert DateOn(wanted) == DateOn(MonthTarget(t, cfg.monthlyDay));
    }
  }

  lemma WinsIsPreferred(calendar: bool, diff: Meta -> int, wanted: int, b: Meta, c: Meta)
    requires diff(b) == Distance(Day(b.startTS), wanted) && diff(c) == Distance(Day(c.startTS), wanted)
    ensures Prefers(calendar, diff, b, c) <==> if calendar then WinsNear(b, c, wanted) else IsNewer(b, c)
  {
    BetterIsNewer(b, c);
  }

  lemma WeekPreferred(cfg: Config, now: int, b: Meta, c: Meta)
    requires IsValid(cfg) && cfg.weeklyRetention > 0
    requires WeeklyBucket(cfg, now, b.startTS) == WeeklyBucket(cfg, now, c.startTS)
    ensures Prefers(cfg.calendar, ClockAt(cfg, now).weekDiff, b, c) <==> WinsWeek(cfg, b, c)
  {
    BetterIsNewer(b, c);
    if cfg.calendar {
      var wanted := WeekTarget(b.startTS, cfg.weeklyDay);
      OneWeekTarget(now, b.startTS, c.startTS, cfg.weeklyDay);
      WinsIsPreferred(true, ClockAt(cfg, now).weekDiff, wanted, b, c);
      forall w { WantedOfWeekIs(cfg, b.startTS, w); }
    }
  }

  lemma MonthPreferred(cfg: Config, now: int, b: Meta, c: Meta)
    requires IsValid(cfg) && cfg.monthlyRetention > 0
    requires MonthlyBucket(cfg, now, b.startTS) == MonthlyBucket(cfg, now, c.startTS)
    ensures Prefers(cfg.calendar, ClockAt(cfg, now).monthDiff, b, c) <==> WinsMonth(cfg, b, c)
  {
    BetterIsNewer(b, c);
    if cfg.calendar {
      var wanted := MonthTarget(b.startTS, cfg.monthlyDay);
      OneMonthTarget(now, b.startTS, c.startTS, cfg.monthlyDay);
      WinsIsPreferred(true, ClockAt(cfg, now).monthDiff, wanted, b, c);
      forall w { WantedOfMonthIs(cfg, b.startTS, w); }
    }
  }

  lemma WeekOfIs(cfg: Config, now: int, b: Meta, k: int, kind: Kind)
    ensures WeekOf(ClockAt(cfg, now), b) == Some((k, kind)) <==>
      0 <= k < cfg.weeklyRetention && IsRivalInWeek(cfg, now, kind, k, b)
  {
    if b.startTS < now {
      WeekIsBucket(cfg, now, b.startTS, k);
    }
  }

  lemma MonthOfIs(cfg: Config, now: int, b: Meta, k: int, kind: Kind)
    ensures MonthOf(ClockAt(cfg, now), b) == Some((k, kind)) <==>
      0 <= k < cfg.monthlyRetention && IsRivalInMonth(cfg, now, kind, k, b)
  {
    if b.startTS < now {
      MonthIsBucket(cfg, now, b.startTS, k);
    }
  }

  lemma BestOfWeekIs(cfg: Config, now: int, bs: seq<Meta>, b: Meta)
    requires IsValid(cfg)
    ensures var clock := ClockAt(cfg, now);
      IsBestOf(bs, x => WeekOf(clock, x), cfg.calendar, clock.weekDiff, b) <==> IsWeekly(cfg, now, bs, b)
  {
    var clock, k := ClockAt(cfg, now), WeeklyBucket(cfg, now, b.startTS);
    var weekOf := (x => WeekOf(clock, x));
    if weekOf(b).None? {
      forall n { WeekOfIs(cfg, now, b, n, b.kind); }
    } else {
      HeldWeekIs(cfg, now, bs, b, k);
      forall n { WeekOfIs(cfg, now, b, n, b.kind); }
    }
  }

  lemma HeldWeekIs(cfg: Config, now: int, bs: seq<Meta>, b: Meta, k: int)
    requires IsValid(cfg) && WeekOf(ClockAt(cfg, now), b) == Some((k, b.kind))
    ensures var clock := ClockAt(cfg, now);
      IsBestOf(bs, x => WeekOf(clock, x), cfg.calendar, clock.weekDiff, b) <==> HoldsWeek(cfg, now, bs, b, k)
  {
    var clock := ClockAt(cfg, now);
    var weekOf := (x => WeekOf(clock, x));
    WeekOfIs(cfg, now, b, k, b.kind);
    forall c | c in bs
      ensures weekOf(c) == weekOf(b) <==> IsRivalInWeek(cfg, now, b.kind, k, c)
      ensures weekOf(c) == weekOf(b) ==> (Prefers(cfg.calendar, clock.weekDiff, b, c) <==> WinsWeek(cfg, b, c))
    {
      WeekOfIs(cfg, now, c, k, b.kind);
      if weekOf(c) == weekOf(b) {
        WeekPreferred(cfg, now, b, c);
      }
    }
  }

  lemma BestOfMonthIs(cfg: Config, now: int, bs: seq<Meta>, b: Meta)
    requires IsValid(cfg)
    ensures var clock := ClockAt(cfg, now);
      IsBestOf(bs, x => MonthOf(clock, x), cfg.calendar, clock.monthDiff, b) <==> IsMonthly(cfg, now, bs, b)
  {
    var clock, k := ClockAt(cfg, now), MonthlyBucket(cfg, now, b.startTS);
    var monthOf := (x => MonthOf(clock, x));
    if monthOf(b).None? {
      forall n { MonthOfIs(cfg, now, b, n, b.kind); }
    } else {
      HeldMonthIs(cfg, now, bs, b, k);
      forall n { MonthOfIs(cfg, now, b, n, b.kind); }
    }
  }

  lemma HeldMonthIs(cfg: Config, now: int, bs: seq<Meta>, b: Meta, k: int)
    requires IsValid(cfg) && MonthOf(ClockAt(cfg, now), b) == Some((k, b.kind))
    ensures var clock := ClockAt(cfg, now);
      IsBestOf(bs, x => MonthOf(clock, x), cfg.calendar, clock.monthDiff, b) <==> HoldsMonth(cfg, now, bs, b, k)
  {
    var clock := ClockAt(cfg, now);
    var monthOf := (x => MonthOf(clock, x));
    MonthOfIs(cfg, now, b, k, b.kind);
    forall c | c in bs
      ensures monthOf(c) == monthOf(b) <==> IsRivalInMonth(cfg, now, b.kind, k, c)
      ensures monthOf(c) == monthOf(b) ==> (Prefers(cfg.calendar, clock.monthDiff, b, c) <==> WinsMonth(cfg, b, c))
    {
      MonthOfIs(cfg, now, c, k, b.kind);
      if monthOf(c) == monthOf(b) {
        MonthPreferred(cfg, now, b, c);
      }
    }
  }

  /** In dates and over the fields: exactly these the policy itself keeps. All others it gives up. */
  lemma KeptInDates(cfg: Config, now: int, bs: seq<Meta>, b: Meta)
    requires IsValid(cfg) && Proper(bs) && b in bs
    ensures b.name in PolicyKeeps(PolicyOf(cfg), ClockAt(cfg, now), bs) <==>
      && b.status != Active
      && (|| b.selective
          || b.startTS >= now
          || (b.status != Done && !cfg.purgeFailed)
          || IsRecent(cfg, now, b)
          || IsWeekly(cfg, now, bs, b)
          || IsMonthly(cfg, now, bs, b))
  {
    KeptExactly(PolicyOf(cfg), ClockAt(cfg, now), bs, b);
    BestOfWeekIs(cfg, now, bs, b);
    BestOfMonthIs(cfg, now, bs, b);
  }
}
