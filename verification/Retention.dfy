/**
 * Grandfather-father-son retention of one job's snapshots (apply_retention in
 * core/src/job/mod.rs).
 *
 * `Survivors` is the single pass with its three "seen" sets. The main results are that
 * the pass implements a rule stated without any pass, and that pruning after every
 * backup leaves exactly what one pruning at the end would leave.
 */
module Retention {
  import opened Common

  const DAY: int := 86_400

  datatype RetentionConfig = RetentionConfig(daily: int, weekly: int, monthly: int)

  datatype Snapshot = Snapshot(id: string, createdAt: int)

  /**
   * The calendar: which timestamps it can represent, and the ISO week and the month a
   * timestamp falls in, numbered in order. UTC days are plain division.
   */
  datatype Calendar = Calendar(known: int -> bool, week: int -> int, month: int -> int)

  ghost predicate Ordered(cal: Calendar) {
    forall s, t :: s <= t ==> cal.week(s) <= cal.week(t) && cal.month(s) <= cal.month(t)
  }

  function DayKey(t: int): int {
    t / DAY
  }

  /** Whole days from t to now, rounded towards zero. */
  function DaysSince(t: int, now: int): int {
    if t <= now then (now - t) / DAY else -((t - now) / DAY)
  }

  datatype Seen = Seen(days: set<int>, weeks: set<int>, months: set<int>)

  const NOTHING_SEEN := Seen({}, {}, {})

  /** Future-dated snapshots count as inside the daily window. */
  predicate InDailyWindow(cal: Calendar, cfg: RetentionConfig, now: int, s: Snapshot) {
    cal.known(s.createdAt)
    && (0 <= DaysSince(s.createdAt, now) < cfg.daily || DaysSince(s.createdAt, now) < 0)
  }

  /** Whether a period seen for the first time is still within the limit. */
  predicate PeriodKeeps(limit: int, seen: set<int>, key: int) {
    limit > 0 && key !in seen && |seen + {key}| <= limit
  }

  function PeriodSeen(limit: int, seen: set<int>, key: int): set<int> {
    if limit > 0 then seen + {key} else seen
  }

  predicate Keeps(cal: Calendar, cfg: RetentionConfig, now: int, seen: Seen, s: Snapshot) {
    (InDailyWindow(cal, cfg, now, s) && DayKey(s.createdAt) !in seen.days)
    || (cal.known(s.createdAt) && PeriodKeeps(cfg.weekly, seen.weeks, cal.week(s.createdAt)))
    || (cal.known(s.createdAt) && PeriodKeeps(cfg.monthly, seen.months, cal.month(s.createdAt)))
  }

  function After(cal: Calendar, cfg: RetentionConfig, now: int, seen: Seen, s: Snapshot): Seen {
    if !cal.known(s.createdAt) then seen
    else Seen(if InDailyWindow(cal, cfg, now, s) then seen.days + {DayKey(s.createdAt)} else seen.days,
              PeriodSeen(cfg.weekly, seen.weeks, cal.week(s.createdAt)),
              PeriodSeen(cfg.monthly, seen.months, cal.month(s.createdAt)))
  }

  /** The pass over the snapshots, newest first; the first one is kept whatever the rules say. */
  function Survivors(cal: Calendar, cfg: RetentionConfig, now: int, ss: seq<Snapshot>, seen: Seen, first: bool): seq<Snapshot> {
    if ss == [] then []
    else
      (if first || Keeps(cal, cfg, now, seen, ss[0]) then [ss[0]] else [])
      + Survivors(cal, cfg, now, ss[1..], After(cal, cfg, now, seen, ss[0]), false)
  }

  lemma {:induction false} SurvivorsCons(cal: Calendar, cfg: RetentionConfig, now: int, s: Snapshot, ss: seq<Snapshot>, seen: Seen, first: bool)
    ensures var tail := Survivors(cal, cfg, now, ss, After(cal, cfg, now, seen, s), false);
            Survivors(cal, cfg, now, [s] + ss, seen, first) == if first || Keeps(cal, cfg, now, seen, s) then [s] + tail else tail
  {
    assert ([s] + ss)[1..] == ss;
  }

  function Prune(cal: Calendar, cfg: RetentionConfig, now: int, ss: seq<Snapshot>): seq<Snapshot> {
    Survivors(cal, cfg, now, ss, NOTHING_SEEN, true)
  }

  predicate NewestFirst(ss: seq<Snapshot>) {
    forall i, j :: 0 <= i < j < |ss| ==> ss[i].createdAt >= ss[j].createdAt
  }

  predicate DistinctIds(ss: seq<Snapshot>) {
    forall i, j :: 0 <= i < j < |ss| ==> ss[i].id != ss[j].id
  }

  // ---------------------------------------------------------------- pruning early changes nothing later

  /**
   * How the seen sets of three passes relate: A decided at an earlier time what stays,
   * B goes at a later time over everything, C over what A let stay.
   */
  ghost predicate PeriodLock(limit: int, a: set<int>, b: set<int>, c: set<int>) {
    limit > 0 ==> a <= b && (if |a| <= limit then c == b else |c| >= limit)
  }

  ghost predicate DayLock(cal: Calendar, cfg: RetentionConfig, later: int, rest: seq<Snapshot>, a: set<int>, b: set<int>, c: set<int>) {
    (a <= b && c == b) || (forall s :: s in rest ==> !InDailyWindow(cal, cfg, later, s))
  }

  ghost predicate Locked(cal: Calendar, cfg: RetentionConfig, later: int, rest: seq<Snapshot>, a: Seen, b: Seen, c: Seen) {
    DayLock(cal, cfg, later, rest, a.days, b.days, c.days)
    && PeriodLock(cfg.weekly, a.weeks, b.weeks, c.weeks)
    && PeriodLock(cfg.monthly, a.months, b.months, c.months)
  }

  /** B's verdict needs A's, and then C agrees with it; the lock outlives the step. */
  lemma PeriodStep(limit: int, a: set<int>, b: set<int>, c: set<int>, key: int, kept: bool)
    requires PeriodLock(limit, a, b, c) && (PeriodKeeps(limit, a, key) ==> kept)
    ensures PeriodKeeps(limit, b, key) <==> kept && PeriodKeeps(limit, c, key)
    ensures PeriodLock(limit, PeriodSeen(limit, a, key), PeriodSeen(limit, b, key),
                       if kept then PeriodSeen(limit, c, key) else c)
  {
    if limit > 0 {
      CardinalityMonotone(a + {key}, b + {key});
      CardinalityMonotone(a, a + {key});
      CardinalityMonotone(c, c + {key});
      CardinalityMonotone(a, b);
      if |a| <= limit < |a + {key}| {
        assert key !in a;
      }
      if key in a {
        assert a + {key} == a && b + {key} == b;
      }
    }
  }

  lemma {:induction false} CardinalityMonotone<T>(a: set<T>, b: set<T>)
    requires a <= b
    ensures |a| <= |b|
  {
    assert b == a + (b - a);
  }

  lemma WindowShrinks(cal: Calendar, cfg: RetentionConfig, now: int, later: int, s: Snapshot)
    requires now <= later && InDailyWindow(cal, cfg, later, s)
    ensures InDailyWindow(cal, cfg, now, s)
  {
  }

  lemma OlderLeavesWindow(cal: Calendar, cfg: RetentionConfig, now: int, s: Snapshot, older: Snapshot)
    requires older.createdAt <= s.createdAt && cal.known(s.createdAt) && !InDailyWindow(cal, cfg, now, s)
    ensures !InDailyWindow(cal, cfg, now, older)
  {
  }

  lemma DayStep(cal: Calendar, cfg: RetentionConfig, now: int, later: int, ss: seq<Snapshot>,
                a: set<int>, b: set<int>, c: set<int>, kept: bool)
    requires ss != [] && NewestFirst(ss) && now <= later && cal.known(ss[0].createdAt)
    requires DayLock(cal, cfg, later, ss, a, b, c)
    requires InDailyWindow(cal, cfg, now, ss[0]) && DayKey(ss[0].createdAt) !in a ==> kept
    ensures var key, w, w' := DayKey(ss[0].createdAt), InDailyWindow(cal, cfg, now, ss[0]), InDailyWindow(cal, cfg, later, ss[0]);
            && (w' && key !in b <==> kept && w' && key !in c)
            && DayLock(cal, cfg, later, ss[1..], if w then a + {key} else a, if w' then b + {key} else b,
                       if kept && w' then c + {key} else c)
  {
    if InDailyWindow(cal, cfg, later, ss[0]) {
      WindowShrinks(cal, cfg, now, later, ss[0]);
    } else {
      forall s | s in ss[1..]
        ensures !InDailyWindow(cal, cfg, later, s)
      {
        OlderLeavesWindow(cal, cfg, later, ss[0], s);
      }
    }
  }

  lemma {:induction false} StayLocked(cal: Calendar, cfg: RetentionConfig, now: int, later: int, rest: seq<Snapshot>,
                                    a: Seen, b: Seen, c: Seen)
    requires now <= later && NewestFirst(rest) && Locked(cal, cfg, later, rest, a, b, c)
    ensures Survivors(cal, cfg, later, Survivors(cal, cfg, now, rest, a, false), c, false)
         == Survivors(cal, cfg, later, rest, b, false)
    decreases |rest|
  {
    if rest != [] {
      var s := rest[0];
      var kept := Keeps(cal, cfg, now, a, s);
      var a', b' := After(cal, cfg, now, a, s), After(cal, cfg, later, b, s);
      var c' := if kept then After(cal, cfg, later, c, s) else c;
      LockedStep(cal, cfg, now, later, rest, a, b, c, kept);
      StayLocked(cal, cfg, now, later, rest[1..], a', b', c');
      var tail := Survivors(cal, cfg, now, rest[1..], a', false);
      SurvivorsCons(cal, cfg, later, s, tail, c, false);
      assert [s] + rest[1..] == rest;
      SurvivorsCons(cal, cfg, now, s, rest[1..], a, false);
      SurvivorsCons(cal, cfg, later, s, rest[1..], b, false);
    }
  }

  /** One snapshot: it stays at the later time over everything iff it stayed before and stays now. */
  lemma LockedStep(cal: Calendar, cfg: RetentionConfig, now: int, later: int, ss: seq<Snapshot>,
                 a: Seen, b: Seen, c: Seen, kept: bool)
    requires ss != [] && NewestFirst(ss) && now <= later && Locked(cal, cfg, later, ss, a, b, c)
    requires Keeps(cal, cfg, now, a, ss[0]) ==> kept
    ensures Keeps(cal, cfg, later, b, ss[0]) <==> kept && Keeps(cal, cfg, later, c, ss[0])
    ensures Locked(cal, cfg, later, ss[1..], After(cal, cfg, now, a, ss[0]), After(cal, cfg, later, b, ss[0]),
                   if kept then After(cal, cfg, later, c, ss[0]) else c)
  {
    var t := ss[0].createdAt;
    if cal.known(t) {
      DayStep(cal, cfg, now, later, ss, a.days, b.days, c.days, kept);
      PeriodStep(cfg.weekly, a.weeks, b.weeks, c.weeks, cal.week(t), kept);
      PeriodStep(cfg.monthly, a.months, b.months, c.months, cal.month(t), kept);
    }
  }

  /** Pruning, then taking a newer snapshot and pruning later, equals pruning only then. */
  lemma PruneAbsorbs(cal: Calendar, cfg: RetentionConfig, now: int, later: int, s: Snapshot, ss: seq<Snapshot>)
    requires now <= later && NewestFirst([s] + ss)
    ensures Prune(cal, cfg, later, [s] + Prune(cal, cfg, now, ss)) == Prune(cal, cfg, later, [s] + ss)
  {
    var seen := After(cal, cfg, later, NOTHING_SEEN, s);
    SurvivorsCons(cal, cfg, later, s, ss, NOTHING_SEEN, true);
    SurvivorsCons(cal, cfg, later, s, Prune(cal, cfg, now, ss), NOTHING_SEEN, true);
    if ss != [] {
      assert NewestFirst(ss) by {
        assert forall i :: 0 <= i < |ss| ==> ss[i] == ([s] + ss)[i + 1];
      }
      PruneUnderneath(cal, cfg, now, later, ss, seen);
    }
  }

  /** The same below snapshots already passed: what A kept its first of, B and C treat alike. */
  lemma {:induction false} PruneUnderneath(cal: Calendar, cfg: RetentionConfig, now: int, later: int, ss: seq<Snapshot>, seen: Seen)
    requires now <= later && NewestFirst(ss) && ss != []
    requires Locked(cal, cfg, later, ss, NOTHING_SEEN, seen, seen)
    ensures forall first ::
              Survivors(cal, cfg, later, Prune(cal, cfg, now, ss), seen, first) == Survivors(cal, cfg, later, ss, seen, first)
  {
    var x := ss[0];
    var a, b := After(cal, cfg, now, NOTHING_SEEN, x), After(cal, cfg, later, seen, x);
    LockedStep(cal, cfg, now, later, ss, NOTHING_SEEN, seen, seen, true);
    StayLocked(cal, cfg, now, later, ss[1..], a, b, b);
    var tail := Survivors(cal, cfg, now, ss[1..], a, false);
    assert Prune(cal, cfg, now, ss) == [x] + tail;
    forall first
      ensures Survivors(cal, cfg, later, [x] + tail, seen, first) == Survivors(cal, cfg, later, ss, seen, first)
    {
      SurvivorsCons(cal, cfg, later, x, tail, seen, first);
    }
  }

  /** Pruning again, at the same time or later, equals pruning once then. */
  lemma PruneIdempotent(cal: Calendar, cfg: RetentionConfig, now: int, later: int, ss: seq<Snapshot>)
    requires now <= later && NewestFirst(ss)
    ensures Prune(cal, cfg, later, Prune(cal, cfg, now, ss)) == Prune(cal, cfg, later, ss)
  {
    if ss != [] {
      PruneUnderneath(cal, cfg, now, later, ss, NOTHING_SEEN);
    }
  }

  /** A backup that took `snapshot`, followed by retention at `now`. */
  datatype Round = Round(snapshot: Snapshot, now: int)

  ghost predicate InOrder(rounds: seq<Round>) {
    forall i, j :: 0 <= i < j < |rounds| ==>
      rounds[i].now <= rounds[j].now && rounds[i].snapshot.createdAt < rounds[j].snapshot.createdAt
  }

  /** What is left when retention runs after every backup. */
  function Online(cal: Calendar, cfg: RetentionConfig, rounds: seq<Round>): seq<Snapshot> {
    if rounds == [] then []
    else
      var last := rounds[|rounds| - 1];
      Prune(cal, cfg, last.now, [last.snapshot] + Online(cal, cfg, rounds[..|rounds| - 1]))
  }

  /** Every snapshot ever taken, newest first. */
  function Everything(rounds: seq<Round>): (ss: seq<Snapshot>)
    ensures |ss| == |rounds| && forall i :: 0 <= i < |ss| ==> ss[i] == rounds[|rounds| - 1 - i].snapshot
  {
    if rounds == [] then []
    else [rounds[|rounds| - 1].snapshot] + Everything(rounds[..|rounds| - 1])
  }

  /** Pruning after every backup leaves what one pruning at the end would have left. */
  lemma {:induction false} OnlineIsOffline(cal: Calendar, cfg: RetentionConfig, rounds: seq<Round>)
    requires rounds != [] && InOrder(rounds)
    ensures Online(cal, cfg, rounds) == Prune(cal, cfg, rounds[|rounds| - 1].now, Everything(rounds))
    decreases |rounds|
  {
    var n := |rounds| - 1;
    var last, earlier := rounds[n], rounds[..n];
    if n > 0 {
      OnlineIsOffline(cal, cfg, earlier);
      assert earlier[n - 1] == rounds[n - 1];
      assert Everything(rounds) == [last.snapshot] + Everything(earlier);
      assert NewestFirst(Everything(rounds));
      PruneAbsorbs(cal, cfg, rounds[n - 1].now, last.now, last.snapshot, Everything(earlier));
    }
  }

  // ---------------------------------------------------------------- the rule, without a pass

  /** Midnight, UTC, at the start of day k. */
  function Midnight(k: int): int {
    k * 86_400
  }

  /** A midnight has passed after s, up to and including t. */
  ghost predicate MidnightPassed(s: int, t: int) {
    exists k :: s < Midnight(k) <= t
  }

  /**
   * Less than `daily` days of 86400 seconds old, and any amount in the future; with no daily
   * copies to keep, a day or more in the future.
   */
  predicate Recent(t: int, now: int, daily: int) {
    if daily > 0 then now - t < daily * 86_400 else t - now >= 86_400
  }

  /** Recent, and a midnight lies between it and every newer snapshot. */
  ghost predicate NewestOfDay(cal: Calendar, cfg: RetentionConfig, now: int, ss: seq<Snapshot>, i: nat)
    requires i < |ss|
  {
    var t := ss[i].createdAt;
    cal.known(t) && Recent(t, now, cfg.daily)
    && forall j :: 0 <= j < i && cal.known(ss[j].createdAt) ==> MidnightPassed(t, ss[j].createdAt)
  }

  /** Two timestamps are on different days exactly when a midnight has passed between them. */
  lemma DaysDiffer(s: int, t: int)
    requires s <= t
    ensures DayKey(s) != DayKey(t) <==> MidnightPassed(s, t)
  {
    if DayKey(s) != DayKey(t) {
      assert s < Midnight(DayKey(t)) <= t;
    }
    if k :| s < Midnight(k) <= t {
      assert DayKey(s) < k <= DayKey(t);
    }
  }

  /** Whole days in seconds: up to now, and in the future a part of a day counts as none. */
  lemma DaysSinceExactly(t: int, now: int, days: int)
    ensures t <= now ==> (DaysSince(t, now) < days <==> now - t < days * 86_400) && DaysSince(t, now) >= 0
    ensures t > now ==> (DaysSince(t, now) < 0 <==> t - now >= 86_400) && (t - now < 86_400 ==> DaysSince(t, now) == 0)
  {
  }

  lemma WindowIsRecent(cal: Calendar, cfg: RetentionConfig, now: int, s: Snapshot)
    ensures InDailyWindow(cal, cfg, now, s) <==> cal.known(s.createdAt) && Recent(s.createdAt, now, cfg.daily)
  {
    hide DaysSince;
    DaysSinceExactly(s.createdAt, now, cfg.daily);
  }

  /** The periods with a snapshot that are no earlier than period k. */
  ghost function PeriodsFrom(cal: Calendar, key: int -> int, ss: seq<Snapshot>, k: int): set<int> {
    set s | s in ss && cal.known(s.createdAt) && key(s.createdAt) >= k :: key(s.createdAt)
  }

  /** The newest snapshot of one of the `limit` most recent periods present. */
  ghost predicate NewestOfPeriod(cal: Calendar, key: int -> int, limit: int, ss: seq<Snapshot>, i: nat)
    requires i < |ss|
  {
    var t := ss[i].createdAt;
    cal.known(t) && |PeriodsFrom(cal, key, ss, key(t))| <= limit
    && forall j :: 0 <= j < i && cal.known(ss[j].createdAt) ==> key(ss[j].createdAt) != key(t)
  }

  ghost predicate Stays(cal: Calendar, cfg: RetentionConfig, now: int, ss: seq<Snapshot>, i: nat)
    requires i < |ss|
  {
    i == 0 || NewestOfDay(cal, cfg, now, ss, i)
    || NewestOfPeriod(cal, cal.week, cfg.weekly, ss, i) || NewestOfPeriod(cal, cal.month, cfg.monthly, ss, i)
  }

  /** The snapshots from position i on that the rule lets stay, in order. */
  ghost function Selected(cal: Calendar, cfg: RetentionConfig, now: int, ss: seq<Snapshot>, i: nat): seq<Snapshot>
    requires i <= |ss|
    decreases |ss| - i
  {
    if i == |ss| then []
    else (if Stays(cal, cfg, now, ss, i) then [ss[i]] else []) + Selected(cal, cfg, now, ss, i + 1)
  }

  ghost function PeriodsBefore(cal: Calendar, key: int -> int, limit: int, ss: seq<Snapshot>, i: nat): set<int>
    requires i <= |ss|
  {
    if limit > 0 then set j | 0 <= j < i && cal.known(ss[j].createdAt) :: key(ss[j].createdAt) else {}
  }

  ghost function DaysBefore(cal: Calendar, cfg: RetentionConfig, now: int, ss: seq<Snapshot>, i: nat): set<int>
    requires i <= |ss|
  {
    set j | 0 <= j < i && InDailyWindow(cal, cfg, now, ss[j]) :: DayKey(ss[j].createdAt)
  }

  ghost function SeenBefore(cal: Calendar, cfg: RetentionConfig, now: int, ss: seq<Snapshot>, i: nat): Seen
    requires i <= |ss|
  {
    Seen(DaysBefore(cal, cfg, now, ss, i), PeriodsBefore(cal, cal.week, cfg.weekly, ss, i),
         PeriodsBefore(cal, cal.month, cfg.monthly, ss, i))
  }

  lemma PeriodsBeforeAre(cal: Calendar, key: int -> int, limit: int, ss: seq<Snapshot>, i: nat)
    requires NewestFirst(ss) && i < |ss| && cal.known(ss[i].createdAt) && limit > 0
    requires forall s, t :: s <= t ==> key(s) <= key(t)
    ensures PeriodsBefore(cal, key, limit, ss, i) + {key(ss[i].createdAt)} == PeriodsFrom(cal, key, ss, key(ss[i].createdAt))
  {
    var k := key(ss[i].createdAt);
    forall p | p in PeriodsFrom(cal, key, ss, k)
      ensures p in PeriodsBefore(cal, key, limit, ss, i) + {k}
    {
      var s :| s in ss && cal.known(s.createdAt) && key(s.createdAt) >= k && key(s.createdAt) == p;
      var j :| 0 <= j < |ss| && ss[j] == s;
    }
  }

  lemma PeriodAgrees(cal: Calendar, key: int -> int, limit: int, ss: seq<Snapshot>, i: nat)
    requires NewestFirst(ss) && i < |ss| && cal.known(ss[i].createdAt)
    requires forall s, t :: s <= t ==> key(s) <= key(t)
    ensures PeriodKeeps(limit, PeriodsBefore(cal, key, limit, ss, i), key(ss[i].createdAt))
       <==> NewestOfPeriod(cal, key, limit, ss, i)
  {
    var k := key(ss[i].createdAt);
    if limit > 0 {
      hide PeriodsFrom;
      PeriodsBeforeAre(cal, key, limit, ss, i);
    } else {
      assert k in PeriodsFrom(cal, key, ss, k);
    }
  }

  lemma DayAgrees(cal: Calendar, cfg: RetentionConfig, now: int, ss: seq<Snapshot>, i: nat)
    requires NewestFirst(ss) && i < |ss|
    ensures InDailyWindow(cal, cfg, now, ss[i]) && DayKey(ss[i].createdAt) !in DaysBefore(cal, cfg, now, ss, i)
       <==> NewestOfDay(cal, cfg, now, ss, i)
  {
    hide InDailyWindow, Recent, DayKey, MidnightPassed;
    WindowIsRecent(cal, cfg, now, ss[i]);
    forall j | 0 <= j < i && cal.known(ss[j].createdAt) && InDailyWindow(cal, cfg, now, ss[i])
      ensures InDailyWindow(cal, cfg, now, ss[j])
    {
      if !InDailyWindow(cal, cfg, now, ss[j]) {
        OlderLeavesWindow(cal, cfg, now, ss[j], ss[i]);
      }
    }
    forall j | 0 <= j < i && cal.known(ss[j].createdAt)
      ensures DayKey(ss[j].createdAt) != DayKey(ss[i].createdAt) <==> MidnightPassed(ss[i].createdAt, ss[j].createdAt)
    {
      DaysDiffer(ss[i].createdAt, ss[j].createdAt);
    }
    forall j | 0 <= j < i && InDailyWindow(cal, cfg, now, ss[j])
      ensures cal.known(ss[j].createdAt)
    {
      WindowIsRecent(cal, cfg, now, ss[j]);
    }
  }

  lemma SeenStep(cal: Calendar, cfg: RetentionConfig, now: int, ss: seq<Snapshot>, i: nat)
    requires i < |ss|
    ensures After(cal, cfg, now, SeenBefore(cal, cfg, now, ss, i), ss[i]) == SeenBefore(cal, cfg, now, ss, i + 1)
  {
    var a, b := After(cal, cfg, now, SeenBefore(cal, cfg, now, ss, i), ss[i]), SeenBefore(cal, cfg, now, ss, i + 1);
    assert a.days == b.days;
    assert a.weeks == b.weeks;
    assert a.months == b.months;
  }

  lemma {:induction false} PassFollowsRule(cal: Calendar, cfg: RetentionConfig, now: int, ss: seq<Snapshot>, i: nat)
    requires Ordered(cal) && NewestFirst(ss) && i <= |ss|
    ensures Survivors(cal, cfg, now, ss[i..], SeenBefore(cal, cfg, now, ss, i), i == 0) == Selected(cal, cfg, now, ss, i)
    decreases |ss| - i
  {
    if i < |ss| {
      SeenStep(cal, cfg, now, ss, i);
      PassFollowsRule(cal, cfg, now, ss, i + 1);
      DayAgrees(cal, cfg, now, ss, i);
      if cal.known(ss[i].createdAt) {
        PeriodAgrees(cal, cal.week, cfg.weekly, ss, i);
        PeriodAgrees(cal, cal.month, cfg.monthly, ss, i);
      }
      assert ss[i..] == [ss[i]] + ss[i + 1..];
      SurvivorsCons(cal, cfg, now, ss[i], ss[i + 1..], SeenBefore(cal, cfg, now, ss, i), i == 0);
    }
  }

  /** The single pass keeps exactly the snapshots the rule names. */
  lemma {:induction false} PruneFollowsRule(cal: Calendar, cfg: RetentionConfig, now: int, ss: seq<Snapshot>)
    requires Ordered(cal) && NewestFirst(ss)
    ensures Prune(cal, cfg, now, ss) == Selected(cal, cfg, now, ss, 0)
  {
    PassFollowsRule(cal, cfg, now, ss, 0);
    assert SeenBefore(cal, cfg, now, ss, 0) == NOTHING_SEEN;
    assert ss[0..] == ss;
  }

  // ---------------------------------------------------------------- how many stay

  ghost function Interval(lo: int, hi: int): (days: set<int>)
    ensures forall d :: d in days <==> lo <= d <= hi
    ensures |days| == Max(hi - lo + 1, 0)
    decreases hi - lo
  {
    if hi < lo then {} else Interval(lo, hi - 1) + {hi}
  }

  /** The days a snapshot aged under `daily` days can fall on. */
  ghost function RecentDays(cfg: RetentionConfig, now: int): set<int> {
    Interval(DayKey(now) - cfg.daily, DayKey(now))
  }

  function Room(limit: int, seen: set<int>): nat {
    Max(limit - |seen|, 0)
  }

  lemma {:induction false} SurvivorsBounded(cal: Calendar, cfg: RetentionConfig, now: int, ss: seq<Snapshot>, seen: Seen, first: bool)
    requires cfg.daily >= 0 && cfg.weekly >= 0 && cfg.monthly >= 0
    requires forall s :: s in ss ==> s.createdAt <= now
    requires seen.days <= RecentDays(cfg, now)
    ensures |Survivors(cal, cfg, now, ss, seen, first)|
         <= (cfg.daily + 1 - |seen.days|) + Room(cfg.weekly, seen.weeks) + Room(cfg.monthly, seen.months) + (if first then 1 else 0)
    decreases |ss|
  {
    CardinalityMonotone(seen.days, RecentDays(cfg, now));
    if ss != [] {
      var seen' := After(cal, cfg, now, seen, ss[0]);
      if InDailyWindow(cal, cfg, now, ss[0]) {
        WindowDay(cal, cfg, now, ss[0]);
      }
      RoomShrinks(cal, cfg, now, ss[0], seen);
      SurvivorsBounded(cal, cfg, now, ss[1..], seen', false);
    }
  }

  /** A kept snapshot takes a day, or room among the weeks or the months. */
  lemma RoomShrinks(cal: Calendar, cfg: RetentionConfig, now: int, s: Snapshot, seen: Seen)
    ensures var seen' := After(cal, cfg, now, seen, s);
            var kept := if Keeps(cal, cfg, now, seen, s) then 1 else 0;
            |seen.days| + kept + Room(cfg.weekly, seen'.weeks) + Room(cfg.monthly, seen'.months) <=
            |seen'.days| + Room(cfg.weekly, seen.weeks) + Room(cfg.monthly, seen.months)
  {
    var seen' := After(cal, cfg, now, seen, s);
    CardinalityMonotone(seen.days, seen'.days);
    CardinalityMonotone(seen.weeks, seen'.weeks);
    CardinalityMonotone(seen.months, seen'.months);
  }

  lemma WindowDay(cal: Calendar, cfg: RetentionConfig, now: int, s: Snapshot)
    requires s.createdAt <= now && InDailyWindow(cal, cfg, now, s)
    ensures DayKey(s.createdAt) in RecentDays(cfg, now)
  {
  }

  /** With no future-dated snapshot, daily + 1 days, the weeks, the months and the newest bound what stays. */
  lemma PruneBounded(cal: Calendar, cfg: RetentionConfig, now: int, ss: seq<Snapshot>)
    requires cfg.daily >= 0 && cfg.weekly >= 0 && cfg.monthly >= 0
    requires forall s :: s in ss ==> s.createdAt <= now
    ensures |Prune(cal, cfg, now, ss)| <= (cfg.daily + 1) + cfg.weekly + cfg.monthly + 1
  {
    SurvivorsBounded(cal, cfg, now, ss, NOTHING_SEEN, true);
    assert |NOTHING_SEEN.days| == |NOTHING_SEEN.weeks| == |NOTHING_SEEN.months| == 0;
  }

  // ---------------------------------------------------------------- the imperative pass

  function Ids(ss: seq<Snapshot>): set<string> {
    set s | s in ss :: s.id
  }

  function WithIds(ss: seq<Snapshot>, keep: set<string>): seq<Snapshot> {
    if ss == [] then []
    else (if ss[0].id in keep then [ss[0]] else []) + WithIds(ss[1..], keep)
  }

  lemma IdsCons(s: Snapshot, ss: seq<Snapshot>)
    ensures Ids([s] + ss) == {s.id} + Ids(ss)
  {
    assert forall x :: x in [s] + ss <==> x == s || x in ss;
  }

  lemma DistinctHead(ss: seq<Snapshot>)
    requires ss != [] && DistinctIds(ss)
    ensures Ids(ss) == {ss[0].id} + Ids(ss[1..]) && ss[0].id !in Ids(ss[1..]) && DistinctIds(ss[1..])
  {
    assert ss == [ss[0]] + ss[1..];
    IdsCons(ss[0], ss[1..]);
  }

  /** With distinct ids, a keep-set of ids says as much as the kept snapshots do. */
  lemma {:induction false} SurvivorsById(cal: Calendar, cfg: RetentionConfig, now: int, ss: seq<Snapshot>,
                                         seen: Seen, first: bool, more: set<string>)
    requires DistinctIds(ss) && more !! Ids(ss)
    ensures var kept := Survivors(cal, cfg, now, ss, seen, first);
            WithIds(ss, more + Ids(kept)) == kept && Ids(kept) <= Ids(ss)
    decreases |ss|
  {
    hide Keeps, After, Ids;
    if ss != [] {
      var s, rest := ss[0], ss[1..];
      DistinctHead(ss);
      assert ss == [s] + rest;
      SurvivorsCons(cal, cfg, now, s, rest, seen, first);
      var tail := Survivors(cal, cfg, now, rest, After(cal, cfg, now, seen, s), false);
      IdsCons(s, tail);
      if first || Keeps(cal, cfg, now, seen, s) {
        SurvivorsById(cal, cfg, now, rest, After(cal, cfg, now, seen, s), false, more + {s.id});
        assert more + {s.id} + Ids(tail) == more + Ids([s] + tail);
        assert s.id in more + Ids([s] + tail);
      } else {
        SurvivorsById(cal, cfg, now, rest, After(cal, cfg, now, seen, s), false, more);
      }
    }
  }

  /** One iteration of the pass. */
  method Judge(cal: Calendar, cfg: RetentionConfig, now: int, seen: Seen, s: Snapshot) returns (kept: bool, after: Seen)
    ensures kept <==> Keeps(cal, cfg, now, seen, s)
    ensures after == After(cal, cfg, now, seen, s)
  {
    var daySeen, weekSeen, monthSeen := seen.days, seen.weeks, seen.months;
    kept := false;
    if cal.known(s.createdAt) {
      var daysDiff := DaysSince(s.createdAt, now);
      var dayKey, weekKey, monthKey := DayKey(s.createdAt), cal.week(s.createdAt), cal.month(s.createdAt);
      if 0 <= daysDiff < cfg.daily {
        kept := dayKey !in daySeen;
        daySeen := daySeen + {dayKey};
      }
      if daysDiff < 0 {
        kept := dayKey !in daySeen;
        daySeen := daySeen + {dayKey};
      }
      if cfg.weekly > 0 {
        var isNew := weekKey !in weekSeen;
        weekSeen := weekSeen + {weekKey};
        kept := kept || (isNew && |weekSeen| <= cfg.weekly);
      }
      if cfg.monthly > 0 {
        var isNew := monthKey !in monthSeen;
        monthSeen := monthSeen + {monthKey};
        kept := kept || (isNew && |monthSeen| <= cfg.monthly);
      }
    }
    after := Seen(daySeen, weekSeen, monthSeen);
  }

  function WithoutIds(ss: seq<Snapshot>, keep: set<string>): seq<Snapshot> {
    if ss == [] then []
    else (if ss[0].id in keep then [] else [ss[0]]) + WithoutIds(ss[1..], keep)
  }

  lemma {:induction false} IdsPartition(ss: seq<Snapshot>, keep: set<string>)
    ensures multiset(ss) == multiset(WithIds(ss, keep)) + multiset(WithoutIds(ss, keep))
  {
    if ss != [] {
      IdsPartition(ss[1..], keep);
      assert ss == [ss[0]] + ss[1..];
    }
  }

  method Partition(listing: seq<Snapshot>, keep: set<string>) returns (kept: seq<Snapshot>, removed: seq<Snapshot>)
    ensures kept == WithIds(listing, keep) && removed == WithoutIds(listing, keep)
  {
    kept, removed := [], [];
    for i := 0 to |listing|
      invariant kept + WithIds(listing[i..], keep) == WithIds(listing, keep)
      invariant removed + WithoutIds(listing[i..], keep) == WithoutIds(listing, keep)
    {
      var s := listing[i];
      assert listing[i..][0] == s && listing[i..][1..] == listing[i + 1..];
      SnocShift(kept, s, WithIds(listing[i + 1..], keep));
      SnocShift(removed, s, WithoutIds(listing[i + 1..], keep));
      if s.id in keep {
        kept := kept + [s];
      } else {
        removed := removed + [s];
      }
    }
  }

  /** One job's rows of the snapshot table, listed newest first. */
  class JobSnapshots {
    var rows: seq<Snapshot>

    ghost predicate Valid()
      reads this
    {
      NewestFirst(rows) && DistinctIds(rows)
    }

    constructor (listing: seq<Snapshot>)
      requires NewestFirst(listing) && DistinctIds(listing)
      ensures Valid() && rows == listing
    {
      rows := listing;
    }

    /** The ids the three rules and the newest-is-kept rule put in the keep set. */
    method KeepSet(cal: Calendar, cfg: RetentionConfig, now: int) returns (keep: set<string>)
      ensures keep == Ids(Prune(cal, cfg, now, rows))
    {
      var listing, seen := rows, NOTHING_SEEN;
      keep := {};
      for i := 0 to |listing|
        invariant (keep + if i > 0 then {listing[0].id} else {}) + Ids(Survivors(cal, cfg, now, listing[i..], seen, i == 0))
               == Ids(Prune(cal, cfg, now, listing))
      {
        var s := listing[i];
        assert listing[i..] == [s] + listing[i + 1..];
        SurvivorsCons(cal, cfg, now, s, listing[i + 1..], seen, i == 0);
        var kept, seen' := Judge(cal, cfg, now, seen, s);
        if kept {
          keep := keep + {s.id};
        }
        seen := seen';
      }
      if listing != [] {
        keep := keep + {listing[0].id};
      }
    }

    /** Prunes the rows; the removed ones are returned for garbage collection. */
    method ApplyRetention(cal: Calendar, cfg: RetentionConfig, now: int) returns (removed: seq<Snapshot>)
      requires Valid()
      modifies this
      ensures Valid() && rows == Prune(cal, cfg, now, old(rows))
      ensures multiset(old(rows)) == multiset(rows) + multiset(removed)
    {
      removed := [];
      if |rows| <= 1 {
        if |rows| == 1 {
          SurvivorsCons(cal, cfg, now, rows[0], [], NOTHING_SEEN, true);
          assert rows == [rows[0]] + [];
        }
        return;
      }
      var keep := KeepSet(cal, cfg, now);
      SurvivorsById(cal, cfg, now, rows, NOTHING_SEEN, true, {});
      assert {} + Ids(Prune(cal, cfg, now, rows)) == keep;
      SurvivorsSorted(cal, cfg, now, rows, NOTHING_SEEN, true);
      IdsPartition(rows, keep);
      rows, removed := Partition(rows, keep);
    }
  }

  lemma {:induction false} SurvivorsSorted(cal: Calendar, cfg: RetentionConfig, now: int, ss: seq<Snapshot>, seen: Seen, first: bool)
    requires NewestFirst(ss) && DistinctIds(ss)
    ensures var kept := Survivors(cal, cfg, now, ss, seen, first);
            NewestFirst(kept) && DistinctIds(kept) && forall s :: s in kept ==> s in ss
    decreases |ss|
  {
    hide Keeps, After;
    if ss != [] {
      SurvivorsSorted(cal, cfg, now, ss[1..], After(cal, cfg, now, seen, ss[0]), false);
      assert forall s :: s in ss[1..] ==> s.createdAt <= ss[0].createdAt && s.id != ss[0].id;
    }
  }
}
