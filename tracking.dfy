/** Part 2 of `analyze_robot_logs`: the per-robot state table, updated in
    place record by record, and the global clock `last_log_time`. */
module Tracking {
  import opened Options
  import opened Parse

  const ResourceAlert: string := "resource overuse (cpu/ram/disk > 85%)"
  const PickAlert: string := "pick failures (> 5 consecutive failing reports)"

  /** Streak lengths at which the two alerts are raised. */
  const ResourceStreakLimit: nat := 3
  const PickStreakLimit: nat := 5

  /** One value of the `robots` dictionary. */
  datatype Robot = Robot(lastSeen: int, resStreak: nat, pickStreak: nat, alerts: set<string>)

  /** The state of a robot seen for the first time at `t`. */
  function NewRobot(t: int): Robot {
    Robot(t, 0, 0, {})
  }

  /** Some percentage is strictly above 85. */
  predicate Overuse(cpu: Decimal, ram: Decimal, disk: Decimal) {
    Above85(cpu) || Above85(ram) || Above85(disk)
  }

  /** Tried at least once, succeeded never. */
  predicate PickFailure(attempts: nat, successful: nat) {
    attempts > 0 && successful == 0
  }

  /** What one accepted record does to its robot's entry. */
  function Observe(bot: Robot, rec: Record): Robot {
    var seen := bot.(lastSeen := rec.time);
    match rec.reading
    case Resources(c, r, d) =>
      if Overuse(c, r, d) then
        var n := seen.resStreak + 1;
        seen.(resStreak := n, alerts := if n >= ResourceStreakLimit then seen.alerts + {ResourceAlert} else seen.alerts)
      else seen.(resStreak := 0)
    case Picks(a, s) =>
      if PickFailure(a, s) then
        var n := seen.pickStreak + 1;
        seen.(pickStreak := n, alerts := if n >= PickStreakLimit then seen.alerts + {PickAlert} else seen.alerts)
      else seen.(pickStreak := 0)
    case NoReading => seen
  }

  /** The robot table and the global clock together. */
  datatype Snapshot = Snapshot(robots: map<string, Robot>, latest: Option<int>)

  const Initial: Snapshot := Snapshot(map[], None)

  /** The loop body for an accepted record. */
  function Apply(s: Snapshot, rec: Record): Snapshot {
    var latest := if s.latest.None? || rec.time > s.latest.value then Some(rec.time) else s.latest;
    var bot := if rec.robot in s.robots then s.robots[rec.robot] else NewRobot(rec.time);
    Snapshot(s.robots[rec.robot := Observe(bot, rec)], latest)
  }

  /** The loop body for an entry: entries that `Classify` rejects are skipped. */
  function Track(s: Snapshot, entry: string): Snapshot {
    match Classify(entry)
    case None => s
    case Some(rec) => Apply(s, rec)
  }

  function TrackFrom(s: Snapshot, entries: seq<string>): Snapshot {
    if entries == [] then s
    else Track(TrackFrom(s, entries[..|entries| - 1]), entries[|entries| - 1])
  }

  /** The state after the analysis loop over `entries`. */
  function TrackAll(entries: seq<string>): Snapshot {
    TrackFrom(Initial, entries)
  }

  /** The mutable state of the analysis loop: `robots` and `last_log_time`. */
  class Tracker {
    var robots: map<string, Robot>
    var lastLogTime: Option<int>

    function State(): Snapshot
      reads this
    {
      Snapshot(robots, lastLogTime)
    }

    constructor ()
      ensures State() == Initial
    {
      robots := map[];
      lastLogTime := None;
    }

    /** One iteration of `for entry in raw_entries`. */
    method Process(entry: string)
      modifies this
      ensures State() == Track(old(State()), entry)
    {
      var parsed := Classify(entry);
      if parsed.Some? {
        Accept(parsed.value);
      }
    }

    /** The body of the loop once `entry` has been parsed into `rec`. */
    method Accept(rec: Record)
      modifies this
      ensures State() == Apply(old(State()), rec)
    {
      ghost var before := if rec.robot in robots then robots[rec.robot] else NewRobot(rec.time);
      ghost var after := Apply(State(), rec);
      if lastLogTime.None? || rec.time > lastLogTime.value {
        lastLogTime := Some(rec.time);
      }
      if rec.robot !in robots {
        robots := robots[rec.robot := NewRobot(rec.time)];
      }
      var bot := robots[rec.robot];
      assert bot == before;
      bot := bot.(lastSeen := rec.time);
      match rec.reading {
        case Resources(cpu, ram, disk) =>
          if Above85(cpu) || Above85(ram) || Above85(disk) {
            bot := bot.(resStreak := bot.resStreak + 1);
            if bot.resStreak >= ResourceStreakLimit {
              bot := bot.(alerts := bot.alerts + {ResourceAlert});
            }
          } else {
            bot := bot.(resStreak := 0);
          }
          assert bot == Observe(before, rec);
        case Picks(attempts, successful) =>
          if attempts > 0 && successful == 0 {
            bot := bot.(pickStreak := bot.pickStreak + 1);
            if bot.pickStreak >= PickStreakLimit {
              bot := bot.(alerts := bot.alerts + {PickAlert});
            }
          } else {
            bot := bot.(pickStreak := 0);
          }
          assert bot == Observe(before, rec);
        case NoReading =>
      }
      assert lastLogTime == after.latest;
      robots := robots[rec.robot := bot];
    }

    /** The whole `for entry in raw_entries` loop. */
    method ProcessAll(entries: seq<string>)
      modifies this
      ensures State() == TrackFrom(old(State()), entries)
    {
      for i := 0 to |entries|
        invariant State() == TrackFrom(old(State()), entries[..i])
      {
        assert entries[..i + 1][..i] == entries[..i];
        Process(entries[i]);
      }
      assert entries[..|entries|] == entries;
    }
  }

  // ----- The loop seen as a fold over the accepted records -----

  /** The accepted records of `entries`, in file order. */
  function Records(entries: seq<string>): seq<Record> {
    if entries == [] then []
    else
      var front := Records(entries[..|entries| - 1]);
      match Classify(entries[|entries| - 1])
      case None => front
      case Some(rec) => front + [rec]
  }

  function ApplyAll(recs: seq<Record>): Snapshot {
    if recs == [] then Initial else Apply(ApplyAll(recs[..|recs| - 1]), recs[|recs| - 1])
  }

  /** Entries that do not match `log_pattern` or whose timestamp does not
      parse change nothing: the loop is a fold over the accepted records. */
  lemma {:induction false} TrackAllIsApplyAll(entries: seq<string>)
    ensures TrackAll(entries) == ApplyAll(Records(entries))
  {
    if entries != [] {
      var front := entries[..|entries| - 1];
      TrackAllIsApplyAll(front);
      var recs := Records(front);
      match Classify(entries[|entries| - 1])
      case None =>
      case Some(rec) =>
        assert (recs + [rec])[..|recs|] == recs;
    }
  }

  /** `last_log_time` is the latest time among the accepted records, and
      None only when there is none. */
  lemma {:induction false} ClockIsLatest(recs: seq<Record>)
    ensures ApplyAll(recs).latest.None? <==> recs == []
    ensures ApplyAll(recs).latest.Some? ==>
      && (exists k :: 0 <= k < |recs| && recs[k].time == ApplyAll(recs).latest.value)
      && (forall k :: 0 <= k < |recs| ==> recs[k].time <= ApplyAll(recs).latest.value)
  {
    if recs != [] {
      var front := recs[..|recs| - 1];
      ClockIsLatest(front);
      var t := ApplyAll(recs).latest.value;
      if ApplyAll(front).latest.Some? && t == ApplyAll(front).latest.value {
        var k :| 0 <= k < |front| && front[k].time == t;
        assert recs[k] == front[k];
      } else {
        assert recs[|recs| - 1].time == t;
      }
      forall k | 0 <= k < |recs| ensures recs[k].time <= t {
        if k < |front| {
          assert recs[k] == front[k];
        }
      }
    }
  }

  /** The records of one robot, in file order. */
  function Of(recs: seq<Record>, id: string): seq<Record> {
    if recs == [] then []
    else Of(recs[..|recs| - 1], id) + (if recs[|recs| - 1].robot == id then [recs[|recs| - 1]] else [])
  }

  /** A robot's entry after its own records `rs`, the first creating it. */
  function RobotFold(rs: seq<Record>): Robot
    requires rs != []
  {
    if |rs| == 1 then Observe(NewRobot(rs[0].time), rs[0])
    else Observe(RobotFold(rs[..|rs| - 1]), rs[|rs| - 1])
  }

  /** A robot is in the table exactly when it has an accepted record, and
      its entry depends on its own records only, in their file order. */
  lemma {:induction false} RobotIsFoldOfOwnRecords(recs: seq<Record>, id: string)
    ensures id in ApplyAll(recs).robots <==> Of(recs, id) != []
    ensures id in ApplyAll(recs).robots ==> ApplyAll(recs).robots[id] == RobotFold(Of(recs, id))
  {
    if recs != [] {
      var front, last := recs[..|recs| - 1], recs[|recs| - 1];
      RobotIsFoldOfOwnRecords(front, id);
      if last.robot == id {
        var rs := Of(front, id) + [last];
        assert rs[..|rs| - 1] == Of(front, id);
      } else {
        assert Of(recs, id) == Of(front, id);
      }
    }
  }

  /** Reordering records across robots, while keeping each robot's own
      order, gives the same robot table. */
  lemma InterleavingIrrelevant(r1: seq<Record>, r2: seq<Record>)
    requires forall id :: Of(r1, id) == Of(r2, id)
    ensures ApplyAll(r1).robots == ApplyAll(r2).robots
  {
    var m1, m2 := ApplyAll(r1).robots, ApplyAll(r2).robots;
    forall id ensures id in m1 <==> id in m2 {
      RobotIsFoldOfOwnRecords(r1, id);
      RobotIsFoldOfOwnRecords(r2, id);
    }
    forall id | id in m1 ensures m1[id] == m2[id] {
      RobotIsFoldOfOwnRecords(r1, id);
      RobotIsFoldOfOwnRecords(r2, id);
    }
  }

  /** Every robot's `last_seen` is at or before `last_log_time`, so the
      silence computed in the report is never negative. */
  lemma {:induction false} LastSeenNotAfterClock(recs: seq<Record>)
    ensures forall id :: id in ApplyAll(recs).robots ==>
      ApplyAll(recs).latest.Some? && ApplyAll(recs).robots[id].lastSeen <= ApplyAll(recs).latest.value
  {
    if recs != [] {
      LastSeenNotAfterClock(recs[..|recs| - 1]);
    }
  }

  // ----- Streaks and alerts of one robot, against its own records -----

  /** For each RESOURCES record with readings, whether it is an overuse. */
  function ResourceFlags(rs: seq<Record>): seq<bool> {
    if rs == [] then []
    else
      ResourceFlags(rs[..|rs| - 1]) +
        match rs[|rs| - 1].reading
        case Resources(c, r, d) => [Overuse(c, r, d)]
        case _ => []
  }

  /** For each PICKS record with counts, whether it is a failure. */
  function PickFlags(rs: seq<Record>): seq<bool> {
    if rs == [] then []
    else
      PickFlags(rs[..|rs| - 1]) +
        match rs[|rs| - 1].reading
        case Picks(a, s) => [PickFailure(a, s)]
        case _ => []
  }

  /** Number of `true` at the end of `flags`. */
  function TrailingRun(flags: seq<bool>): nat {
    if flags == [] || !flags[|flags| - 1] then 0 else TrailingRun(flags[..|flags| - 1]) + 1
  }

  /** `n` consecutive `true` start at position `i`. */
  predicate RunAt(flags: seq<bool>, i: nat, n: nat) {
    i + n <= |flags| && forall j :: i <= j < i + n ==> flags[j]
  }

  /** Somewhere in `flags` there are `n` consecutive `true`. */
  ghost predicate HasRun(flags: seq<bool>, n: nat) {
    exists i: nat :: RunAt(flags, i, n)
  }

  lemma {:induction false} TrailingRunAt(flags: seq<bool>, n: nat)
    requires n <= |flags|
    ensures TrailingRun(flags) >= n <==> RunAt(flags, |flags| - n, n)
  {
    if n > 0 {
      var front := flags[..|flags| - 1];
      TrailingRunAt(front, n - 1);
      if flags[|flags| - 1] {
        forall j | |flags| - n <= j < |flags| - 1 ensures flags[j] == front[j] {
        }
      }
    }
  }

  /** A run of `n` appears in `flags + [b]` when it already appeared, or
      when the trailing run has reached `n`. */
  lemma HasRunStep(flags: seq<bool>, b: bool, n: nat)
    requires n > 0
    ensures HasRun(flags + [b], n) <==> HasRun(flags, n) || TrailingRun(flags + [b]) >= n
  {
    var g := flags + [b];
    assert g[..|flags|] == flags;
    if HasRun(g, n) {
      var i: nat :| RunAt(g, i, n);
      if i + n <= |flags| {
        assert RunAt(flags, i, n);
      } else {
        TrailingRunAt(g, n);
      }
    }
    if HasRun(flags, n) {
      var i: nat :| RunAt(flags, i, n);
      assert RunAt(g, i, n);
    }
    if TrailingRun(g) >= n {
      if n <= |g| {
        TrailingRunAt(g, n);
      } else {
        TrailingRunBound(g);
      }
    }
  }

  lemma {:induction false} TrailingRunBound(flags: seq<bool>)
    ensures TrailingRun(flags) <= |flags|
  {
    if flags != [] {
      TrailingRunBound(flags[..|flags| - 1]);
    }
  }

  /** The state of a robot told by its own records: `last_seen` is the time
      of its last record; each streak is the number of qualifying readings
      since the last non-qualifying one of its kind; an alert is present
      exactly when its kind ever had the required number of consecutive
      qualifying readings; and there are no other alerts. */
  lemma {:induction false} RobotFoldMeaning(rs: seq<Record>)
    requires rs != []
    ensures var bot := RobotFold(rs);
      && bot.lastSeen == rs[|rs| - 1].time
      && bot.resStreak == TrailingRun(ResourceFlags(rs))
      && bot.pickStreak == TrailingRun(PickFlags(rs))
      && (ResourceAlert in bot.alerts <==> HasRun(ResourceFlags(rs), ResourceStreakLimit))
      && (PickAlert in bot.alerts <==> HasRun(PickFlags(rs), PickStreakLimit))
      && bot.alerts <= {ResourceAlert, PickAlert}
  {
    var front, last := rs[..|rs| - 1], rs[|rs| - 1];
    var prev := if |rs| == 1 then NewRobot(last.time) else RobotFold(front);
    if |rs| > 1 {
      RobotFoldMeaning(front);
    } else {
      assert front == [];
      NoRunInEmpty(ResourceStreakLimit);
      NoRunInEmpty(PickStreakLimit);
    }
    assert StreaksTold(prev, front);
    match last.reading
    case Resources(_, _, _) => ResourceStep(prev, rs);
    case Picks(_, _) => PickStep(prev, rs);
    case NoReading => IdleStep(prev, rs);
  }

  /** The streak and alert part of RobotFoldMeaning, for a robot `bot`
      that has seen the records `rs`. */
  ghost predicate StreaksTold(bot: Robot, rs: seq<Record>) {
    && bot.resStreak == TrailingRun(ResourceFlags(rs))
    && bot.pickStreak == TrailingRun(PickFlags(rs))
    && (ResourceAlert in bot.alerts <==> HasRun(ResourceFlags(rs), ResourceStreakLimit))
    && (PickAlert in bot.alerts <==> HasRun(PickFlags(rs), PickStreakLimit))
    && bot.alerts <= {ResourceAlert, PickAlert}
  }

  lemma ResourceStep(bot: Robot, rs: seq<Record>)
    requires rs != [] && rs[|rs| - 1].reading.Resources?
    requires StreaksTold(bot, rs[..|rs| - 1])
    ensures StreaksTold(Observe(bot, rs[|rs| - 1]), rs)
  {
    var front, last := rs[..|rs| - 1], rs[|rs| - 1];
    var Resources(c, r, d) := last.reading;
    var f := ResourceFlags(front);
    assert ResourceFlags(rs) == f + [Overuse(c, r, d)];
    assert (f + [Overuse(c, r, d)])[..|f|] == f;
    HasRunStep(f, Overuse(c, r, d), ResourceStreakLimit);
    assert PickFlags(rs) == PickFlags(front);
    assert ResourceAlert != PickAlert;
  }

  lemma PickStep(bot: Robot, rs: seq<Record>)
    requires rs != [] && rs[|rs| - 1].reading.Picks?
    requires StreaksTold(bot, rs[..|rs| - 1])
    ensures StreaksTold(Observe(bot, rs[|rs| - 1]), rs)
  {
    var front, last := rs[..|rs| - 1], rs[|rs| - 1];
    var Picks(a, s) := last.reading;
    var f := PickFlags(front);
    assert PickFlags(rs) == f + [PickFailure(a, s)];
    assert (f + [PickFailure(a, s)])[..|f|] == f;
    HasRunStep(f, PickFailure(a, s), PickStreakLimit);
    assert ResourceFlags(rs) == ResourceFlags(front);
    assert ResourceAlert != PickAlert;
  }

  lemma IdleStep(bot: Robot, rs: seq<Record>)
    requires rs != [] && rs[|rs| - 1].reading.NoReading?
    requires StreaksTold(bot, rs[..|rs| - 1])
    ensures StreaksTold(Observe(bot, rs[|rs| - 1]), rs)
  {
    assert ResourceFlags(rs) == ResourceFlags(rs[..|rs| - 1]);
    assert PickFlags(rs) == PickFlags(rs[..|rs| - 1]);
  }

  lemma NoRunInEmpty(n: nat)
    requires n > 0
    ensures !HasRun([], n)
  {
    forall i: nat ensures !RunAt([], i, n) {
    }
  }

  /** Alerts are never withdrawn: whatever follows, a raised alert stays. */
  lemma {:induction false} AlertsSticky(recs: seq<Record>, more: seq<Record>, id: string)
    requires id in ApplyAll(recs).robots
    ensures id in ApplyAll(recs + more).robots
    ensures ApplyAll(recs).robots[id].alerts <= ApplyAll(recs + more).robots[id].alerts
    decreases |more|
  {
    if more != [] {
      var front := more[..|more| - 1];
      assert (recs + more)[..|recs + more| - 1] == recs + front;
      AlertsSticky(recs, front, id);
    } else {
      assert recs + more == recs;
    }
  }
}
