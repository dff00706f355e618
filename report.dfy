/** Part 3 of `analyze_robot_logs`: the per-robot report rows in sorted id
    order, the reporting-gap alert and the `found_issues` flag. */
module Report {
  import opened Options
  import opened Text
  import opened Tracking

  /** One robot's line group of the report: its id and its sorted alerts
      (no alerts is printed as "OK | nominal"). */
  datatype Row = Row(robot: string, alerts: seq<string>)

  /** `time_since_last`: the silence in (fractional) minutes. */
  function MinutesSilent(secs: int): real {
    secs as real / 60.0
  }

  /** The gap test `time_since_last > 30`. */
  predicate Silent(secs: int) {
    MinutesSilent(secs) > 30.0
  }

  /** `int(time_since_last)`: truncation toward zero, the whole number
      between zero and `x` that is less than one away from it. */
  function Truncate(x: real): (r: int)
    ensures x >= 0.0 ==> 0 <= r && r as real <= x < r as real + 1.0
    ensures x < 0.0 ==> r <= 0 && r as real - 1.0 < x <= r as real
  {
    if x >= 0.0 then x.Floor else -((-x).Floor)
  }

  const GapPrefix: string := "reporting gap (silent for "

  /** `f"reporting gap (silent for {int(time_since_last)}m)"`. */
  function GapAlert(minutes: int): string {
    GapPrefix + (if minutes < 0 then "-" + NatToString(-minutes) else NatToString(minutes)) + "m)"
  }

  /** Different minute counts give different gap alerts. */
  lemma GapAlertInjective(m1: nat, m2: nat)
    requires GapAlert(m1) == GapAlert(m2)
    ensures m1 == m2
  {
    var a, b := NatToString(m1), NatToString(m2);
    var g := GapAlert(m1);
    assert g == GapPrefix + a + "m)" && g == GapPrefix + b + "m)";
    assert |a| == |b|;
    assert a == g[|GapPrefix|..|GapPrefix| + |a|];
    assert b == g[|GapPrefix|..|GapPrefix| + |b|];
  }

  /** The gap alert fires exactly when the silence is more than 1800
      seconds (1800 itself gives none), and then shows the number of whole
      minutes, at least 30. */
  lemma GapMeaning(secs: int)
    ensures Silent(secs) <==> secs > 1800
    ensures Silent(secs) ==> Truncate(MinutesSilent(secs)) == secs / 60 >= 30
  {
    var x := MinutesSilent(secs);
    assert secs as real == 60.0 * x;
    if secs > 1800 {
      var q := secs / 60;
      assert secs == 60 * q + secs % 60;
      assert q as real <= x < q as real + 1.0;
    }
  }

  /** The alerts of a row as a multiset: the robot's own alerts, plus the
      gap alert when it has been silent for more than 30 minutes. */
  function ExpectedAlerts(bot: Robot, clock: int): multiset<string> {
    multiset(bot.alerts) + multiset(GapAlerts(clock - bot.lastSeen))
  }

  /** The gap alert for a silence of `secs` seconds, if any. */
  function GapAlerts(secs: int): seq<string> {
    if Silent(secs) then [GapAlert(Truncate(MinutesSilent(secs)))] else []
  }

  /** `alerts` is what the report prints for `bot`: its expected alerts in
      sorted order. */
  predicate Reports(alerts: seq<string>, bot: Robot, clock: int) {
    Sorted(alerts) && multiset(alerts) == ExpectedAlerts(bot, clock)
  }

  /** `row` is the report line group of one of the `robots`. */
  predicate RowReports(row: Row, robots: map<string, Robot>, clock: int) {
    row.robot in robots && Reports(row.alerts, robots[row.robot], clock)
  }

  /** `rows` report, in order, the first `|rows|` of `ids`. */
  predicate ReportsPrefix(rows: seq<Row>, ids: seq<string>, robots: map<string, Robot>, clock: int) {
    |rows| <= |ids| && forall k :: 0 <= k < |rows| ==> rows[k].robot == ids[k] && RowReports(rows[k], robots, clock)
  }

  lemma ReportsPrefixExtend(rows: seq<Row>, ids: seq<string>, robots: map<string, Robot>, clock: int, row: Row)
    requires ReportsPrefix(rows, ids, robots, clock)
    requires |rows| < |ids| && row.robot == ids[|rows|] && RowReports(row, robots, clock)
    ensures ReportsPrefix(rows + [row], ids, robots, clock)
  {
  }

  /** The alerts of one robot, in the order the report prints them. */
  method RobotAlerts(bot: Robot, clock: int) returns (active: seq<string>)
    ensures Reports(active, bot, clock)
  {
    active := ElementsOf(bot.alerts);
    var timeSinceLast := MinutesSilent(clock - bot.lastSeen);
    if timeSinceLast > 30.0 {
      active := active + [GapAlert(Truncate(timeSinceLast))];
    }
    assert multiset(active) == ExpectedAlerts(bot, clock);
    if active != [] {
      active := SortStrings(active);
    }
  }

  /** The report loop `for r_id in sorted(robots.keys())`. */
  method BuildReport(robots: map<string, Robot>, clock: Option<int>) returns (rows: seq<Row>, foundIssues: bool)
    requires robots != map[] ==> clock.Some?
    ensures |rows| == |robots|
    ensures forall i, j :: 0 <= i < j < |rows| ==> Less(rows[i].robot, rows[j].robot)
    ensures forall id :: id in robots ==> exists i :: 0 <= i < |rows| && rows[i].robot == id
    ensures forall i :: 0 <= i < |rows| ==> RowReports(rows[i], robots, clock.value)
    ensures foundIssues <==> exists i :: 0 <= i < |rows| && rows[i].alerts != []
  {
    var ids := SortedKeys(robots.Keys);
    // `last_log_time` is set whenever there is a robot to report on.
    var now := if clock.Some? then clock.value else 0;
    foundIssues := false;
    rows := [];
    for i := 0 to |ids|
      invariant |rows| == i
      invariant ReportsPrefix(rows, ids, robots, now)
      invariant foundIssues == HasIssues(rows)
    {
      assert ids[i] in robots;
      var active := RobotAlerts(robots[ids[i]], now);
      if active != [] {
        foundIssues := true;
      }
      var row := Row(ids[i], active);
      ReportsPrefixExtend(rows, ids, robots, now, row);
      HasIssuesExtend(rows, row);
      rows := rows + [row];
    }
    ReportsAll(rows, ids, robots, now);
  }

  /** Some row of the report lists an alert. */
  predicate HasIssues(rows: seq<Row>) {
    exists k :: 0 <= k < |rows| && rows[k].alerts != []
  }

  lemma HasIssuesExtend(rows: seq<Row>, row: Row)
    ensures HasIssues(rows + [row]) <==> HasIssues(rows) || row.alerts != []
  {
    if HasIssues(rows) {
      var k :| 0 <= k < |rows| && rows[k].alerts != [];
      assert (rows + [row])[k] == rows[k];
    }
    if row.alerts != [] {
      assert (rows + [row])[|rows|] == row;
    }
  }

  /** Rows that report, in order, every id of a sorted listing of the keys
      report the whole table in increasing order of id. */
  lemma ReportsAll(rows: seq<Row>, ids: seq<string>, robots: map<string, Robot>, clock: int)
    requires ReportsPrefix(rows, ids, robots, clock) && |rows| == |ids| == |robots|
    requires forall i, j :: 0 <= i < j < |ids| ==> Less(ids[i], ids[j])
    requires forall id :: id in robots ==> exists i :: 0 <= i < |ids| && ids[i] == id
    ensures forall i, j :: 0 <= i < j < |rows| ==> Less(rows[i].robot, rows[j].robot)
    ensures forall id :: id in robots ==> exists i :: 0 <= i < |rows| && rows[i].robot == id
    ensures forall i :: 0 <= i < |rows| ==> RowReports(rows[i], robots, clock)
  {
    forall id | id in robots ensures exists i :: 0 <= i < |rows| && rows[i].robot == id {
      var i :| 0 <= i < |ids| && ids[i] == id;
      assert rows[i].robot == id;
    }
  }

  /** `sorted(robots.keys())`: every id once, in increasing order. */
  method SortedKeys(keys: set<string>) returns (ids: seq<string>)
    ensures |ids| == |keys|
    ensures forall i, j :: 0 <= i < j < |ids| ==> Less(ids[i], ids[j])
    ensures forall i :: 0 <= i < |ids| ==> ids[i] in keys
    ensures forall id :: id in keys ==> exists i :: 0 <= i < |ids| && ids[i] == id
  {
    var listed := ElementsOf(keys);
    ids := SortStrings(listed);
    SetMultisetDistinct(ids, keys);
    SortedDistinctIncreasing(ids);
    assert |multiset(ids)| == |multiset(keys)|;
    forall i | 0 <= i < |ids| ensures ids[i] in keys {
      assert ids[i] in multiset(ids);
    }
    forall id | id in keys ensures exists i :: 0 <= i < |ids| && ids[i] == id {
      assert id in multiset(keys);
    }
  }

  /** `found_issues` in terms of the robots: some robot has a sticky alert
      or has been silent for more than 30 minutes. */
  lemma FoundIssuesMeaning(robots: map<string, Robot>, clock: int, rows: seq<Row>)
    requires forall id :: id in robots ==> exists i :: 0 <= i < |rows| && rows[i].robot == id
    requires forall i :: 0 <= i < |rows| ==> RowReports(rows[i], robots, clock)
    ensures (exists i :: 0 <= i < |rows| && rows[i].alerts != []) <==>
      exists id :: id in robots && (robots[id].alerts != {} || clock - robots[id].lastSeen > 1800)
  {
    forall id | id in robots
      ensures ExpectedAlerts(robots[id], clock) != multiset{} <==>
        robots[id].alerts != {} || clock - robots[id].lastSeen > 1800
    {
      GapMeaning(clock - robots[id].lastSeen);
      if robots[id].alerts != {} {
        var a :| a in robots[id].alerts;
        assert a in multiset(robots[id].alerts);
      }
    }
    forall i | 0 <= i < |rows| ensures rows[i].alerts != [] <==> multiset(rows[i].alerts) != multiset{} {
      if rows[i].alerts != [] {
        assert rows[i].alerts[0] in multiset(rows[i].alerts);
      }
    }
    if exists id :: id in robots && (robots[id].alerts != {} || clock - robots[id].lastSeen > 1800) {
      var id :| id in robots && (robots[id].alerts != {} || clock - robots[id].lastSeen > 1800);
      var i :| 0 <= i < |rows| && rows[i].robot == id;
    }
  }
}
