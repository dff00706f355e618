/** `analyze_robot_logs` end to end: entries from lines, the tracker over
    the entries, then the report over the final table and clock. */
module Analyzer {
  import opened Options
  import opened Text
  import opened Reconstruct
  import opened Parse
  import opened Tracking
  import opened Report

  /** The whole analysis of a file whose lines are `lines`; it returns the
      robot table (the function's result) and the report it would print. */
  method AnalyzeRobotLogs(lines: seq<string>) returns (robots: map<string, Robot>, rows: seq<Row>, foundIssues: bool)
    ensures robots == TrackAll(Entries(lines)).robots
    ensures |rows| == |robots|
    ensures forall i, j :: 0 <= i < j < |rows| ==> Less(rows[i].robot, rows[j].robot)
    ensures forall id :: id in robots ==> exists i :: 0 <= i < |rows| && rows[i].robot == id
    ensures forall i :: 0 <= i < |rows| ==>
      TrackAll(Entries(lines)).latest.Some? && RowReports(rows[i], robots, TrackAll(Entries(lines)).latest.value)
    ensures foundIssues <==>
      exists id :: id in robots && (robots[id].alerts != {} || TrackAll(Entries(lines)).latest.value - robots[id].lastSeen > 1800)
  {
    var entries := ReconstructEntries(lines);
    var tracker := new Tracker();
    tracker.ProcessAll(entries);
    robots := tracker.robots;
    var clock := tracker.lastLogTime;
    TrackAllIsApplyAll(entries);
    LastSeenNotAfterClock(Records(entries));
    rows, foundIssues := BuildReport(robots, clock);
    if clock.Some? {
      FoundIssuesMeaning(robots, clock.value, rows);
    }
  }

  /** Continuation lines before the first timestamped line form an entry
      that starts with a space; `log_pattern` rejects it, so it creates no
      robot and does not move the clock. */
  lemma LeadingFragmentIgnored(lines: seq<string>)
    requires LeadingContinuation(lines)
    ensures Entries(lines) != []
    ensures Classify(Entries(lines)[0]).None?
    ensures TrackFrom(Initial, Entries(lines)[..1]) == Initial
  {
    EntriesShape(lines);
    var es := Entries(lines);
    LeadingSpaceRejected(es[0]);
    assert es[..1][..0] == [];
  }
}
