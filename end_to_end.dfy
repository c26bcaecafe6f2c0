/** Properties that span the executor, the aggregator and the dashboard:
    the report file name a run is saved under is found again by the readers,
    its timestamp is recovered, file order follows timestamp order, and the
    two readers' counts agree where they should. */
module EndToEnd {
  import opened Wrappers
  import opened Text
  import opened Ordering
  import opened ReportStore
  import opened TestAutomation
  import opened AggregateReports
  import opened Dashboard

  /** A timestamp as `strftime("%Y%m%dT%H%M%SZ")` writes it has none of the
      characters the name handling relies on. */
  predicate PlainTimestamp(ts: string) {
    '/' !in ts && '_' !in ts && '.' !in ts
  }

  lemma ReportPathShape(ts: string)
    ensures ReportPath(ts) == "reports/" + ("test_results_" + ts + ".csv")
    ensures ReportPath(ts) == "reports/test_results_" + (ts + ".csv")
  {
    assert "reports/" + ("test_results_" + ts + ".csv") == "reports/test_results_" + (ts + ".csv");
  }

  /** The readers' glob matches a saved report exactly when the timestamp
      holds no `/`. */
  lemma SavedReportMatchesGlob(ts: string)
    ensures IsReportPath(ReportPath(ts)) <==> '/' !in ts
  {
    var p := ReportPath(ts);
    ReportPathShape(ts);
    assert p[..21] == "reports/test_results_";
    assert p[|p| - 4..] == ".csv";
    assert p[8..] == "test_results_" + ts + ".csv";
    assert p[21..|p| - 4] == ts;
    if '/' in ts {
      var i :| 0 <= i < |ts| && ts[i] == '/';
      assert p[8..][13 + i] == '/';
    }
  }

  /** The base name of a saved report is the file name `save_results` made. */
  lemma SavedReportBasename(ts: string)
    requires '/' !in ts
    ensures Basename(ReportPath(ts)) == "test_results_" + ts + ".csv"
  {
    var name := "test_results_" + ts + ".csv";
    ReportPathShape(ts);
    assert ReportPath(ts) == "reports" + ['/'] + name;
    AfterLastChar("reports", '/', name);
  }

  /** The aggregator recovers the timestamp `save_results` put in the name. */
  lemma TimestampRoundTrip(ts: string)
    requires PlainTimestamp(ts)
    ensures Timestamp(ReportPath(ts)) == ts
  {
    SavedReportBasename(ts);
    var rest := ts + ".csv";
    assert "test_results_" + ts + ".csv" == "test_results_" + rest;
    RemoveLeading("test_results_", rest);
    assert '_' !in rest;
    NoCharNoMatch(rest, "test_results_", '_');
    RemoveAbsent(rest, "test_results_");
    RemoveTrailing(ts, ".csv");
  }

  /** The dropdown shows a saved report under its file name. */
  lemma SavedReportLabel(ts: string)
    requires '/' !in ts
    ensures Label(ReportPath(ts)) == "test_results_" + ts + ".csv"
  {
    SavedReportMatchesGlob(ts);
    LabelOfReportPath(ReportPath(ts));
    ReportPathShape(ts);
  }

  lemma {:induction false} LexLeCommonPrefix(x: string, a: string, b: string)
    ensures LexLe(x + a, x + b) <==> LexLe(a, b)
    decreases |x|
  {
    if x != [] {
      var xa, xb := x + a, x + b;
      assert xa[0] == x[0] == xb[0];
      assert xa[1..] == x[1..] + a && xb[1..] == x[1..] + b;
      LexLeCommonPrefix(x[1..], a, b);
      assert LexLe(xa, xb) <==> LexLe(xa[1..], xb[1..]);
    } else {
      assert x + a == a && x + b == b;
    }
  }

  lemma {:induction false} LexLeCommonSuffix(a: string, b: string, s: string)
    requires |a| == |b|
    ensures LexLe(a + s, b + s) <==> LexLe(a, b)
    decreases |a|
  {
    if a == [] {
      assert a + s == s && b + s == s;
      LexLeReflexive(s);
    } else {
      assert (a + s)[1..] == a[1..] + s && (b + s)[1..] == b[1..] + s;
      LexLeCommonSuffix(a[1..], b[1..], s);
    }
  }

  /** For timestamps of one width, as the fixed-width format gives, report
      files sort exactly as their timestamps do, so `sorted` puts them in
      time order and the last one is the newest. */
  lemma ReportOrderIsTimestampOrder(a: string, b: string)
    requires |a| == |b|
    ensures LexLe(ReportPath(a), ReportPath(b)) <==> LexLe(a, b)
  {
    ReportPathShape(a);
    ReportPathShape(b);
    LexLeCommonPrefix("reports/test_results_", a + ".csv", b + ".csv");
    LexLeCommonSuffix(a, b, ".csv");
  }

  /** The row the aggregator makes of a saved run: the run's length, its
      PASS records, the rest as failed, and the timestamp of the name. */
  lemma SavedRunSummary(results: seq<Record>, ts: string)
    requires |results| > 0 && PlainTimestamp(ts)
    ensures var passed := Count(SavedTable(results).status.value, "PASS");
      Summarize(ReportPath(ts), Some(SavedTable(results)))
        == Success(Row(ReportPath(ts), ts, |results|, passed, |results| - passed))
  {
    TimestampRoundTrip(ts);
  }

  /** For a report the aggregator can summarise, the dashboard shows the same
      total and passed counts; its failed count (exact `FAIL` cells) is at
      most the aggregator's (every non-`PASS` cell), and equal exactly when
      every status is `PASS` or `FAIL`. */
  lemma DashboardAgreesWithAggregate(fs: seq<Entry>, p: string)
    requires p != "" && Summarize(p, Load(fs, p)).Success?
    ensures var row := Summarize(p, Load(fs, p)).value;
      var k := UpdateDashboard(fs, Some(p));
      var column := Load(fs, p).value.status.value;
      k.total == row.total && k.passed == row.passed && k.failed <= row.failed &&
      (k.failed == row.failed <==> forall i :: 0 <= i < |column| ==> column[i] == "PASS" || column[i] == "FAIL")
  {
    CountTwo(Load(fs, p).value.status.value, "PASS", "FAIL");
  }

  /** On the reports the executor writes every status is `PASS` or `FAIL`,
      so the two readers report the same failed count. */
  lemma SavedRunCountsAgree(results: seq<Record>, ts: string)
    requires |results| > 0 && PlainTimestamp(ts)
    requires forall k :: 0 <= k < |results| ==> results[k].status == "PASS" || results[k].status == "FAIL"
    ensures TableKpis(SavedTable(results)).failed == Summarize(ReportPath(ts), Some(SavedTable(results))).value.failed
  {
    SavedRunSummary(results, ts);
    CountTwo(SavedTable(results).status.value, "PASS", "FAIL");
  }
}
