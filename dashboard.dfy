/** The non-UI logic of dashboard.py: which report is newest, the dropdown's
    entries and default, and the KPI figures shown for the selected report. */
module Dashboard {
  import opened Wrappers
  import opened Text
  import opened Ordering
  import opened ReportStore

  /** `latest_report()`: `None` when no report file matches, otherwise the
      greatest matching path. */
  function LatestReport(fs: seq<Entry>): (r: Option<string>)
    ensures r.None? <==> Glob(fs) == []
    ensures r.Some? ==> r.value in Glob(fs) && forall p :: p in Glob(fs) ==> LexLe(p, r.value)
  {
    var files := Sort(Glob(fs));
    forall p ensures p in Glob(fs) <==> p in files {
      assert p in Glob(fs) <==> p in multiset(Glob(fs));
      assert p in files <==> p in multiset(files);
    }
    if files == [] then
      None
    else
      var last := files[|files| - 1];
      assert forall p :: p in files ==> LexLe(p, last) by {
        forall p | p in files ensures LexLe(p, last) {
          var i :| 0 <= i < |files| && files[i] == p;
          if i == |files| - 1 {
            LexLeReflexive(p);
          }
        }
      }
      Some(last)
  }

  /** `list_reports()`: the matching paths, newest first. */
  function ListReports(fs: seq<Entry>): (r: seq<string>)
    ensures Descending(r)
    ensures multiset(r) == multiset(Glob(fs))
  {
    var files := Sort(Glob(fs));
    ReverseAscending(files);
    Reverse(files)
  }

  /** When the directory lists each path once, the dropdown offers each
      report once. */
  lemma ReportsListedOnce(fs: seq<Entry>)
    requires NoDuplicates(Paths(fs))
    ensures forall i, j :: 0 <= i < j < |ListReports(fs)| ==> ListReports(fs)[i] != ListReports(fs)[j]
  {
    GlobNoDuplicates(fs);
    var reports := ListReports(fs);
    assert NoDuplicates(reports) by {
      forall x | x in reports ensures multiset(reports)[x] <= 1 {
        assert multiset(reports)[x] == multiset(Glob(fs))[x];
      }
    }
    forall i, j | 0 <= i < j < |reports| ensures reports[i] != reports[j] {
      NoDuplicatesDistinct(reports, i, j);
    }
  }

  /** The dropdown's initial value, `reports[0] if reports else None`, is
      the report `latest_report` names. */
  function DefaultValue(fs: seq<Entry>): (v: Option<string>)
    ensures v == LatestReport(fs)
  {
    var reports := ListReports(fs);
    if reports != [] then Some(reports[0]) else None
  }

  /** One dropdown entry: its `label` (here `caption`) and `value`. */
  datatype DropdownOption = DropdownOption(caption: string, value: string)

  /** The label of the entry for path `r`: what follows the last `reports/`
      when `r` contains `reports`, otherwise `r` itself. It is always a tail
      of `r`, and all of `r` when `r` has no `reports/`. */
  function Label(r: string): (l: string)
    ensures |l| <= |r| && l == r[|r| - |l|..]
    ensures !Contains(r, "reports/") ==> l == r
    ensures Contains(r, "reports/") ==>
      At(r, "reports/", |r| - |l| - 8) && !Contains(l, "reports/")
  {
    if Contains(r, "reports") then
      AfterLastHasNoSeparator(r, "reports/");
      if Contains(r, "reports/") then
        AfterLastFollowsSeparator(r, "reports/");
        AfterLast(r, "reports/")
      else
        AfterLast(r, "reports/")
    else
      ReportsSlashHasReports(r);
      r
  }

  /** A path holding `reports/` holds `reports`. */
  lemma ReportsSlashHasReports(r: string)
    ensures Contains(r, "reports/") ==> Contains(r, "reports")
  {
    if Contains(r, "reports/") {
      assert "reports/"[..7] == "reports";
      ContainsPrefix(r, "reports/", 7);
    }
  }

  /** The dropdown's entries, newest first: each shows the report's file
      name and carries its full path. */
  function Options(fs: seq<Entry>): (opts: seq<DropdownOption>)
    ensures |opts| == |ListReports(fs)|
    ensures forall i :: 0 <= i < |opts| ==>
      opts[i].value == ListReports(fs)[i] && IsReportPath(opts[i].value) &&
      opts[i].caption == opts[i].value[8..]
  {
    var reports := ListReports(fs);
    forall i | 0 <= i < |reports| ensures IsReportPath(reports[i]) && Label(reports[i]) == reports[i][8..] {
      assert reports[i] in multiset(Glob(fs));
      LabelOfReportPath(reports[i]);
    }
    seq(|reports|, i requires 0 <= i < |reports| => DropdownOption(Label(reports[i]), reports[i]))
  }

  /** For a path the glob matched, the label is the file name. */
  lemma LabelOfReportPath(p: string)
    requires IsReportPath(p)
    ensures Label(p) == p[8..]
  {
    assert p[..8] == "reports/";
    assert Contains(p, "reports");
    var name := p[8..];
    NoCharNoMatch(name, "reports/", '/');
    assert p == "reports/" + name;
    assert At(p, "reports/", 0);
    assert p[8..] == name;
    AfterLastAbsent(name, "reports/");
  }

  /** The pass rate card: `"0%"` for an empty report, otherwise the
      percentage of passing rows. */
  datatype PassRate = ZeroPercent | Percent(value: real)

  /** The footer line: one of the two fixed messages, or the newest
      `timestamp_utc` of the report. */
  datatype Footer = Message(text: string) | LastTimestamp

  /** What `update_dashboard` puts on the four KPI cards and the footer. */
  datatype Kpis = Kpis(total: nat, passRate: PassRate, passed: nat, failed: nat, footer: Footer)

  /** The figures for one loaded table: rows, exact `PASS` cells and exact
      `FAIL` cells, counted independently (no status column: both 0). */
  function TableKpis(t: Table): (k: Kpis)
    ensures k.total == t.rowCount && k.footer == LastTimestamp
    ensures t.status.None? ==> k.passed == 0 && k.failed == 0
    ensures t.status.Some? ==> k.passed == Count(t.status.value, "PASS") && k.failed == Count(t.status.value, "FAIL")
    ensures k.passed + k.failed <= k.total
    ensures k.passRate.ZeroPercent? <==> k.total == 0
    ensures k.passRate.Percent? ==> 0.0 <= k.passRate.value <= 100.0
    ensures k.passRate.Percent? ==> k.passRate.value * k.total as real == 100.0 * k.passed as real
  {
    match t.status
    case None => Kpis(t.rowCount, if t.rowCount != 0 then Percent(0.0) else ZeroPercent, 0, 0, LastTimestamp)
    case Some(column) =>
      var passed := Count(column, "PASS");
      var failed := Count(column, "FAIL");
      CountTwo(column, "PASS", "FAIL");
      var rate := if t.rowCount != 0 then Percent(Percentage(passed, t.rowCount)) else ZeroPercent;
      Kpis(t.rowCount, rate, passed, failed, LastTimestamp)
  }

  /** `100 * part / whole` for `part <= whole`, a number between 0 and 100. */
  function Percentage(part: nat, whole: nat): (x: real)
    requires part <= whole && whole != 0
    ensures 0.0 <= x <= 100.0
    ensures x * whole as real == 100.0 * part as real
  {
    var x := 100.0 * part as real / whole as real;
    assert x * whole as real == 100.0 * part as real;
    assert (100.0 - x) * whole as real == 100.0 * (whole - part) as real;
    PositiveFactor(100.0 - x, whole as real);
    PositiveFactor(x, whole as real);
    x
  }

  /** A product that is at least 0, with a positive right factor, has a
      left factor that is at least 0. */
  lemma PositiveFactor(a: real, b: real)
    requires b > 0.0 && a * b >= 0.0
    ensures a >= 0.0
  {
  }

  /** `update_dashboard(selected_report)`: all zeros and `No report selected`
      when nothing is selected, all zeros and `Failed to load report` when
      the file cannot be read, otherwise the figures of its table. */
  function UpdateDashboard(fs: seq<Entry>, selected: Option<string>): (k: Kpis)
    ensures selected.None? || selected.value == "" ==>
      k == Kpis(0, ZeroPercent, 0, 0, Message("No report selected"))
    ensures selected.Some? && selected.value != "" && Load(fs, selected.value).None? ==>
      k == Kpis(0, ZeroPercent, 0, 0, Message("Failed to load report"))
    ensures selected.Some? && selected.value != "" && Load(fs, selected.value).Some? ==>
      k == TableKpis(Load(fs, selected.value).value)
    ensures k.passed + k.failed <= k.total
    ensures k.passRate.ZeroPercent? <==> k.total == 0
  {
    if selected.None? || selected.value == "" then
      Kpis(0, ZeroPercent, 0, 0, Message("No report selected"))
    else
      match Load(fs, selected.value)
      case None => Kpis(0, ZeroPercent, 0, 0, Message("Failed to load report"))
      case Some(t) => TableKpis(t)
  }
}
