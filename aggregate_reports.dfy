/** The report aggregator of aggregate_reports.py: one summary row per report
    file, in ascending order of path. */
module AggregateReports {
  import opened Wrappers
  import opened Text
  import opened Ordering
  import opened ReportStore

  /** One summary row: the keys `file`, `ts`, `total`, `passed`, `failed`. */
  datatype Row = Row(file: string, ts: string, total: nat, passed: nat, failed: nat)

  /** Why aggregation stops: `read_csv` raised on a file, or the file has no
      `status` column (`KeyError`). */
  datatype Error = ReadFailed(path: string) | MissingStatus(path: string)

  /** The display timestamp: the base name with every `test_results_` and
      then every `.csv` deleted. */
  function Timestamp(path: string): (ts: string)
    ensures |ts| <= |path|
  {
    RemoveAll(RemoveAll(Basename(path), "test_results_"), ".csv")
  }

  /** The row for one file: `total` is its number of data rows, `passed` the
      number of cells that are exactly `PASS`, `failed` everything else, so
      `total == passed + failed`. A file that cannot be read, or has no
      `status` column, stops the aggregation with an error naming it. */
  function Summarize(path: string, content: Option<Table>): (r: Result<Row, Error>)
    ensures r.Failure? <==> content.None? || content.value.status.None?
    ensures content.None? ==> r == Failure(ReadFailed(path))
    ensures content.Some? && content.value.status.None? ==> r == Failure(MissingStatus(path))
    ensures r.Success? ==> r.value.file == path && r.value.ts == Timestamp(path)
    ensures r.Success? ==> r.value.total == content.value.rowCount
    ensures r.Success? ==> r.value.passed == Count(content.value.status.value, "PASS")
    ensures r.Success? ==> r.value.total == r.value.passed + r.value.failed
  {
    match content
    case None => Failure(ReadFailed(path))
    case Some(t) =>
      match t.status
      case None => Failure(MissingStatus(path))
      case Some(column) =>
        var total := t.rowCount;
        var passed := Count(column, "PASS");
        Success(Row(path, Timestamp(path), total, passed, total - passed))
  }

  /** `rows` are the summaries of `files`, one per file and in the same order. */
  predicate AllSummarized(fs: seq<Entry>, files: seq<string>, rows: seq<Row>) {
    |rows| == |files| &&
    forall i :: 0 <= i < |files| ==> Summarize(files[i], Load(fs, files[i])) == Success(rows[i])
  }

  /** `e` is the error of the first of `files` that cannot be summarised. */
  predicate FirstFailure(fs: seq<Entry>, files: seq<string>, e: Error) {
    exists i :: 0 <= i < |files| && Summarize(files[i], Load(fs, files[i])) == Failure(e) &&
                forall j :: 0 <= j < i ==> Summarize(files[j], Load(fs, files[j])).Success?
  }

  /** The result of summarising `files` in turn: the rows of all of them,
      or the error of the first one that cannot be summarised. */
  function SummarizeAll(fs: seq<Entry>, files: seq<string>): (r: Result<seq<Row>, Error>)
    ensures r.Success? ==> |r.value| == |files|
    decreases |files|
  {
    if files == [] then Success([])
    else
      match Summarize(files[0], Load(fs, files[0]))
      case Failure(e) => Failure(e)
      case Success(row) => Prepend([row], SummarizeAll(fs, files[1..]))
  }

  /** `rows` put in front of a successful result; an error passes through. */
  function Prepend(rows: seq<Row>, r: Result<seq<Row>, Error>): Result<seq<Row>, Error> {
    match r
    case Success(rest) => Success(rows + rest)
    case Failure(e) => Failure(e)
  }

  /** `Prepend` of nothing, and onto nothing. */
  lemma PrependEnds(rows: seq<Row>, r: Result<seq<Row>, Error>)
    ensures Prepend([], r) == r
    ensures Prepend(rows, Success([])) == Success(rows)
  {
    if r.Success? {
      assert [] + r.value == r.value;
    }
    assert rows + [] == rows;
  }

  /** A successful `SummarizeAll` holds the summaries of the files, one for
      one and in order. */
  lemma {:induction false} SummarizeAllSuccess(fs: seq<Entry>, files: seq<string>)
    requires SummarizeAll(fs, files).Success?
    ensures AllSummarized(fs, files, SummarizeAll(fs, files).value)
    decreases |files|
  {
    if files != [] {
      var rows := SummarizeAll(fs, files).value;
      SummarizeAllSuccess(fs, files[1..]);
      AllSummarizedCons(fs, files, rows);
    }
  }

  /** The summary of the first file followed by those of the rest. */
  lemma AllSummarizedCons(fs: seq<Entry>, files: seq<string>, rows: seq<Row>)
    requires files != [] && rows != []
    requires Summarize(files[0], Load(fs, files[0])) == Success(rows[0])
    requires AllSummarized(fs, files[1..], rows[1..])
    ensures AllSummarized(fs, files, rows)
  {
    forall i | 1 <= i < |files|
      ensures Summarize(files[i], Load(fs, files[i])) == Success(rows[i])
    {
      assert files[i] == files[1..][i - 1];
    }
  }

  /** A failed `SummarizeAll` carries the error of the first file that
      cannot be summarised. */
  lemma {:induction false} SummarizeAllFailure(fs: seq<Entry>, files: seq<string>)
    requires SummarizeAll(fs, files).Failure?
    ensures FirstFailure(fs, files, SummarizeAll(fs, files).error)
    decreases |files|
  {
    var e := SummarizeAll(fs, files).error;
    if Summarize(files[0], Load(fs, files[0])).Failure? {
      assert Summarize(files[0], Load(fs, files[0])) == Failure(e);
    } else {
      SummarizeAllFailure(fs, files[1..]);
      FirstFailureInTail(fs, files, e);
    }
  }

  /** A first failure behind a file that succeeds is the first failure of
      the longer list. */
  lemma FirstFailureInTail(fs: seq<Entry>, files: seq<string>, e: Error)
    requires files != [] && Summarize(files[0], Load(fs, files[0])).Success?
    requires FirstFailure(fs, files[1..], e)
    ensures FirstFailure(fs, files, e)
  {
    var tail := files[1..];
    var k :| 0 <= k < |tail| && Summarize(tail[k], Load(fs, tail[k])) == Failure(e) &&
             forall j :: 0 <= j < k ==> Summarize(tail[j], Load(fs, tail[j])).Success?;
    assert files[k + 1] == tail[k];
    forall j | 1 <= j < k + 1
      ensures Summarize(files[j], Load(fs, files[j])).Success?
    {
      assert files[j] == tail[j - 1];
    }
  }

  /** One step of the scan: the file at `i` either fails, and its error is
      the result, or adds its row to those before it. */
  lemma SummarizeAllFrom(fs: seq<Entry>, files: seq<string>, i: nat, rows: seq<Row>)
    requires i < |files|
    ensures var first := Summarize(files[i], Load(fs, files[i]));
      first.Failure? ==> Prepend(rows, SummarizeAll(fs, files[i..])) == Failure(first.error)
    ensures var first := Summarize(files[i], Load(fs, files[i]));
      first.Success? ==> Prepend(rows, SummarizeAll(fs, files[i..])) ==
                         Prepend(rows + [first.value], SummarizeAll(fs, files[i + 1..]))
  {
    assert files[i..][0] == files[i] && files[i..][1..] == files[i + 1..];
    var first := Summarize(files[i], Load(fs, files[i]));
    var rest := SummarizeAll(fs, files[i + 1..]);
    if first.Success? && rest.Success? {
      assert rows + ([first.value] + rest.value) == (rows + [first.value]) + rest.value;
    }
  }

  /** `aggregate()`: every file `glob` lists, in ascending order of path,
      summarised in turn; the first file that cannot be summarised aborts the
      whole aggregation. */
  method Aggregate(fs: seq<Entry>) returns (result: Result<seq<Row>, Error>)
    ensures result == SummarizeAll(fs, Sort(Glob(fs)))
  {
    var files := Sort(Glob(fs));
    result := SummarizeFiles(fs, files);
  }

  /** The loop of `aggregate()` over the sorted file list. */
  method SummarizeFiles(fs: seq<Entry>, files: seq<string>) returns (result: Result<seq<Row>, Error>)
    ensures result == SummarizeAll(fs, files)
  {
    var rows: seq<Row> := [];
    var i := 0;
    assert files[i..] == files;
    PrependEnds(rows, SummarizeAll(fs, files));
    while i < |files|
      invariant 0 <= i <= |files|
      invariant SummarizeAll(fs, files) == Prepend(rows, SummarizeAll(fs, files[i..]))
    {
      var r := Summarize(files[i], Load(fs, files[i]));
      SummarizeAllFrom(fs, files, i, rows);
      if r.Failure? {
        result := Failure(r.error);
        return;
      }
      rows := rows + [r.value];
      i := i + 1;
    }
    assert files[i..] == [];
    PrependEnds(rows, Success([]));
    result := Success(rows);
  }

  /** The table `aggregate()` returns has one row per path the glob lists, in
      ascending order of path, with the timestamp taken from the file name
      and `total == passed + failed` on every row. */
  lemma AggregatedRows(fs: seq<Entry>, rows: seq<Row>)
    requires AllSummarized(fs, Sort(Glob(fs)), rows)
    ensures forall i :: 0 <= i < |rows| ==>
      rows[i].file == Sort(Glob(fs))[i] && rows[i].ts == Timestamp(rows[i].file) &&
      rows[i].total == rows[i].passed + rows[i].failed
    ensures forall i, j :: 0 <= i < j < |rows| ==> LexLe(rows[i].file, rows[j].file)
  {
    var files := Sort(Glob(fs));
    forall i | 0 <= i < |rows|
      ensures rows[i].file == files[i] && rows[i].ts == Timestamp(rows[i].file)
      ensures rows[i].total == rows[i].passed + rows[i].failed
    {
      assert Summarize(files[i], Load(fs, files[i])) == Success(rows[i]);
    }
  }

  /** Every row names a report file of the directory. */
  lemma AggregatedFilesAreReports(fs: seq<Entry>, rows: seq<Row>)
    requires AllSummarized(fs, Sort(Glob(fs)), rows)
    ensures forall i :: 0 <= i < |rows| ==> IsReportPath(rows[i].file) && rows[i].file in Paths(fs)
  {
    AggregatedRows(fs, rows);
    var files := Sort(Glob(fs));
    forall i | 0 <= i < |rows|
      ensures files[i] in Glob(fs)
    {
      assert files[i] in multiset(files);
    }
  }

  /** When the directory lists each path once, no two rows name the same
      file: one row per report file. */
  lemma AggregatedFilesOnce(fs: seq<Entry>, rows: seq<Row>)
    requires NoDuplicates(Paths(fs))
    requires AllSummarized(fs, Sort(Glob(fs)), rows)
    ensures forall i, j :: 0 <= i < j < |rows| ==> rows[i].file != rows[j].file
  {
    AggregatedRows(fs, rows);
    GlobNoDuplicates(fs);
    var files := Sort(Glob(fs));
    assert NoDuplicates(files) by {
      forall x | x in files ensures multiset(files)[x] <= 1 {
        assert multiset(files)[x] == multiset(Glob(fs))[x];
      }
    }
    forall i, j | 0 <= i < j < |rows| ensures rows[i].file != rows[j].file {
      NoDuplicatesDistinct(files, i, j);
    }
  }

  /** A directory without report files aggregates to an empty table. */
  lemma {:induction false} NoReportsNoRows(fs: seq<Entry>)
    requires forall i :: 0 <= i < |fs| ==> !IsReportPath(fs[i].path)
    ensures Sort(Glob(fs)) == []
    ensures SummarizeAll(fs, Sort(Glob(fs))) == Success([])
  {
    if fs != [] {
      assert !IsReportPath(fs[0].path);
      NoReportsNoRows(fs[1..]);
    }
  }
}
