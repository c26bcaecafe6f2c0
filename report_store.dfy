/** The `reports` directory as the two report readers (the aggregator and the
    dashboard) see it: the files `glob("reports/test_results_*.csv")` lists,
    and what `pd.read_csv` makes of each. */
module ReportStore {
  import opened Wrappers

  /** A `DataFrame` reduced to what the readers use: the number of data rows
      and the `status` column, when the file has one. */
  datatype Frame = Frame(rowCount: nat, status: Option<seq<string>>)

  /** A status column has one cell per data row. */
  type Table = f: Frame | f.status.Some? ==> |f.status.value| == f.rowCount
    witness Frame(0, None)

  /** A file of the working tree: its path and, unless `read_csv` raises on
      it, its table. */
  datatype Entry = Entry(path: string, content: Option<Table>)

  const ReportDir := "reports/"
  const ReportPrefix := "test_results_"
  const ReportSuffix := ".csv"

  /** `p` matches the pattern `reports/test_results_*.csv`: the `*` stands
      for any text without a `/`. */
  predicate IsReportPath(p: string) {
    |p| >= 25 && p[..21] == ReportDir + ReportPrefix && p[|p| - 4..] == ReportSuffix
    && '/' !in p[8..]
  }

  /** A matching path is the directory, the prefix, a middle without `/` and
      the suffix. */
  lemma ReportPathParts(p: string)
    requires IsReportPath(p)
    ensures p == ReportDir + ReportPrefix + p[21..|p| - 4] + ReportSuffix
    ensures '/' !in p[21..|p| - 4]
  {
    assert p == p[..21] + p[21..|p| - 4] + p[|p| - 4..];
    assert forall k :: 21 <= k < |p| - 4 ==> p[k] == p[8..][k - 8];
  }

  /** The paths of the listed files, in listing order. */
  function Paths(fs: seq<Entry>): (r: seq<string>)
    ensures |r| == |fs| && forall i :: 0 <= i < |fs| ==> r[i] == fs[i].path
  {
    if fs == [] then [] else [fs[0].path] + Paths(fs[1..])
  }

  /** No string occurs twice in `s`. */
  predicate NoDuplicates(s: seq<string>) {
    forall x :: x in s ==> multiset(s)[x] <= 1
  }

  /** Without duplicates, the entries at two different places differ. */
  lemma NoDuplicatesDistinct(s: seq<string>, i: nat, j: nat)
    requires NoDuplicates(s) && i < j < |s|
    ensures s[i] != s[j]
  {
    assert s == s[..j] + s[j..];
    assert s[i] in s[..j] && s[j] in s[j..];
    assert multiset(s)[s[j]] == multiset(s[..j])[s[j]] + multiset(s[j..])[s[j]];
  }

  /** `glob.glob("reports/test_results_*.csv")`, in listing order. */
  function Glob(fs: seq<Entry>): (r: seq<string>)
    ensures forall p :: p in r <==> IsReportPath(p) && p in Paths(fs)
  {
    if fs == [] then []
    else
      assert Paths(fs) == [fs[0].path] + Paths(fs[1..]);
      if IsReportPath(fs[0].path) then [fs[0].path] + Glob(fs[1..]) else Glob(fs[1..])
  }

  /** The glob lists each matching path as often as the directory does, and
      no other path. */
  lemma {:induction false} GlobCounts(fs: seq<Entry>, p: string)
    ensures multiset(Glob(fs))[p] == if IsReportPath(p) then multiset(Paths(fs))[p] else 0
  {
    if fs != [] {
      GlobCounts(fs[1..], p);
      assert Paths(fs) == [fs[0].path] + Paths(fs[1..]);
    }
  }

  /** A directory that lists each path once globs each report once. */
  lemma GlobNoDuplicates(fs: seq<Entry>)
    requires NoDuplicates(Paths(fs))
    ensures NoDuplicates(Glob(fs))
  {
    forall x | x in Glob(fs) ensures multiset(Glob(fs))[x] <= 1 {
      GlobCounts(fs, x);
      assert multiset(Paths(fs))[x] <= 1;
    }
  }

  /** `pd.read_csv(path)`: the table of the file at `path`, or `None` when
      there is no such file or it cannot be parsed. */
  function Load(fs: seq<Entry>, path: string): (t: Option<Table>)
    ensures t.Some? ==> Entry(path, t) in fs
    ensures path !in Paths(fs) ==> t.None?
  {
    if fs == [] then None
    else if fs[0].path == path then fs[0].content
    else
      var t := Load(fs[1..], path);
      assert t.Some? ==> Entry(path, t) in fs by {
        if t.Some? {
          assert Entry(path, t) in fs[1..];
        }
      }
      t
  }

  /** A file the directory lists is read as the content of the first entry
      listed under its path. */
  lemma {:induction false} LoadFinds(fs: seq<Entry>, path: string, i: nat)
    requires i < |fs| && fs[i].path == path
    requires forall j :: 0 <= j < i ==> fs[j].path != path
    ensures Load(fs, path) == fs[i].content
  {
    if i > 0 {
      assert fs[0].path != path;
      LoadFinds(fs[1..], path, i - 1);
    }
  }

  /** In a directory that lists each path once, a file is read as its
      content. */
  lemma LoadPresent(fs: seq<Entry>, path: string, content: Option<Table>)
    requires NoDuplicates(Paths(fs)) && Entry(path, content) in fs
    ensures Load(fs, path) == content
  {
    var i :| 0 <= i < |fs| && fs[i] == Entry(path, content);
    forall j | 0 <= j < i
      ensures fs[j].path != path
    {
      NoDuplicatesDistinct(Paths(fs), j, i);
    }
    LoadFinds(fs, path, i);
  }

  /** `(column == s).sum()`: how many cells hold exactly `s`. */
  function Count(column: seq<string>, s: string): (n: nat)
    ensures n <= |column|
  {
    if column == [] then 0
    else (if column[0] == s then 1 else 0) + Count(column[1..], s)
  }

  /** Counting two different values never counts a cell twice; the counts
      add up to the whole column exactly when no cell holds a third value. */
  lemma {:induction false} CountTwo(column: seq<string>, a: string, b: string)
    requires a != b
    ensures Count(column, a) + Count(column, b) <= |column|
    ensures Count(column, a) + Count(column, b) == |column|
        <==> forall k :: 0 <= k < |column| ==> column[k] == a || column[k] == b
  {
    if column != [] {
      CountTwo(column[1..], a, b);
      assert forall k :: 1 <= k < |column| ==> column[k] == column[1..][k - 1];
    }
  }
}
