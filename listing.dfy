/**
 * The directory aggregator of GetFiles (files.go:109-160): it folds the flat
 * records found under the request path into one level of listing rows.
 * `Listing` is the fold written as a function over the records seen so far;
 * `BuildListing` is the loop of the handler, proved equal to it.
 */
module Aggregator {
  import opened Paths
  import opened Records

  /** One row of the listing page. */
  datatype TemplateFile = TemplateFile(
    isDir: bool,
    name: string,
    dir: string,
    size: Uint64,
    description: string,
    date: Time)

  /** The date a record is listed with: UpdatedAt, or CreatedAt when UpdatedAt is the zero time. */
  function RecordDate(f: FileRecord): Time
  {
    if f.updatedAt == 0 then f.createdAt else f.updatedAt
  }

  /** Where a record's directory sits below the requested path: TrimPrefix(Dir, rPath). */
  function Relative(rPath: string, f: FileRecord): string
  {
    TrimPrefix(f.dir, rPath)
  }

  /** A record directly in the requested directory is listed as itself. */
  predicate IsLeaf(rPath: string, f: FileRecord)
  {
    Relative(rPath, f) == []
  }

  /**
   * The name of the directory row a nested record is filed under: the
   * second piece of the slash split when there are several pieces, the only
   * piece otherwise.
   */
  function SegmentName(rel: string): string
  {
    var parts := Split(rel, '/');
    if |parts| > 1 then parts[1] else parts[0]
  }

  /** slices.IndexFunc over the rows, matching by name: the first row with that name, or -1. */
  function FindName(entries: seq<TemplateFile>, name: string): (i: int)
    ensures -1 <= i < |entries|
    ensures 0 <= i ==> entries[i].name == name
    ensures forall j :: 0 <= j < |entries| && (i < 0 || j < i) ==> entries[j].name != name
  {
    if entries == [] then -1
    else if entries[0].name == name then 0
    else
      var k := FindName(entries[1..], name);
      if k < 0 then -1 else k + 1
  }

  /** The row a record directly in the requested directory produces. */
  function Leaf(rPath: string, f: FileRecord): TemplateFile
  {
    TemplateFile(false, f.name, f.dir, f.size, f.description, RecordDate(f))
  }

  /** A fresh directory row for a nested record. */
  function NewDir(rPath: string, name: string, f: FileRecord): TemplateFile
  {
    TemplateFile(true, name, rPath, f.size, "", RecordDate(f))
  }

  /** Adding a record to an existing row: the 64-bit size sum and the later of the two dates. */
  function Merge(e: TemplateFile, f: FileRecord): TemplateFile
  {
    e.(size := AddU64(e.size, f.size),
       date := if e.date < RecordDate(f) then RecordDate(f) else e.date)
  }

  /** One iteration of the aggregation loop. */
  function Step(rPath: string, acc: seq<TemplateFile>, f: FileRecord): seq<TemplateFile>
  {
    if f.private then acc
    else if IsLeaf(rPath, f) then acc + [Leaf(rPath, f)]
    else
      var name := SegmentName(Relative(rPath, f));
      var i := FindName(acc, name);
      if i >= 0 then acc[i := Merge(acc[i], f)] else acc + [NewDir(rPath, name, f)]
  }

  /** The rows the handler builds from `files`, in the order it visits them. */
  function Listing(rPath: string, files: seq<FileRecord>): seq<TemplateFile>
  {
    if files == [] then []
    else Step(rPath, Listing(rPath, files[..|files| - 1]), files[|files| - 1])
  }

  /** The lookup loop of slices.IndexFunc. */
  method IndexOfName(entries: seq<TemplateFile>, name: string) returns (index: int)
    ensures index == FindName(entries, name)
  {
    index := 0;
    while index < |entries| && entries[index].name != name
      invariant 0 <= index <= |entries|
      invariant forall j :: 0 <= j < index ==> entries[j].name != name
    {
      index := index + 1;
    }
    if index == |entries| {
      index := -1;
    }
  }

  /** The aggregation loop of GetFiles, appending rows and updating them in place. */
  method BuildListing(rPath: string, files: seq<FileRecord>) returns (templateFiles: seq<TemplateFile>)
    ensures templateFiles == Listing(rPath, files)
  {
    templateFiles := [];
    for n := 0 to |files|
      invariant templateFiles == Listing(rPath, files[..n])
    {
      assert files[..n + 1][..n] == files[..n];
      var file := files[n];
      ghost var next := Step(rPath, templateFiles, file);
      assert Listing(rPath, files[..n + 1]) == next;
      if file.private {
        continue;
      }
      var updatedAt := file.updatedAt;
      if updatedAt == 0 {
        updatedAt := file.createdAt;
      }
      var relativePath := TrimPrefix(file.dir, rPath);
      if relativePath != [] {
        var parts := Split(relativePath, '/');
        if |parts| > 1 {
          relativePath := parts[1];
        } else {
          relativePath := parts[0];
        }
        var index := IndexOfName(templateFiles, relativePath);
        if index > -1 {
          var entry := templateFiles[index];
          var size := AddU64(entry.size, file.size);
          var date := if entry.date < updatedAt then updatedAt else entry.date;
          templateFiles := templateFiles[index := entry.(size := size, date := date)];
          assert templateFiles == next;
          continue;
        }
        templateFiles := templateFiles + [TemplateFile(true, relativePath, rPath, file.size, "", updatedAt)];
        assert templateFiles == next;
        continue;
      }
      templateFiles := templateFiles + [TemplateFile(false, file.name, file.dir, file.size, file.description, updatedAt)];
    }
    assert files[..|files|] == files;
  }

  // ---------------------------------------------------------------------
  // The naming rule

  /** A relative directory without a slash names its row by itself. */
  lemma SegmentNameWhole(rel: string)
    requires '/' !in rel
    ensures SegmentName(rel) == rel
  {
    SplitNoSeparator(rel, '/');
  }

  /**
   * When the relative directory has a slash, the row is named by the
   * slash-free run that follows the FIRST slash, whatever came before it.
   */
  lemma SegmentNameAfterSlash(x: string, y: string)
    requires '/' !in x
    ensures var r := SegmentName(x + "/" + y);
      '/' !in r && r <= y && (|r| == |y| || y[|r|] == '/')
  {
    SplitAtFirstSeparator(x, '/', y);
    SplitHead(y, '/');
  }

  /**
   * Below a non-root request path, a record at `rPath/y` is filed under the
   * first segment of `y`: the immediate child directory.
   */
  lemma NestedRecordName(rPath: string, f: FileRecord, y: string)
    requires f.dir == rPath + "/" + y
    ensures !IsLeaf(rPath, f)
    ensures var r := SegmentName(Relative(rPath, f));
      '/' !in r && r <= y && (|r| == |y| || y[|r|] == '/')
  {
    assert rPath <= f.dir;
    assert Relative(rPath, f) == [] + "/" + y;
    SegmentNameAfterSlash([], y);
  }

  /**
   * At the root, a record two or more levels deep (`/x/y...`) is filed under
   * the SECOND segment `y`, not under its top-level directory `x`.
   */
  lemma RootRecordName(f: FileRecord, x: string, y: string)
    requires '/' !in x
    requires f.dir == "/" + x + "/" + y
    ensures !IsLeaf("/", f)
    ensures var r := SegmentName(Relative("/", f));
      '/' !in r && r <= y && (|r| == |y| || y[|r|] == '/')
  {
    assert "/" <= f.dir;
    assert Relative("/", f) == x + "/" + y;
    SegmentNameAfterSlash(x, y);
  }

  // ---------------------------------------------------------------------
  // Private records, sizes and row count

  /** Private records have no influence on the listing. */
  lemma {:induction false} ListingIgnoresPrivate(rPath: string, files: seq<FileRecord>)
    ensures Listing(rPath, files) == Listing(rPath, Visible(files))
  {
    if files != [] {
      var init := files[..|files| - 1];
      var f := files[|files| - 1];
      ListingIgnoresPrivate(rPath, init);
      var v := Visible(init);
      assert Listing(rPath, files) == Step(rPath, Listing(rPath, v), f);
      if f.private {
        assert Visible(files) == v;
      } else {
        assert Visible(files) == v + [f];
        assert (v + [f])[..|v|] == v;
        assert Listing(rPath, v + [f]) == Step(rPath, Listing(rPath, v), f);
      }
    }
  }

  function SumSizes(entries: seq<TemplateFile>): nat
  {
    if entries == [] then 0 else SumSizes(entries[..|entries| - 1]) + entries[|entries| - 1].size
  }

  lemma SumSizesAppend(entries: seq<TemplateFile>, e: TemplateFile)
    ensures SumSizes(entries + [e]) == SumSizes(entries) + e.size
  {
    assert (entries + [e])[..|entries|] == entries;
  }

  lemma {:induction false} SumSizesUpdate(entries: seq<TemplateFile>, i: nat, e: TemplateFile)
    requires i < |entries|
    ensures SumSizes(entries[i := e]) == SumSizes(entries) - entries[i].size + e.size
  {
    var last := |entries| - 1;
    if i < last {
      SumSizesUpdate(entries[..last], i, e);
      assert entries[i := e][..last] == entries[..last][i := e];
    } else {
      assert entries[i := e][..last] == entries[..last];
    }
  }

  /** The size a record adds to a listing: nothing when it is private. */
  function Counted(f: FileRecord): nat
  {
    if f.private then 0 else f.size
  }

  lemma VisibleStep(files: seq<FileRecord>)
    requires files != []
    ensures var init := files[..|files| - 1];
      TotalSize(Visible(files)) == TotalSize(Visible(init)) + Counted(files[|files| - 1]) &&
      |Visible(files)| == |Visible(init)| + (if files[|files| - 1].private then 0 else 1)
  {
    var init := files[..|files| - 1];
    var f := files[|files| - 1];
    if f.private {
      assert Visible(files) == Visible(init);
    } else {
      assert Visible(files) == Visible(init) + [f];
      TotalSizeAppend(Visible(init), f);
    }
  }

  /**
   * The rows never add up to more than the non-private records, and exactly
   * to their total when that total fits in 64 bits (the handler's `+=` wraps
   * around beyond it).
   */
  lemma {:induction false} ListingSize(rPath: string, files: seq<FileRecord>)
    ensures SumSizes(Listing(rPath, files)) <= TotalSize(Visible(files))
    ensures TotalSize(Visible(files)) < U64 ==> SumSizes(Listing(rPath, files)) == TotalSize(Visible(files))
  {
    if files != [] {
      var init := files[..|files| - 1];
      ListingSize(rPath, init);
      VisibleStep(files);
      StepSize(rPath, Listing(rPath, init), files[|files| - 1], TotalSize(Visible(init)));
    }
  }

  /** There are never more rows than non-private records. */
  lemma {:induction false} ListingLength(rPath: string, files: seq<FileRecord>)
    ensures |Listing(rPath, files)| <= |Visible(files)|
  {
    if files != [] {
      var init := files[..|files| - 1];
      ListingLength(rPath, init);
      VisibleStep(files);
    }
  }

  /** One step of the fold adds at most the record's counted size, and exactly that below 2^64. */
  lemma StepSize(rPath: string, acc: seq<TemplateFile>, f: FileRecord, total: nat)
    requires SumSizes(acc) <= total
    requires total + Counted(f) < U64 ==> SumSizes(acc) == total
    ensures SumSizes(Step(rPath, acc, f)) <= total + Counted(f)
    ensures total + Counted(f) < U64 ==> SumSizes(Step(rPath, acc, f)) == total + Counted(f)
  {
    if !f.private {
      if IsLeaf(rPath, f) {
        SumSizesAppend(acc, Leaf(rPath, f));
      } else {
        var name := SegmentName(Relative(rPath, f));
        var i := FindName(acc, name);
        if i >= 0 {
          SumSizesUpdate(acc, i, Merge(acc[i], f));
          SumSizesUpdate(acc, i, acc[i].(size := 0));
        } else {
          SumSizesAppend(acc, NewDir(rPath, name, f));
        }
      }
    }
  }

  // ---------------------------------------------------------------------
  // Shape of the rows

  /** A nested, non-private record. */
  predicate Nested(rPath: string, f: FileRecord)
  {
    !f.private && !IsLeaf(rPath, f)
  }

  /** No row comes before a directory row of the same name. */
  predicate UniqueDirs(rows: seq<TemplateFile>)
  {
    forall i, j :: 0 <= i < j < |rows| && rows[j].isDir ==> rows[i].name != rows[j].name
  }

  /**
   * What holds of the rows built from the records `done`: a directory row
   * has no earlier row of the same name, directory rows sit in the requested
   * directory with no description, every file row carries the name, directory
   * and description of a non-private record directly in that directory, and
   * every nested non-private record has a row under its segment name.
   */
  ghost predicate Shaped(rPath: string, done: seq<FileRecord>, rows: seq<TemplateFile>)
  {
    && UniqueDirs(rows)
    && (forall i :: 0 <= i < |rows| && rows[i].isDir ==> rows[i].dir == rPath && rows[i].description == "")
    && (forall i :: 0 <= i < |rows| && !rows[i].isDir ==>
          exists f :: f in done && !f.private && IsLeaf(rPath, f) &&
            rows[i].name == f.name && rows[i].dir == f.dir && rows[i].description == f.description)
    && (forall k :: 0 <= k < |done| && Nested(rPath, done[k]) ==>
          FindName(rows, SegmentName(Relative(rPath, done[k]))) >= 0)
  }

  lemma StepShaped(rPath: string, done: seq<FileRecord>, acc: seq<TemplateFile>, f: FileRecord)
    requires Shaped(rPath, done, acc)
    ensures Shaped(rPath, done + [f], Step(rPath, acc, f))
  {
    var next := done + [f];
    if f.private {
      assert forall k :: 0 <= k < |done| ==> next[k] == done[k];
    } else if IsLeaf(rPath, f) {
      StepShapedLeaf(rPath, done, acc, f);
    } else {
      StepShapedNested(rPath, done, acc, f);
    }
  }

  lemma StepShapedLeaf(rPath: string, done: seq<FileRecord>, acc: seq<TemplateFile>, f: FileRecord)
    requires Shaped(rPath, done, acc) && !f.private && IsLeaf(rPath, f)
    ensures Shaped(rPath, done + [f], Step(rPath, acc, f))
  {
    var rows := Step(rPath, acc, f);
    var next := done + [f];
    assert rows == acc + [Leaf(rPath, f)];
    forall k | 0 <= k < |next| && Nested(rPath, next[k])
      ensures FindName(rows, SegmentName(Relative(rPath, next[k]))) >= 0
    {
      if k < |done| {
        assert next[k] == done[k];
        FindNameKept(acc, rows, SegmentName(Relative(rPath, done[k])));
      }
    }
    assert rows[|acc|] == Leaf(rPath, f);
  }

  lemma StepShapedNested(rPath: string, done: seq<FileRecord>, acc: seq<TemplateFile>, f: FileRecord)
    requires Shaped(rPath, done, acc) && Nested(rPath, f)
    ensures Shaped(rPath, done + [f], Step(rPath, acc, f))
  {
    var rows := Step(rPath, acc, f);
    var next := done + [f];
    var name := SegmentName(Relative(rPath, f));
    var i := FindName(acc, name);
    assert |acc| <= |rows| && forall j :: 0 <= j < |acc| ==> rows[j].name == acc[j].name;
    forall k | 0 <= k < |next| && Nested(rPath, next[k])
      ensures FindName(rows, SegmentName(Relative(rPath, next[k]))) >= 0
    {
      if k < |done| {
        assert next[k] == done[k];
        FindNameKept(acc, rows, SegmentName(Relative(rPath, done[k])));
      } else if i < 0 {
        assert next[k] == f;
        assert rows[|acc|].name == name;
      } else {
        assert next[k] == f;
        assert rows[i].name == name;
      }
    }
  }

  /** The listing as a whole has that shape. */
  lemma {:induction false} ListingShaped(rPath: string, files: seq<FileRecord>)
    ensures Shaped(rPath, files, Listing(rPath, files))
  {
    if files != [] {
      var init := files[..|files| - 1];
      ListingShaped(rPath, init);
      StepShaped(rPath, init, Listing(rPath, init), files[|files| - 1]);
      assert init + [files[|files| - 1]] == files;
    }
  }

  // ---------------------------------------------------------------------
  // Aggregation per directory row

  /** A nested, non-private record filed under the row `name`. */
  predicate FiledUnder(rPath: string, f: FileRecord, name: string)
  {
    Nested(rPath, f) && SegmentName(Relative(rPath, f)) == name
  }

  /** The records filed under the row `name`, in order. */
  function Group(rPath: string, files: seq<FileRecord>, name: string): (g: seq<FileRecord>)
    ensures forall r :: r in g ==> r in files && FiledUnder(rPath, r, name)
  {
    if files == [] then []
    else
      var init := files[..|files| - 1];
      var last := files[|files| - 1];
      assert files == init + [last];
      Group(rPath, init, name) + (if FiledUnder(rPath, last, name) then [last] else [])
  }

  /** The latest listing date among some records (the zero time for none). */
  function MaxDate(g: seq<FileRecord>): (d: Time)
    ensures forall k :: 0 <= k < |g| ==> RecordDate(g[k]) <= d
    ensures g != [] ==> exists k :: 0 <= k < |g| && RecordDate(g[k]) == d
  {
    if g == [] then 0
    else
      var d := MaxDate(g[..|g| - 1]);
      var e := RecordDate(g[|g| - 1]);
      if d < e then e else d
  }

  /**
   * No record directly in the requested directory has the name of a row a
   * nested record is filed under. Without this, the lookup by name (which
   * also sees file rows) folds nested records into a file row.
   */
  ghost predicate NoClash(rPath: string, files: seq<FileRecord>)
  {
    forall j, k :: 0 <= j < |files| && 0 <= k < |files| && !files[j].private && IsLeaf(rPath, files[j]) && Nested(rPath, files[k]) ==>
      files[j].name != SegmentName(Relative(rPath, files[k]))
  }

  /** A directory row carries the latest date and the size sum of its non-empty group. */
  ghost predicate RowAggregated(rPath: string, done: seq<FileRecord>, row: TemplateFile)
  {
    var g := Group(rPath, done, row.name);
    g != [] && row.date == MaxDate(g) && row.size <= TotalSize(g) &&
    (TotalSize(g) < U64 ==> row.size == TotalSize(g))
  }

  /** Every directory row is aggregated. */
  ghost predicate DirsAggregated(rPath: string, done: seq<FileRecord>, rows: seq<TemplateFile>)
  {
    forall i :: 0 <= i < |rows| && rows[i].isDir ==> RowAggregated(rPath, done, rows[i])
  }

  /** Each nested record finds a directory row under its segment name. */
  ghost predicate NestedFiled(rPath: string, done: seq<FileRecord>, rows: seq<TemplateFile>)
  {
    forall k :: 0 <= k < |done| && Nested(rPath, done[k]) ==>
      var m := FindName(rows, SegmentName(Relative(rPath, done[k])));
      0 <= m && rows[m].isDir
  }

  /** Each file row is the row of a record directly in the requested directory. */
  ghost predicate LeavesIntact(rPath: string, done: seq<FileRecord>, rows: seq<TemplateFile>)
  {
    forall i :: 0 <= i < |rows| && !rows[i].isDir ==>
      exists j :: 0 <= j < |done| && !done[j].private && IsLeaf(rPath, done[j]) && rows[i] == Leaf(rPath, done[j])
  }

  ghost predicate Aggregated(rPath: string, done: seq<FileRecord>, rows: seq<TemplateFile>)
  {
    DirsAggregated(rPath, done, rows) && NestedFiled(rPath, done, rows) && LeavesIntact(rPath, done, rows)
  }

  lemma GroupAppend(rPath: string, done: seq<FileRecord>, f: FileRecord, name: string)
    ensures Group(rPath, done + [f], name) == Group(rPath, done, name) + (if FiledUnder(rPath, f, name) then [f] else [])
  {
    assert (done + [f])[..|done|] == done;
  }

  lemma MaxDateAppend(g: seq<FileRecord>, f: FileRecord)
    ensures MaxDate(g + [f]) == if MaxDate(g) < RecordDate(f) then RecordDate(f) else MaxDate(g)
  {
    assert (g + [f])[..|g|] == g;
  }

  /** Under NoClash, the row a nested record is merged into is a directory row. */
  lemma MergeTargetIsDir(rPath: string, files: seq<FileRecord>, n: nat, acc: seq<TemplateFile>)
    requires n < |files| && NoClash(rPath, files) && LeavesIntact(rPath, files[..n], acc)
    requires Nested(rPath, files[n]) && FindName(acc, SegmentName(Relative(rPath, files[n]))) >= 0
    ensures acc[FindName(acc, SegmentName(Relative(rPath, files[n])))].isDir
  {
    var i := FindName(acc, SegmentName(Relative(rPath, files[n])));
    if !acc[i].isDir {
      assert false;
    }
  }

  /** Under NoClash, one step of the fold keeps the rows aggregated. */
  lemma StepAggregated(rPath: string, files: seq<FileRecord>, n: nat, acc: seq<TemplateFile>)
    requires n < |files| && NoClash(rPath, files)
    requires UniqueDirs(acc) && Aggregated(rPath, files[..n], acc)
    ensures Aggregated(rPath, files[..n + 1], Step(rPath, acc, files[n]))
  {
    var f := files[n];
    var done := files[..n];
    assert files[..n + 1] == done + [f];
    if Nested(rPath, f) && FindName(acc, SegmentName(Relative(rPath, f))) >= 0 {
      MergeTargetIsDir(rPath, files, n, acc);
    }
    StepAggregatedOn(rPath, done, f, acc);
  }

  lemma StepAggregatedOn(rPath: string, done: seq<FileRecord>, f: FileRecord, acc: seq<TemplateFile>)
    requires UniqueDirs(acc) && Aggregated(rPath, done, acc)
    requires Nested(rPath, f) && FindName(acc, SegmentName(Relative(rPath, f))) >= 0 ==>
      acc[FindName(acc, SegmentName(Relative(rPath, f)))].isDir
    ensures Aggregated(rPath, done + [f], Step(rPath, acc, f))
  {
    var rows := Step(rPath, acc, f);
    LeavesKept(rPath, done, acc, f, rows);
    if !Nested(rPath, f) {
      StepAggregatedUnfiled(rPath, done, f, acc);
    } else if FindName(acc, SegmentName(Relative(rPath, f))) >= 0 {
      StepAggregatedMerge(rPath, done, f, acc);
    } else {
      StepAggregatedNewDir(rPath, done, f, acc);
    }
  }

  /** A directory row the step does not touch keeps its group. */
  lemma DirKept(rPath: string, done: seq<FileRecord>, acc: seq<TemplateFile>, f: FileRecord, j: int)
    requires 0 <= j < |acc| && acc[j].isDir && UniqueDirs(acc)
    requires Nested(rPath, f) ==> j != FindName(acc, SegmentName(Relative(rPath, f)))
    requires RowAggregated(rPath, done, acc[j])
    ensures RowAggregated(rPath, done + [f], acc[j])
  {
    GroupAppend(rPath, done, f, acc[j].name);
    if Nested(rPath, f) {
      var i := FindName(acc, SegmentName(Relative(rPath, f)));
      assert acc[j].name != SegmentName(Relative(rPath, f)) by {
        if 0 <= i < j {
          assert acc[i].name != acc[j].name;
        }
      }
    }
    assert !FiledUnder(rPath, f, acc[j].name);
    assert Group(rPath, done + [f], acc[j].name) == Group(rPath, done, acc[j].name);
  }

  lemma StepAggregatedUnfiled(rPath: string, done: seq<FileRecord>, f: FileRecord, acc: seq<TemplateFile>)
    requires !Nested(rPath, f)
    requires UniqueDirs(acc) && DirsAggregated(rPath, done, acc) && NestedFiled(rPath, done, acc)
    ensures DirsAggregated(rPath, done + [f], Step(rPath, acc, f)) && NestedFiled(rPath, done + [f], Step(rPath, acc, f))
  {
    var rows := Step(rPath, acc, f);
    assert |acc| <= |rows| && forall j :: 0 <= j < |acc| ==> rows[j] == acc[j];
    forall j | 0 <= j < |rows| && rows[j].isDir
      ensures RowAggregated(rPath, done + [f], rows[j])
    {
      DirKept(rPath, done, acc, f, j);
    }
    NestedKept(rPath, done, acc, f, rows);
  }

  lemma StepAggregatedMerge(rPath: string, done: seq<FileRecord>, f: FileRecord, acc: seq<TemplateFile>)
    requires Nested(rPath, f) && FindName(acc, SegmentName(Relative(rPath, f))) >= 0
    requires acc[FindName(acc, SegmentName(Relative(rPath, f)))].isDir
    requires UniqueDirs(acc) && DirsAggregated(rPath, done, acc) && NestedFiled(rPath, done, acc)
    ensures DirsAggregated(rPath, done + [f], Step(rPath, acc, f)) && NestedFiled(rPath, done + [f], Step(rPath, acc, f))
  {
    var rows := Step(rPath, acc, f);
    var name := SegmentName(Relative(rPath, f));
    var i := FindName(acc, name);
    assert rows == acc[i := Merge(acc[i], f)];
    forall j | 0 <= j < |rows| && rows[j].isDir
      ensures RowAggregated(rPath, done + [f], rows[j])
    {
      if j == i {
        DirMerged(rPath, done, acc, f, i);
      } else {
        assert rows[j] == acc[j];
        DirKept(rPath, done, acc, f, j);
      }
    }
    assert rows[i].name == name;
    NestedKept(rPath, done, acc, f, rows);
  }

  lemma StepAggregatedNewDir(rPath: string, done: seq<FileRecord>, f: FileRecord, acc: seq<TemplateFile>)
    requires Nested(rPath, f) && FindName(acc, SegmentName(Relative(rPath, f))) < 0
    requires UniqueDirs(acc) && DirsAggregated(rPath, done, acc) && NestedFiled(rPath, done, acc)
    ensures DirsAggregated(rPath, done + [f], Step(rPath, acc, f)) && NestedFiled(rPath, done + [f], Step(rPath, acc, f))
  {
    var rows := Step(rPath, acc, f);
    var name := SegmentName(Relative(rPath, f));
    assert rows == acc + [NewDir(rPath, name, f)];
    forall j | 0 <= j < |rows| && rows[j].isDir
      ensures RowAggregated(rPath, done + [f], rows[j])
    {
      if j == |acc| {
        DirAppended(rPath, done, acc, f);
      } else {
        assert rows[j] == acc[j];
        DirKept(rPath, done, acc, f, j);
      }
    }
    assert rows[|acc|].name == name;
    NestedKept(rPath, done, acc, f, rows);
  }

  /** The merged row takes the later date and the added size. */
  lemma DirMerged(rPath: string, done: seq<FileRecord>, acc: seq<TemplateFile>, f: FileRecord, i: int)
    requires Nested(rPath, f)
    requires i == FindName(acc, SegmentName(Relative(rPath, f))) && 0 <= i && acc[i].isDir
    requires RowAggregated(rPath, done, acc[i])
    ensures RowAggregated(rPath, done + [f], Merge(acc[i], f))
  {
    var G := Group(rPath, done, acc[i].name);
    GroupAppend(rPath, done, f, acc[i].name);
    MaxDateAppend(G, f);
    TotalSizeAppend(G, f);
  }

  /** A new directory row starts the group of its first record. */
  lemma DirAppended(rPath: string, done: seq<FileRecord>, acc: seq<TemplateFile>, f: FileRecord)
    requires Nested(rPath, f)
    requires FindName(acc, SegmentName(Relative(rPath, f))) < 0
    requires NestedFiled(rPath, done, acc)
    ensures RowAggregated(rPath, done + [f], NewDir(rPath, SegmentName(Relative(rPath, f)), f))
  {
    var name := SegmentName(Relative(rPath, f));
    GroupEmptyWhenUnfiled(rPath, done, acc, name);
    GroupAppend(rPath, done, f, name);
    assert Group(rPath, done + [f], name) == [f];
    assert [f][..0] == [];
    assert MaxDate([f]) == RecordDate(f);
    assert TotalSize([f]) == f.size;
  }

  /** A name no record has found a row under has no records filed under it. */
  lemma {:induction false} GroupEmptyWhenUnfiled(rPath: string, done: seq<FileRecord>, acc: seq<TemplateFile>, name: string)
    requires FindName(acc, name) < 0
    requires NestedFiled(rPath, done, acc)
    ensures Group(rPath, done, name) == []
  {
    if done != [] {
      var init := done[..|done| - 1];
      forall k | 0 <= k < |init| && Nested(rPath, init[k])
        ensures 0 <= FindName(acc, SegmentName(Relative(rPath, init[k])))
      {
        assert init[k] == done[k];
      }
      GroupEmptyWhenUnfiled(rPath, init, acc, name);
    }
  }

  /** A successful lookup gives the same row after rows are appended or merged in place. */
  lemma FindNameKept(acc: seq<TemplateFile>, rows: seq<TemplateFile>, name: string)
    requires |acc| <= |rows|
    requires forall j :: 0 <= j < |acc| ==> rows[j].name == acc[j].name
    requires FindName(acc, name) >= 0
    ensures FindName(rows, name) == FindName(acc, name)
  {
    var m := FindName(acc, name);
    assert rows[m].name == name;
  }

  /** Lookups by name that succeeded before still succeed, at the same directory row. */
  lemma NestedKept(rPath: string, done: seq<FileRecord>, acc: seq<TemplateFile>, f: FileRecord, rows: seq<TemplateFile>)
    requires NestedFiled(rPath, done, acc)
    requires |acc| <= |rows|
    requires forall j :: 0 <= j < |acc| ==> rows[j].name == acc[j].name && rows[j].isDir == acc[j].isDir
    requires Nested(rPath, f) ==> var m := FindName(rows, SegmentName(Relative(rPath, f))); 0 <= m && rows[m].isDir
    ensures NestedFiled(rPath, done + [f], rows)
  {
    var next := done + [f];
    forall k | 0 <= k < |next| && Nested(rPath, next[k])
      ensures var m := FindName(rows, SegmentName(Relative(rPath, next[k]))); 0 <= m && rows[m].isDir
    {
      if k < |done| {
        assert next[k] == done[k];
        FindNameKept(acc, rows, SegmentName(Relative(rPath, done[k])));
      } else {
        assert next[k] == f;
      }
    }
  }

  /** File rows are never touched by a merge, so they stay rows of records. */
  lemma LeavesKept(rPath: string, done: seq<FileRecord>, acc: seq<TemplateFile>, f: FileRecord, rows: seq<TemplateFile>)
    requires rows == Step(rPath, acc, f)
    requires LeavesIntact(rPath, done, acc)
    requires Nested(rPath, f) && FindName(acc, SegmentName(Relative(rPath, f))) >= 0 ==>
      acc[FindName(acc, SegmentName(Relative(rPath, f)))].isDir
    ensures LeavesIntact(rPath, done + [f], rows)
  {
    var next := done + [f];
    forall i | 0 <= i < |rows| && !rows[i].isDir
      ensures exists j :: 0 <= j < |next| && !next[j].private && IsLeaf(rPath, next[j]) && rows[i] == Leaf(rPath, next[j])
    {
      if i == |acc| {
        assert next[|done|] == f;
      } else {
        assert rows[i] == acc[i];
        var j :| 0 <= j < |done| && !done[j].private && IsLeaf(rPath, done[j]) && acc[i] == Leaf(rPath, done[j]);
        assert next[j] == done[j];
      }
    }
  }

  lemma {:induction false} ListingAggregatedUpTo(rPath: string, files: seq<FileRecord>, n: nat)
    requires n <= |files| && NoClash(rPath, files)
    ensures Aggregated(rPath, files[..n], Listing(rPath, files[..n]))
  {
    if n > 0 {
      var done := files[..n - 1];
      ListingAggregatedUpTo(rPath, files, n - 1);
      ListingShaped(rPath, done);
      assert files[..n][..n - 1] == done;
      StepAggregated(rPath, files, n - 1, Listing(rPath, done));
    }
  }

  /**
   * Unless a file directly in the requested directory shares its name with a
   * directory row: each directory row gathers a non-empty group of nested
   * records, with the latest of their dates and the sum of their sizes
   * (exact below 2^64); every nested record has a directory row under its
   * segment name; and every file row is a record of the directory, unchanged.
   */
  lemma ListingAggregates(rPath: string, files: seq<FileRecord>)
    requires NoClash(rPath, files)
    ensures var rows := Listing(rPath, files);
      forall i :: 0 <= i < |rows| && rows[i].isDir ==>
        var g := Group(rPath, files, rows[i].name);
        g != [] && rows[i].date == MaxDate(g) && rows[i].size <= TotalSize(g) &&
        (TotalSize(g) < U64 ==> rows[i].size == TotalSize(g))
    ensures var rows := Listing(rPath, files);
      forall k :: 0 <= k < |files| && Nested(rPath, files[k]) ==>
        var m := FindName(rows, SegmentName(Relative(rPath, files[k])));
        0 <= m && rows[m].isDir
    ensures var rows := Listing(rPath, files);
      forall i :: 0 <= i < |rows| && !rows[i].isDir ==>
        exists j :: 0 <= j < |files| && !files[j].private && IsLeaf(rPath, files[j]) && rows[i] == Leaf(rPath, files[j])
  {
    ListingAggregatedUpTo(rPath, files, |files|);
    assert files[..|files|] == files;
  }

  // ---------------------------------------------------------------------
  // Order

  /** A step never reorders or renames rows; it only widens dates and appends at the end. */
  lemma StepKeepsRows(rPath: string, acc: seq<TemplateFile>, f: FileRecord)
    ensures var rows := Step(rPath, acc, f);
      |acc| <= |rows| <= |acc| + 1 &&
      forall i :: 0 <= i < |acc| ==>
        rows[i].name == acc[i].name && rows[i].isDir == acc[i].isDir && rows[i].dir == acc[i].dir &&
        rows[i].description == acc[i].description && rows[i].date >= acc[i].date
  {
  }

  /**
   * A nested record whose segment name already has a row is merged into
   * that row in place: nothing is appended, every other row is unchanged,
   * the size grows by the record's (modulo 2^64) and the date becomes the
   * later of the two.
   */
  lemma MergeInPlace(rPath: string, acc: seq<TemplateFile>, f: FileRecord)
    requires Nested(rPath, f) && FindName(acc, SegmentName(Relative(rPath, f))) >= 0
    ensures var i := FindName(acc, SegmentName(Relative(rPath, f)));
      var rows := Step(rPath, acc, f);
      && |rows| == |acc|
      && (forall j :: 0 <= j < |acc| && j != i ==> rows[j] == acc[j])
      && rows[i].name == acc[i].name && rows[i].isDir == acc[i].isDir
      && rows[i].size == (acc[i].size + f.size) % U64
      && rows[i].date >= acc[i].date && rows[i].date >= RecordDate(f)
      && (rows[i].date == acc[i].date || rows[i].date == RecordDate(f))
  {
  }

  /**
   * The rows built from a prefix of the records keep their position, name,
   * kind, directory and description in the final listing, and their dates
   * only grow.
   */
  lemma {:induction false} ListingExtends(rPath: string, files: seq<FileRecord>, m: nat)
    requires m <= |files|
    ensures var a := Listing(rPath, files[..m]);
      var b := Listing(rPath, files);
      |a| <= |b| &&
      forall i :: 0 <= i < |a| ==>
        b[i].name == a[i].name && b[i].isDir == a[i].isDir && b[i].dir == a[i].dir &&
        b[i].description == a[i].description && b[i].date >= a[i].date
  {
    if m < |files| {
      var init := files[..|files| - 1];
      ListingExtends(rPath, init, m);
      assert init[..m] == files[..m];
      StepKeepsRows(rPath, Listing(rPath, init), files[|files| - 1]);
    } else {
      assert files[..m] == files;
    }
  }

  /** A step leaves a row alone unless the record is nested and filed under that row's name. */
  lemma StepKeepsRow(rPath: string, acc: seq<TemplateFile>, f: FileRecord, j: nat)
    requires j < |acc|
    requires Nested(rPath, f) ==> SegmentName(Relative(rPath, f)) != acc[j].name
    ensures j < |Step(rPath, acc, f)| && Step(rPath, acc, f)[j] == acc[j]
  {
  }

  /**
   * A row built from a prefix of the records reaches the final listing
   * unchanged when no later nested record is filed under its name.
   */
  lemma {:induction false} RowStays(rPath: string, files: seq<FileRecord>, m: nat, j: nat)
    requires m <= |files| && j < |Listing(rPath, files[..m])|
    requires forall k :: m <= k < |files| && Nested(rPath, files[k]) ==>
      SegmentName(Relative(rPath, files[k])) != Listing(rPath, files[..m])[j].name
    ensures j < |Listing(rPath, files)| && Listing(rPath, files)[j] == Listing(rPath, files[..m])[j]
  {
    if m < |files| {
      var init := files[..|files| - 1];
      assert init[..m] == files[..m];
      RowStays(rPath, init, m, j);
      StepKeepsRow(rPath, Listing(rPath, init), files[|files| - 1], j);
    } else {
      assert files[..m] == files;
    }
  }

  /**
   * Every non-private record directly in the requested directory has a
   * file row with its name, directory and description. When no file shares
   * its name with a directory row, that row is the record's own, so it has
   * the record's size and is dated by UpdatedAt, or by CreatedAt when
   * UpdatedAt is the zero time.
   */
  lemma LeafRowListed(rPath: string, files: seq<FileRecord>, k: nat) returns (i: nat)
    requires k < |files| && !files[k].private && IsLeaf(rPath, files[k])
    ensures var rows := Listing(rPath, files);
      && i < |rows| && !rows[i].isDir
      && rows[i].name == files[k].name && rows[i].dir == files[k].dir
      && rows[i].description == files[k].description
    ensures NoClash(rPath, files) ==>
      var rows := Listing(rPath, files);
      && i < |rows| && rows[i] == Leaf(rPath, files[k])
      && rows[i].size == files[k].size
      && rows[i].date == (if files[k].updatedAt == 0 then files[k].createdAt else files[k].updatedAt)
  {
    var pre := files[..k + 1];
    assert pre[..k] == files[..k];
    i := |Listing(rPath, files[..k])|;
    assert Listing(rPath, pre) == Listing(rPath, files[..k]) + [Leaf(rPath, files[k])];
    ListingExtends(rPath, files, k + 1);
    if NoClash(rPath, files) {
      RowStays(rPath, files, k + 1, i);
    }
  }

  // ---------------------------------------------------------------------
  // Worked examples

  /**
   * Two records in /a/x and one in /a, listed at /a: one directory row "x"
   * with the summed size and the later date (an UpdatedAt of zero falls
   * back to CreatedAt), then the file row; the private record is skipped.
   */
  lemma ExampleNestedRows()
    ensures var files := [
        FileRecord("/a/x", "f1", 10, "text/plain", "one", false, 5, 0),
        FileRecord("/a/x", "f2", 20, "text/plain", "two", false, 3, 7),
        FileRecord("/a/x", "f3", 40, "text/plain", "hidden", true, 9, 9),
        FileRecord("/a", "g", 1, "text/plain", "gee", false, 1, 0)];
      Listing("/a", files) == [TemplateFile(true, "x", "/a", 30, "", 7), TemplateFile(false, "g", "/a", 1, "gee", 1)]
  {
    var f1 := FileRecord("/a/x", "f1", 10, "text/plain", "one", false, 5, 0);
    var f2 := FileRecord("/a/x", "f2", 20, "text/plain", "two", false, 3, 7);
    var f3 := FileRecord("/a/x", "f3", 40, "text/plain", "hidden", true, 9, 9);
    var f4 := FileRecord("/a", "g", 1, "text/plain", "gee", false, 1, 0);
    var files := [f1, f2, f3, f4];
    SplitAtFirstSeparator([], '/', "x");
    SplitNoSeparator("x", '/');
    assert Relative("/a", f1) == "/x" && SegmentName("/x") == "x";
    var r1 := [TemplateFile(true, "x", "/a", 10, "", 5)];
    assert Listing("/a", [f1]) == Step("/a", [], f1) == r1;
    var r2 := [TemplateFile(true, "x", "/a", 30, "", 7)];
    assert [f1, f2][..1] == [f1];
    assert Listing("/a", [f1, f2]) == Step("/a", r1, f2) == r2;
    assert [f1, f2, f3][..2] == [f1, f2];
    assert Listing("/a", [f1, f2, f3]) == r2;
    assert files[..3] == [f1, f2, f3];
    assert Listing("/a", files) == Step("/a", r2, f4);
  }

  /** At the root, a record in /a/b is listed under a row named "b", not "a". */
  lemma ExampleRootQuirk()
    ensures Listing("/", [FileRecord("/a/b", "f", 2, "text/plain", "", false, 1, 0)]) ==
            [TemplateFile(true, "b", "/", 2, "", 1)]
  {
    SplitAtFirstSeparator("a", '/', "b");
    SplitNoSeparator("b", '/');
  }

  /**
   * A file named "x" directly in /a and a record in /a/x: the nested record
   * is folded into the FILE row, whose size then counts both.
   */
  lemma ExampleNameClash()
    ensures Listing("/a", [
        FileRecord("/a", "x", 1, "text/plain", "", false, 1, 0),
        FileRecord("/a/x", "y", 2, "text/plain", "", false, 4, 0)]) ==
            [TemplateFile(false, "x", "/a", 3, "", 4)]
  {
    SplitAtFirstSeparator([], '/', "x");
    SplitNoSeparator("x", '/');
  }
}
