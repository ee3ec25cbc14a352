/**
 * The zip download of GetFiles (files.go:71-101): which entries the archive
 * gets, what each entry header says, the archive's file name, and where the
 * streaming loop stops when an object cannot be read. Compression and the
 * zip byte format are not modelled; an archive is its sequence of entry
 * headers and its trailing comment.
 */
module Archive {
  import opened Paths
  import opened Records

  /** The parts of zip.FileHeader the handler fills in. */
  datatype ZipHeader = ZipHeader(
    name: string,
    uncompressedSize: Uint64,
    modified: Time,
    comment: string)

  /** The fixed archive comment written after the last entry. */
  const ArchiveComment: string := "Generated by godrive"

  /** The product name used for archives of top-level paths. */
  const ProductName: string := "godrive"

  /** The entry header for one record: its full path without the leading slash. */
  function EntryHeader(f: FileRecord): (h: ZipHeader)
    ensures "/" <= FullName(f) ==> "/" + h.name == FullName(f)
    ensures !("/" <= FullName(f)) ==> h.name == FullName(f)
  {
    ZipHeader(TrimPrefix(FullName(f), "/"), f.size, f.updatedAt, f.description)
  }

  /** The entries of a complete archive: one per non-private record, in input order. */
  function ZipEntries(files: seq<FileRecord>): seq<ZipHeader>
  {
    if files == [] then []
    else
      var last := files[|files| - 1];
      ZipEntries(files[..|files| - 1]) + (if last.private then [] else [EntryHeader(last)])
  }

  /** The entries are the headers of the non-private records, one each, in input order. */
  lemma {:induction false} ZipEntriesVisible(files: seq<FileRecord>)
    ensures |ZipEntries(files)| == |Visible(files)|
    ensures forall i :: 0 <= i < |ZipEntries(files)| ==> ZipEntries(files)[i] == EntryHeader(Visible(files)[i])
    ensures forall i :: 0 <= i < |ZipEntries(files)| ==>
      var h := ZipEntries(files)[i];
      var f := Visible(files)[i];
      && TrimPrefix(FullName(f), "/") == h.name
      && h.uncompressedSize == f.size && h.modified == f.updatedAt && h.comment == f.description
  {
    if files != [] {
      var init := files[..|files| - 1];
      var last := files[|files| - 1];
      ZipEntriesVisible(init);
      var entries := ZipEntries(init);
      var visible := Visible(init);
      if last.private {
        assert ZipEntries(files) == entries && Visible(files) == visible;
      } else {
        assert ZipEntries(files) == entries + [EntryHeader(last)];
        assert Visible(files) == visible + [last];
      }
    }
  }

  /** The Content-Disposition file name: the parent of the request path, or the product name at the top. */
  function ZipFileName(urlPath: string): string
  {
    var d := Dir(urlPath);
    (if d == "/" || d == "." then ProductName else d) + ".zip"
  }

  /**
   * How the streaming loop ends: it writes every entry, or it stops at the
   * first object it cannot read, after that entry's header was written.
   */
  datatype ZipOutcome =
    | Completed(entries: seq<ZipHeader>)
    | Aborted(entries: seq<ZipHeader>, failedKey: string)

  /**
   * The loop over the records, given the object keys whose read fails
   * (GetObject or the copy into the entry).
   */
  function ZipRun(files: seq<FileRecord>, unreadable: set<string>): ZipOutcome
  {
    if files == [] then Completed([])
    else
      var last := files[|files| - 1];
      match ZipRun(files[..|files| - 1], unreadable)
      case Aborted(es, key) => Aborted(es, key)
      case Completed(es) =>
        if last.private then Completed(es)
        else if FullName(last) in unreadable then Aborted(es + [EntryHeader(last)], FullName(last))
        else Completed(es + [EntryHeader(last)])
  }

  /** The streaming loop of the handler; it returns as soon as an object read fails. */
  method WriteZip(files: seq<FileRecord>, unreadable: set<string>) returns (outcome: ZipOutcome)
    ensures outcome == ZipRun(files, unreadable)
  {
    var written: seq<ZipHeader> := [];
    for n := 0 to |files|
      invariant ZipRun(files[..n], unreadable) == Completed(written)
    {
      assert files[..n + 1][..n] == files[..n];
      var file := files[n];
      if file.private {
        continue;
      }
      var fullName := Join(file.dir, file.name);
      written := written + [ZipHeader(TrimPrefix(fullName, "/"), file.size, file.updatedAt, file.description)];
      if fullName in unreadable {
        ZipRunStopped(files, unreadable, n + 1);
        return Aborted(written, fullName);
      }
    }
    assert files[..|files|] == files;
    return Completed(written);
  }

  /** Once the loop has stopped, later records change nothing. */
  lemma {:induction false} ZipRunStopped(files: seq<FileRecord>, unreadable: set<string>, n: nat)
    requires n <= |files| && ZipRun(files[..n], unreadable).Aborted?
    ensures ZipRun(files, unreadable) == ZipRun(files[..n], unreadable)
  {
    if n < |files| {
      var init := files[..|files| - 1];
      assert init[..n] == files[..n];
      ZipRunStopped(init, unreadable, n);
    } else {
      assert files[..n] == files;
    }
  }

  /**
   * The archive is complete exactly when no non-private record is
   * unreadable, and then it holds exactly the entries of the non-private
   * records, in order.
   */
  lemma {:induction false} ZipRunCompletes(files: seq<FileRecord>, unreadable: set<string>)
    ensures ZipRun(files, unreadable).Completed? <==>
      forall k :: 0 <= k < |files| && !files[k].private ==> FullName(files[k]) !in unreadable
    ensures ZipRun(files, unreadable).Completed? ==> ZipRun(files, unreadable).entries == ZipEntries(files)
  {
    if files != [] {
      var init := files[..|files| - 1];
      var last := files[|files| - 1];
      ZipRunCompletes(init, unreadable);
      assert forall k :: 0 <= k < |init| ==> init[k] == files[k];
      assert files[|init|] == last;
      assert ZipEntries(files) == ZipEntries(init) + (if last.private then [] else [EntryHeader(last)]);
    }
  }

  /**
   * An aborted archive stopped at the first unreadable non-private record:
   * it holds the entries up to and including that record's.
   */
  lemma ZipRunAborts(files: seq<FileRecord>, unreadable: set<string>)
    requires ZipRun(files, unreadable).Aborted?
    ensures exists k ::
              && 0 <= k < |files| && !files[k].private && FullName(files[k]) in unreadable
              && ZipRun(files, unreadable) == Aborted(ZipEntries(files[..k + 1]), FullName(files[k]))
              && (forall j :: 0 <= j < k && !files[j].private ==> FullName(files[j]) !in unreadable)
  {
    var k := AbortIndex(files, unreadable);
  }

  /** The index of the record whose read failed. */
  lemma {:induction false} AbortIndex(files: seq<FileRecord>, unreadable: set<string>) returns (k: nat)
    requires ZipRun(files, unreadable).Aborted?
    ensures k < |files| && !files[k].private && FullName(files[k]) in unreadable
    ensures ZipRun(files, unreadable) == Aborted(ZipEntries(files[..k + 1]), FullName(files[k]))
    ensures forall j :: 0 <= j < k && !files[j].private ==> FullName(files[j]) !in unreadable
  {
    var init := files[..|files| - 1];
    if ZipRun(init, unreadable).Aborted? {
      k := AbortIndex(init, unreadable);
      assert init[..k + 1] == files[..k + 1];
      assert forall j :: 0 <= j <= k ==> init[j] == files[j];
    } else {
      ZipRunCompletes(init, unreadable);
      k := |files| - 1;
      assert files[..k + 1] == files;
      assert forall j :: 0 <= j < k ==> init[j] == files[j];
    }
  }

  /** A record set whose every record is private downloads as an empty, complete archive. */
  lemma AllPrivateEmptyArchive(files: seq<FileRecord>, unreadable: set<string>)
    requires forall k :: 0 <= k < |files| ==> files[k].private
    ensures ZipRun(files, unreadable) == Completed([])
  {
    ZipRunCompletes(files, unreadable);
  }

  /** Below a nested directory, the archive is named after the request path's parent. */
  lemma ZipFileNameNested(d: string, name: string)
    requires CleanDir(d) && d != [] && d != "/" && d != "."
    requires name != [] && '/' !in name
    ensures ZipFileName(Join(d, name)) == d + ".zip"
  {
    DirOfJoin(d, name);
  }

  /** Directly below the root (or with no slash at all) the archive is godrive.zip. */
  lemma ZipFileNameTopLevel(name: string)
    requires name != [] && '/' !in name
    ensures ZipFileName("/" + name) == "godrive.zip"
    ensures ZipFileName(name) == "godrive.zip"
  {
    DirOfJoin("/", name);
    DirOfJoin([], name);
  }
}
