/**
 * GetFiles (files.go:18-171): the download flag, the choice between an
 * error, a single file, a zip archive and a listing page, and the headers
 * of a single-file response. The metadata lookup, the Range scan and the
 * object reads are given as their outcomes.
 */
module Dispatch {
  import opened Wrappers
  import opened Paths
  import opened Decimal
  import opened Records
  import opened Aggregator
  import opened Archive

  /** What the handler reads from the request. */
  datatype GetRequest = GetRequest(
    path: string,
    dl: string,
    isHead: bool,
    rangeHeader: string)

  /** The outcome of FindFiles for the request path. */
  datatype Lookup = Found(files: seq<FileRecord>) | LookupFailed

  /** Response headers, as http.Header after Set: one value per name. */
  type Headers = map<string, string>

  /** What the handler answers with. */
  datatype Response =
    | ErrorResponse(status: nat)
    | FileResponse(headers: Headers, objectKey: Option<string>)
    | ZipResponse(headers: Headers, outcome: ZipOutcome, comment: string)
    | PageResponse(path: string, rows: seq<TemplateFile>)

  const StatusOK: nat := 200
  const StatusNotFound: nat := 404
  const StatusRangeNotSatisfiable: nat := 416
  const StatusInternalServerError: nat := 500

  /** The status code the client sees. */
  function Status(r: Response): nat
  {
    match r
    case ErrorResponse(status) => status
    case FileResponse(_, _) => StatusOK
    case ZipResponse(_, outcome, _) => if outcome.Completed? then StatusOK else StatusInternalServerError
    case PageResponse(_, _) => StatusOK
  }

  /** The `dl` query parameter asks for a download unless it is empty or "0". */
  function Download(dl: string): bool
  {
    dl != "" && dl != "0"
  }

  /** Which branch of the handler runs. */
  datatype Route = LookupError | NotFound | BadRange | Single(file: FileRecord) | Zip | Page

  function RouteOf(req: GetRequest, lookup: Lookup, rangeScanOk: bool): Route
  {
    match lookup
    case LookupFailed => LookupError
    case Found(files) =>
      if Download(req.dl) && |files| == 0 then NotFound
      else if req.rangeHeader != "" && !rangeScanOk then BadRange
      else if |files| == 1 && (req.path != "/" || FullName(files[0]) == req.path) then Single(files[0])
      else if Download(req.dl) then Zip
      else Page
  }

  /** The headers of a single-file response. */
  function SingleFileHeaders(file: FileRecord, download: bool): Headers
  {
    var base := if download then map["Content-Disposition" := "attachment; filename=" + file.name] else map[];
    base["Content-Type" := file.contentType]["Content-Length" := FormatUint(file.size)]["Accept-Ranges" := "bytes"]
  }

  /** The response of GetFiles, given the lookup, the Range scan and the unreadable objects. */
  function GetResponse(req: GetRequest, lookup: Lookup, rangeScanOk: bool, unreadable: set<string>): Response
  {
    match RouteOf(req, lookup, rangeScanOk)
    case LookupError => ErrorResponse(StatusInternalServerError)
    case NotFound => ErrorResponse(StatusNotFound)
    case BadRange => ErrorResponse(StatusRangeNotSatisfiable)
    case Single(file) =>
      FileResponse(SingleFileHeaders(file, Download(req.dl)), if req.isHead then None else Some(FullName(file)))
    case Zip =>
      // The comment is set only after the last entry; an aborted archive returns before that.
      var outcome := ZipRun(lookup.files, unreadable);
      ZipResponse(map["Content-Disposition" := "attachment; filename=" + ZipFileName(req.path)],
                  outcome, if outcome.Completed? then ArchiveComment else "")
    case Page => PageResponse(req.path, Listing(req.path, lookup.files))
  }

  /** The handler: the branch choice, then the archive loop or the listing loop. */
  method GetFiles(req: GetRequest, lookup: Lookup, rangeScanOk: bool, unreadable: set<string>)
    returns (resp: Response)
    ensures resp == GetResponse(req, lookup, rangeScanOk, unreadable)
  {
    var download := false;
    if req.dl != "" && req.dl != "0" {
      download := true;
    }
    ghost var route := RouteOf(req, lookup, rangeScanOk);
    if lookup.LookupFailed? {
      assert route == LookupError;
      return ErrorResponse(StatusInternalServerError);
    }
    var files := lookup.files;
    if download && |files| == 0 {
      assert route == NotFound;
      return ErrorResponse(StatusNotFound);
    }
    if req.rangeHeader != "" && !rangeScanOk {
      assert route == BadRange;
      return ErrorResponse(StatusRangeNotSatisfiable);
    }
    if |files| == 1 && (req.path != "/" || Join(files[0].dir, files[0].name) == req.path) {
      var file := files[0];
      assert route == Single(file);
      var headers: Headers := map[];
      if download {
        headers := headers["Content-Disposition" := "attachment; filename=" + file.name];
      }
      headers := headers["Content-Type" := file.contentType];
      headers := headers["Content-Length" := FormatUint(file.size)];
      headers := headers["Accept-Ranges" := "bytes"];
      if req.isHead {
        return FileResponse(headers, None);
      }
      return FileResponse(headers, Some(Join(file.dir, file.name)));
    }
    if download {
      assert route == Zip;
      var zipName := Dir(req.path);
      if zipName == "/" || zipName == "." {
        zipName := "godrive";
      }
      var outcome := WriteZip(files, unreadable);
      assert zipName + ".zip" == ZipFileName(req.path);
      var disposition := "attachment; filename=" + (zipName + ".zip");
      if outcome.Aborted? {
        return ZipResponse(map["Content-Disposition" := disposition], outcome, "");
      }
      return ZipResponse(map["Content-Disposition" := disposition], outcome, ArchiveComment);
    }
    assert route == Page;
    var templateFiles := BuildListing(req.path, files);
    return PageResponse(req.path, templateFiles);
  }

  // ---------------------------------------------------------------------
  // Properties of the dispatch

  /** Any value other than the empty string and "0" requests a download, "false" included. */
  lemma DownloadValues()
    ensures Download("1") && Download("true") && Download("false") && Download("a,b")
    ensures !Download("") && !Download("0")
  {
  }

  /**
   * The branch taken: 500 when the lookup fails; 404 for a download of
   * nothing; 416 when a Range header is present and does not scan; the
   * single file when exactly one record matched and the path is not the
   * root or is that record's own path; otherwise the archive when
   * downloading and the listing page when not.
   */
  lemma RouteChoice(req: GetRequest, lookup: Lookup, rangeScanOk: bool)
    ensures var r := RouteOf(req, lookup, rangeScanOk);
      && (r == LookupError <==> lookup.LookupFailed?)
      && (r == NotFound <==> lookup.Found? && Download(req.dl) && lookup.files == [])
      && (r == BadRange <==> lookup.Found? && !(Download(req.dl) && lookup.files == []) &&
                             req.rangeHeader != "" && !rangeScanOk)
      && (r.Single? <==> lookup.Found? && !(Download(req.dl) && lookup.files == []) &&
                         (req.rangeHeader == "" || rangeScanOk) &&
                         |lookup.files| == 1 && (req.path != "/" || FullName(lookup.files[0]) == req.path))
      && (r.Single? ==> r.file == lookup.files[0])
      && (r == Zip <==> lookup.Found? && (req.rangeHeader == "" || rangeScanOk) && Download(req.dl) &&
                        |lookup.files| >= 1 &&
                        !(|lookup.files| == 1 && (req.path != "/" || FullName(lookup.files[0]) == req.path)))
      && (r == Page <==> lookup.Found? && (req.rangeHeader == "" || rangeScanOk) && !Download(req.dl) &&
                         !(|lookup.files| == 1 && (req.path != "/" || FullName(lookup.files[0]) == req.path)))
  {
  }

  /** The status is always one of 200, 404, 416 and 500; 500 exactly for a failed lookup or an aborted archive. */
  lemma GetStatus(req: GetRequest, lookup: Lookup, rangeScanOk: bool, unreadable: set<string>)
    ensures var s := Status(GetResponse(req, lookup, rangeScanOk, unreadable));
      s in {StatusOK, StatusNotFound, StatusRangeNotSatisfiable, StatusInternalServerError}
    ensures Status(GetResponse(req, lookup, rangeScanOk, unreadable)) == StatusInternalServerError <==>
      lookup.LookupFailed? ||
      (RouteOf(req, lookup, rangeScanOk) == Zip && ZipRun(lookup.files, unreadable).Aborted?)
  {
  }

  /**
   * A single-file response advertises the record's content type, a
   * Content-Length whose decimal value is the record's size, and byte
   * ranges; it carries an attachment disposition naming the file exactly
   * when downloading, and streams the record's object unless the request
   * is a HEAD.
   */
  lemma SingleFileResponse(req: GetRequest, lookup: Lookup, rangeScanOk: bool, unreadable: set<string>)
    requires RouteOf(req, lookup, rangeScanOk).Single?
    ensures var file := lookup.files[0];
      var resp := GetResponse(req, lookup, rangeScanOk, unreadable);
      && resp.FileResponse?
      && resp.headers.Keys <= {"Content-Disposition", "Content-Type", "Content-Length", "Accept-Ranges"}
      && "Content-Type" in resp.headers && resp.headers["Content-Type"] == file.contentType
      && "Accept-Ranges" in resp.headers && resp.headers["Accept-Ranges"] == "bytes"
      && "Content-Length" in resp.headers && AllDigits(resp.headers["Content-Length"])
      && ValueOf(resp.headers["Content-Length"]) == file.size
      && ("Content-Disposition" in resp.headers <==> Download(req.dl))
      && (Download(req.dl) ==> resp.headers["Content-Disposition"] == "attachment; filename=" + file.name)
      && (resp.objectKey.Some? <==> !req.isHead)
      && (!req.isHead ==> resp.objectKey == Some(FullName(file)))
  {
    assert |"Content-Disposition"| == 19 && |"Content-Type"| == 12 && |"Content-Length"| == 14 && |"Accept-Ranges"| == 13;
  }

  /** A single file answers 200 whether or not its object reads: a failed read is only logged. */
  lemma SingleFileReadErrorIgnored(req: GetRequest, lookup: Lookup, rangeScanOk: bool, unreadable: set<string>)
    requires RouteOf(req, lookup, rangeScanOk).Single?
    ensures Status(GetResponse(req, lookup, rangeScanOk, unreadable)) == StatusOK
    ensures GetResponse(req, lookup, rangeScanOk, unreadable) == GetResponse(req, lookup, rangeScanOk, {})
  {
  }

  /** A download of several records answers with an archive named after the path's parent. */
  lemma ZipResponseShape(req: GetRequest, lookup: Lookup, rangeScanOk: bool, unreadable: set<string>)
    requires RouteOf(req, lookup, rangeScanOk) == Zip
    ensures var resp := GetResponse(req, lookup, rangeScanOk, unreadable);
      && resp.ZipResponse?
      && resp.headers == map["Content-Disposition" := "attachment; filename=" + ZipFileName(req.path)]
      && resp.comment == (if resp.outcome.Completed? then "Generated by godrive" else "")
      && (forall k :: 0 <= k < |lookup.files| && !lookup.files[k].private ==> FullName(lookup.files[k]) !in unreadable) ==>
           resp.outcome == Completed(ZipEntries(lookup.files))
  {
    ZipRunCompletes(lookup.files, unreadable);
  }

  /** The listing page shows the aggregated rows of the request path, and no private record counts. */
  lemma PageResponseShape(req: GetRequest, lookup: Lookup, rangeScanOk: bool, unreadable: set<string>)
    requires RouteOf(req, lookup, rangeScanOk) == Page
    ensures var resp := GetResponse(req, lookup, rangeScanOk, unreadable);
      && resp.PageResponse? && resp.path == req.path
      && resp.rows == Listing(req.path, Visible(lookup.files))
      && |resp.rows| <= |Visible(lookup.files)|
  {
    ListingIgnoresPrivate(req.path, lookup.files);
    ListingLength(req.path, lookup.files);
  }

  /**
   * At the root, a single record is served as a file only when it sits at
   * the root path itself; any other lone record is listed (or archived).
   */
  lemma RootSingleRecordListed(req: GetRequest, f: FileRecord, rangeScanOk: bool)
    requires req.path == "/" && FullName(f) != "/"
    requires req.rangeHeader == "" || rangeScanOk
    ensures RouteOf(req, Found([f]), rangeScanOk) == (if Download(req.dl) then Zip else Page)
  {
  }
}
