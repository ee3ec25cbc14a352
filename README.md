# godrive request handlers, modelled in Dafny

godrive is a small file server. Metadata rows (directory, name, size, content
type, description, private flag, creation and update times) live in a database
index. The file contents live in an object store. This project models the
request logic of `godrive/files.go` and proves properties of it:

- **GET** (`GetFiles`). It reads the `dl` download flag. It then picks one of
  four answers: an error, a single file, a zip archive of the records, or a
  listing page. The listing page folds the flat records found under the request
  path into one level of rows. Nested records are grouped into directory rows
  that sum their sizes and keep the latest date.
- **Zip download**. It selects the entries (non-private records, in order),
  names each entry, and names the archive.
- **POST / PATCH** (`PostFiles`, `PatchFiles` over `parseMultipart`). The upload
  protocol is a `json` part of metadata entries followed by one part per entry.
  Each file is handed to a write callback. POST stores the object and then
  creates the row. PATCH updates the row and then stores the object. The first
  error stops the loop.
- **DELETE** (`DeleteFiles`). This is a batch loop over decoded names. Each name's
  row is deleted first. Its object is deleted only when the row delete worked.
  Errors are joined, and the answer is 204 or 500.

## Modules

| file | module | what it holds |
|---|---|---|
| `wrappers.dfy` | `Wrappers` | `Option` |
| `paths.dfy` | `Paths` | `strings.TrimPrefix`, `strings.Split` (with the split/join round trip), `path.Join`, `path.Dir` on clean paths |
| `decimal.dfy` | `Decimal` | `strconv.FormatUint(n, 10)` and the value of a digit string |
| `records.dfy` | `Records` | the metadata row, 64-bit sizes with wrap-around, the non-private records |
| `listing.dfy` | `Aggregator` | the listing fold: the pure `Listing`, the loop `BuildListing` proved equal to it, and its properties |
| `archive.dfy` | `Archive` | zip entry headers, the archive name, and the streaming loop `WriteZip` with early abort |
| `dispatch.dfy` | `Dispatch` | the GET branch choice, the single-file headers, and the handler `GetFiles` |
| `backend.dfy` | `Backend` | the index and the store as maps, with one step function per backend call. Every call is recorded in a trace together with its outcome. A set of failing calls acts as the failure oracle. |
| `upload.dfy` | `Upload` | the multipart protocol: which files reach the callback and the error the parse ends with |
| `writes.dfy` | `Writes` | the POST and PATCH callbacks and the callback loop, with write-ordering and consistency lemmas |
| `deletion.dfy` | `Deletion` | the delete loop as a fold, with the trace, index and store effects |
| `server.dfy` | `Server` | the class `FileServer`, whose fields are the two backends. Its methods are the backend calls, the callbacks, `ParseMultipart`, `PostFiles`, `PatchFiles` and `DeleteFiles`. Each is proved equal to the pure definitions above. |

## External inputs

The model takes these as parameters instead of performing them:

- the outcome of `FindFiles`;
- whether the `Range` header scans;
- which objects cannot be read;
- which backend calls fail;
- the decoded JSON body;
- the multipart parts;
- the current time.

## Behaviour worth knowing

The model follows the code. Each of these is stated by a member below.

- **Listing at the root uses the second path segment.** At the root, a record two or more levels deep (`/a/b/...`) is listed under a row named after its *second* segment (`b`), not the top-level directory `a`. The code takes `parts[1]` of the split. See `Aggregator.RootRecordName` and `Aggregator.ExampleRootQuirk`.
- **The merge lookup also sees file rows.** A nested record whose row name equals a file of the directory is folded into that file row. See `Aggregator.ExampleNameClash`.
- **An all-private download is an empty archive.** A download that reaches the archive branch with records that are all private gives a complete, empty archive, not a NotFound. The archive branch is reached with two or more records, or with a lone record at the root that is not at the root path; a lone private record elsewhere takes the single-file branch first (`godrive/files.go:49` is tested before `:71`) and is served. See `Archive.AllPrivateEmptyArchive` and `Dispatch.RouteChoice`.
- **`dl=false` downloads.** Any `dl` value except the empty string and `0` requests a download. See `Dispatch.DownloadValues`.
- **The archive name is the full parent path.** For `/a/b/c` the archive is named `/a/b.zip`, not just the last segment. See `Archive.ZipFileNameNested`.
- **Zip entries carry only `UpdatedAt`.** A zip entry's modification time is `UpdatedAt`, with no fallback to `CreatedAt`. The listing does fall back. See `Archive.ZipEntriesVisible` and `Aggregator.LeafRowListed`.
- **A failed single-file read still answers 200.** When the object of a single matching record cannot be read, `godrive/files.go:65-67` only logs the error; the headers are already set and no error status is written. See `Dispatch.SingleFileReadErrorIgnored`.
- **No redirects; no access check on a single file.** A single matching record is served as it is, even when private. The only check in this code is the root-path condition. See `Dispatch.RouteChoice`.
- **Malformed uploads give 500.** A malformed multipart body or JSON part answers 500, not 400, because `PostFiles` and `PatchFiles` map every error to 500. See `Server.FileServer.PostFiles`.
- **PATCH files under the request path.** PATCH files every part under the request path, with the part's file name as the name. `ParsedFile.Dir` is always `r.URL.Path`. See `Upload.ItemsPairEntriesWithParts`.
- **Writes happen before "not enough files".** The "not enough files" error comes after the callbacks for the earlier entries have already written. See `Writes.RefusedBodyWritesNothing` (nothing is written only when no entry was paired) and `Server.FileServer.ParseMultipart`.
- **A failed POST can overwrite a live object.** POST stores the object before it creates the row. A POST to a path that already has a row overwrites that row's object, and then CreateFile fails with a conflict. The old row is left over the new object. See `Writes.PostConflictOverwrites`.
- **A failed PATCH can leave a stale object.** PATCH updates the row before it stores the object. When PutObject fails, the row has the new size and type while the store still holds the old object. See `Writes.PatchStaleObject`.
- **A DELETE with an empty body answers 400.** The JSON decoder reports end of input on an empty body, and `godrive/files.go:218-221` answers 400 for every decoding error. The list of names is not optional. See `Server.FileServer.DeleteFiles`: an undecodable body is `None`.
- **DELETE has no partial success.** DELETE never answers 206: every per-name failure is a hard error joined into a 500. See `Server.FileServer.DeleteFiles`.
- **The `strings.Count` guard always holds.** The check `strings.Count(relativePath, "") > 0` on `godrive/files.go:121` always succeeds for a non-empty string, so the model leaves it out.

## Model

| member | source | states |
|---|---|---|
| Dispatch.DownloadValues | godrive/files.go:21-24 | any `dl` value other than "" and "0" (including "false") requests a download |
| Dispatch.RouteChoice | godrive/files.go:26-107 | the branch is chosen in this order: 500 when FindFiles fails; 404 when downloading with no records; 416 when a Range header does not scan; one file when there is exactly one record and the path is not the root or is that record's own path; otherwise the archive when downloading, else the listing (each case as an iff) |
| Dispatch.GetStatus | godrive/files.go:26-107 | the status is 200, 404, 416 or 500; it is 500 exactly when the lookup fails or the archive aborts |
| Dispatch.SingleFileResponse | godrive/files.go:49-68 | the single-file headers: the record's Content-Type, a Content-Length whose decimal value is the size, Accept-Ranges "bytes", and a Content-Disposition naming the file exactly when downloading; the object is streamed unless the request is a HEAD |
| Dispatch.SingleFileReadErrorIgnored | godrive/files.go:65-67 | a single-file answer is 200 and does not depend on which objects cannot be read |
| Dispatch.ZipResponseShape | godrive/files.go:71-106 | a multi-record download answers with the archive name taken from the path's parent; the archive comment "Generated by godrive" is set exactly when the archive completes, since an abort returns before `SetComment`; when every object reads, the archive holds exactly the zip entries of the records |
| Dispatch.PageResponseShape | godrive/files.go:109-171 | the page shows the listing of the non-private records, with no more rows than there are such records |
| Dispatch.RootSingleRecordListed | godrive/files.go:49 | at the root, a lone record that is not at the root path is listed or archived, not served as a file |
| Dispatch.GetFiles | godrive/files.go:18-171 | the handler's answer equals the branch-by-branch response definition |
| Decimal.FormatUint | godrive/files.go:55 | the Content-Length text is a non-empty run of digits, with no leading zero, whose value is the size |
| Records.AddU64 | godrive/files.go:134 | uint64 addition wraps modulo 2^64 |
| Records.Visible | godrive/files.go:111-113 | the records kept are the non-private ones, and all of them |
| Records.VisibleIndex | godrive/files.go:109-113 | the kept records are the non-private ones in input order, one per position: the i-th kept record is the input record at a strictly increasing position, and every non-private position appears |
| Paths.TrimPrefix | godrive/files.go:119 | TrimPrefix removes the prefix exactly when the string starts with it |
| Paths.Split | godrive/files.go:122 | the split has one more piece than there are slashes, no piece contains a slash, and joining the pieces gives the input back |
| Paths.SplitJoinWith | godrive/files.go:122 | splitting the join of slash-free pieces gives the pieces back |
| Paths.DirOfJoin | godrive/files.go:72 | path.Dir undoes the join of a clean directory and a plain name |
| Aggregator.FindName | godrive/files.go:130-132 | the lookup returns the first row with that name (file rows included), or -1 when there is none |
| Aggregator.IndexOfName | godrive/files.go:130-132 | the lookup loop computes that first index |
| Aggregator.BuildListing | godrive/files.go:109-160 | the loop, appending rows and updating them in place, builds exactly the fold `Listing` |
| Aggregator.SegmentNameWhole | godrive/files.go:119-128 | a relative directory without a slash names its row by itself |
| Aggregator.SegmentNameAfterSlash | godrive/files.go:119-128 | with a slash present, the row is named by the slash-free run after the first slash |
| Aggregator.NestedRecordName | godrive/files.go:119-128 | below a non-root path, a record at `rPath/y` is not a leaf and is filed under the first segment of `y` |
| Aggregator.RootRecordName | godrive/files.go:119-128 | at the root, a record at `/x/y` is filed under the first segment of `y`, the second segment of its path |
| Aggregator.ListingIgnoresPrivate | godrive/files.go:110-113 | private records have no influence on the listing |
| Aggregator.ListingSize | godrive/files.go:133-159 | the row sizes sum to at most the non-private total, and exactly to it when that total fits in 64 bits |
| Aggregator.ListingLength | godrive/files.go:109-160 | there are never more rows than non-private records |
| Aggregator.ListingShaped | godrive/files.go:141-159 | no row precedes a directory row of the same name; directory rows sit in the request path with an empty description; each file row carries the name, directory and description of a non-private record of that directory; every nested record has a row under its segment name |
| Aggregator.ListingAggregates | godrive/files.go:130-159 | unless a file shares its name with a directory row, each directory row gathers a non-empty group of nested records, carries their latest date, and carries their size sum (exact below 2^64); every nested record finds a directory row; every file row is a record's own row |
| Aggregator.MergeInPlace | godrive/files.go:130-139 | merging into an existing row appends nothing, changes no other row, adds the size modulo 2^64 and keeps the later date |
| Aggregator.StepKeepsRows | godrive/files.go:130-159 | one record adds at most one row; it never reorders, renames or re-kinds existing rows, and dates only grow |
| Aggregator.ListingExtends | godrive/files.go:109-160 | rows built from a prefix of the records keep their place, name, kind, directory and description in the final listing |
| Aggregator.RowStays | godrive/files.go:130-139 | a row reaches the final listing unchanged when no later nested record is filed under its name |
| Aggregator.LeafRowListed | godrive/files.go:113-159 | every non-private record directly in the requested directory gets a file row with its name, directory and description; unless a file shares its name with a directory row, that row is the record's own, with its size, dated by UpdatedAt or by CreatedAt when UpdatedAt is the zero time |
| Aggregator.ExampleNestedRows | godrive/files.go:109-160 | two records in /a/x and one in /a, listed at /a, give one directory row "x" (size 30, the later date) and the file row; a private record is skipped |
| Aggregator.ExampleRootQuirk | godrive/files.go:119-128 | at the root, a record in /a/b is listed under "b" |
| Aggregator.ExampleNameClash | godrive/files.go:130-139 | a record in /a/x is folded into the file row "x" of /a |
| Archive.EntryHeader | godrive/files.go:84-92 | an entry is named by the record's full path without its leading slash |
| Archive.ZipEntriesVisible | godrive/files.go:80-92 | the entries are the non-private records in input order, one each, named by the full path without the leading slash, sized by Size, dated by UpdatedAt and commented with Description, as in the header the handler passes to `CreateHeader` (archive/zip later replaces the size in the written archive with the number of bytes copied) |
| Archive.WriteZip | godrive/files.go:78-106 | the streaming loop produces exactly the archive outcome `ZipRun` |
| Archive.ZipRunStopped | godrive/files.go:97-100 | once an object read has failed, later records change nothing |
| Archive.ZipRunCompletes | godrive/files.go:80-101 | the archive completes exactly when every non-private record's object reads, and then it holds the entries |
| Archive.ZipRunAborts | godrive/files.go:93-100 | an aborted archive stops at the first unreadable non-private record and holds the entries up to that record's |
| Archive.AllPrivateEmptyArchive | godrive/files.go:80-83 | when every record is private, the archive is complete and empty |
| Archive.ZipFileNameNested | godrive/files.go:72-76 | below the top level, the archive is named by the full parent path plus ".zip" |
| Archive.ZipFileNameTopLevel | godrive/files.go:72-76 | at the top level the archive is "godrive.zip" |
| Upload.Items | godrive/files.go:275-300 | the i-th metadata entry is paired with the i-th part after the json part |
| Upload.FirstPartMustBeJson | godrive/files.go:266-268 | a first part not named "json" is refused before anything is decoded or written |
| Upload.ItemsPairEntriesWithParts | godrive/files.go:275-300 | each file is placed under the request path and named by its part's file name; size, description and private flag come from its entry; the type is the part's Content-Type or application/octet-stream when empty; the content is the part's payload |
| Upload.NotEnoughParts | godrive/files.go:275-281 | the parse ends with an error exactly when there are fewer parts than entries, and on a clean end of body that error is "not enough files" |
| Upload.ExtraPartsIgnored | godrive/files.go:275-303 | parts beyond those the entries ask for are never read |
| Upload.ItemsPrefix | godrive/files.go:275-300 | only the paired parts matter to the files handed on |
| Writes.PostStepEffect | godrive/files.go:185-191 | POST calls PutObject first; CreateFile follows exactly when PutObject succeeded; on success the new row (created now) and the object are both stored; on failure the index is unchanged, and the object stays stored when only CreateFile failed |
| Writes.PatchStepEffect | godrive/files.go:201-206 | PATCH calls UpdateFile first; PutObject follows exactly when the update succeeded; the row keeps its creation time and is marked updated now; on success the object holds the payload, and on any failure the store is unchanged |
| Writes.PostConflictOverwrites | godrive/files.go:185-191 | a POST to a path that already has a row fails, keeps the old row and leaves the new payload in the store |
| Writes.PatchStaleObject | godrive/files.go:201-206 | a PATCH whose PutObject fails keeps the updated row (new size, updated now) over the old object |
| Writes.RunItemsStopped | godrive/files.go:298-300 | after a callback error, later files are never touched |
| Writes.RunItemsFirstError | godrive/files.go:298-300 | an error is the first failing callback's, and every earlier callback succeeded |
| Writes.RunItemsExtendsTrace | godrive/files.go:275-303 | backend calls are only ever appended |
| Writes.PostRunKeepsRows | godrive/files.go:184-191 | a successful POST keeps every row that existed before |
| Writes.PostRunCreatesAll | godrive/files.go:184-191 | a successful POST created one fresh row per file with the file's attributes; none existed before, and no two files of the request share a row |
| Writes.PostStepCreates | godrive/files.go:190 | a successful POST callback inserts exactly the file's new row |
| Writes.PostStepKeepsBacked | godrive/files.go:186-190 | POST never leaves a row without its object, because the object is stored before the row is created |
| Writes.PatchStepKeepsBacked | godrive/files.go:202-206 | PATCH never leaves a row without its object |
| Writes.RunItemsKeepsBacked | godrive/files.go:275-300 | the callback loop keeps every row backed by its object |
| Writes.UploadKeepsBacked | godrive/files.go:184-213 | POST and PATCH, whatever fails, keep every row backed by its object |
| Writes.RefusedBodyWritesNothing | godrive/files.go:253-273 | a body refused before the first file is paired writes nothing and returns the parse error |
| Writes.PostThenRead | godrive/files.go:185-191 | after a successful POST, the object at the row's key holds the uploaded bytes, size and type |
| Deletion.DeleteRunTrace | godrive/files.go:224-234 | every name is tried in order even after earlier failures, each row delete uses the request path, an object delete at path.Join(URL, name) comes right after, and only after, that name's successful row delete, and the joined errors are exactly the failures of the calls made |
| Deletion.FailuresEmpty | godrive/files.go:236-241 | no error is joined exactly when every call succeeded |
| Deletion.DeleteRunIndex | godrive/files.go:225-229 | a row under the request path named in the list is removed unless its delete is rejected; every other row is untouched |
| Deletion.DeleteRunStore | godrive/files.go:230-233 | only objects at the joined paths of listed names can disappear, and no object changes |
| Deletion.DeleteRunRemovesObject | godrive/files.go:225-233 | a listed, existing row whose calls both succeed loses its row and its object |
| Deletion.DeleteRunStoreGone | godrive/files.go:225-233 | a deleted object is not brought back by later names |
| Deletion.DeleteRunKeepsBacked | godrive/files.go:225-233 | deleting keeps every remaining row backed by its object, provided no two rows share an object key |
| Server.FileServer.constructor | godrive/files.go:184 | a server starts with the given index and store and no calls made |
| Server.FileServer.PutObject | godrive/files.go:186 | storage.PutObject on the server's store |
| Server.FileServer.CreateFile | godrive/files.go:190 | db.CreateFile on the server's index |
| Server.FileServer.UpdateFile | godrive/files.go:202 | db.UpdateFile on the server's index |
| Server.FileServer.DeleteFile | godrive/files.go:226 | db.DeleteFile on the server's index |
| Server.FileServer.DeleteObject | godrive/files.go:230 | storage.DeleteObject on the server's store |
| Server.FileServer.PostCallback | godrive/files.go:185-192 | the POST callback changes the server exactly as `PostStep` says |
| Server.FileServer.PatchCallback | godrive/files.go:201-207 | the PATCH callback changes the server exactly as `PatchStep` says |
| Server.FileServer.ParseMultipart | godrive/files.go:253-304 | the parse loop, calling the callback part by part, leaves the server and returns the error exactly as `UploadRun` says |
| Server.FileServer.PostFiles | godrive/files.go:184-198 | POST answers 500 with the error whenever the upload fails, and runs the upload as `UploadRun` says |
| Server.FileServer.PatchFiles | godrive/files.go:200-213 | PATCH answers 500 with the error whenever the upload fails, and runs the upload as `UploadRun` says |
| Server.FileServer.DeleteFiles | godrive/files.go:215-242 | 400 and no change when the body is not a list of names; otherwise the loop as `DeleteRun` says, answering 204 when no error was joined and 500 otherwise |

## Left out

- **Range requests.** `fmt.Sscanf` is given nil destinations (`start` and `end` are declared but never allocated), so `start` and `end` are never set. The model takes only the scan outcome: a failed scan gives 416, and a successful scan carries on with no Content-Range and no 206. A successful scan into nil destinations panics in Go (it dereferences a nil `*int64` once the first number scans) and the request is aborted; the model answers where the program aborts.
- **HEAD, streaming, compression and templates.**
  - The HEAD short-circuit write, `io.Copy` streaming, deflate compression and template rendering are I/O and are not modelled.
  - A zip response records only which entries were written and whether the loop aborted.
  - `zw.CreateHeader` and `zw.SetComment` are treated as never failing. `SetComment` fails only for a comment over 64 KiB, which the fixed "Generated by godrive" is not. `CreateHeader` fails when writing to the response fails, or for an oversized name or extra field; that is response I/O, left out like `io.Copy` streaming.
  - The status of a zip that aborts after bytes were streamed is modelled as 500.
- **Success statuses.** `s.ok`, `s.json` and `s.notFound` are defined outside `godrive/files.go` and are not part of this model. `s.notFound` (`godrive/files.go:33`) is taken to answer 404. A successful POST or PATCH (`s.ok(w, r, nil)` at `godrive/files.go:197` and `:212`) is taken to answer 204 No Content, the status DELETE passes explicitly at `godrive/files.go:241`.
- **Database behaviour is assumed.** The database code is not part of this model. It is assumed that:
  - CreateFile on an existing row fails with Conflict and changes nothing;
  - CreateFile otherwise creates the row with CreatedAt now and UpdatedAt the zero time;
  - UpdateFile and DeleteFile on a missing row fail with NoSuchFile;
  - UpdateFile replaces the attributes and sets UpdatedAt to now;
  - DeleteObject of an absent object succeeds.
- **Backend failures are an oracle.** They are a set of failing calls, deterministic per call. Context cancellation is not modelled.
- **One clock reading per request.** Every CreateFile and UpdateFile of one upload is given the same `now`, although each is a separate database call that reads the clock itself. For that reason `Writes.PostRunCreatesAll` gives all rows of one POST the same CreatedAt.
- **JSON decoding and multipart framing.** The decoded JSON is an input. The multipart body is the list of parts `NextPart` yields, ended by a clean end of body or by a framing error.
- **Paths are assumed clean.** `path.Join` and `path.Dir` are modelled for clean paths only (no `//`, `.` or `..`), without `path.Clean`.
- **`PathParts`, logging and the template variables** are not modelled.
- **The `errors.Join` value** is modelled as the list of joined errors, not its text.
- Aggregator.ListingSize: the exact size sum is stated only when the non-private total is below 2^64. Above that, the row sums wrap around as in Go, and only the upper bound is stated.
- Aggregator.ListingAggregates: requires that no file directly in the directory shares its name with a directory row. Without that, nested records are merged into the file row, as `Aggregator.ExampleNameClash` shows.
- Deletion.DeleteRunKeepsBacked: requires that no two rows share an object key, which the real index guarantees by path uniqueness.
