/**
 * The mutating handlers of files.go on a server object whose fields are
 * the two backends: PostFiles and PatchFiles (files.go:184-213) through
 * parseMultipart (files.go:253-304), and DeleteFiles (files.go:215-242).
 * Each method is proved against the pure definitions of the Backend,
 * Writes and Deletion modules, whose properties are proved there.
 */
module Server {
  import opened Wrappers
  import opened Paths
  import opened Records
  import opened Backend
  import opened Upload
  import opened Writes
  import opened Deletion

  const StatusNoContent: nat := 204
  const StatusBadRequest: nat := 400
  const StatusInternalServerError: nat := 500

  /** The server: its metadata index (s.db), its object store (s.storage) and the calls made on them. */
  class FileServer {
    var index: map<Key, FileRecord>
    var store: map<string, Blob>
    /** The backend calls made so far, with their outcomes: a record kept for the proofs only. */
    ghost var trace: seq<Attempt>

    /** The backends as a value. */
    ghost function Snapshot(): State
      reads this
    {
      State(index, store, trace)
    }

    constructor (index0: map<Key, FileRecord>, store0: map<string, Blob>)
      ensures Snapshot() == State(index0, store0, [])
    {
      index := index0;
      store := store0;
      trace := [];
    }

    // -------------------------------------------------------------------
    // Backend calls

    method PutObject(key: string, blob: Blob, faults: set<Call>) returns (err: Option<Error>)
      modifies this
      ensures Outcome(Snapshot(), err) == PutObjectStep(old(Snapshot()), key, blob, faults)
    {
      var c := Call.PutObject(key, blob.size, blob.contentType);
      if c in faults {
        err := Some(Failed(c));
      } else {
        store := store[key := blob];
        err := None;
      }
      trace := trace + [Attempt(c, err)];
    }

    method CreateFile(dir: string, name: string, size: Uint64, contentType: string, description: string,
                      private: bool, now: Time, faults: set<Call>) returns (err: Option<Error>)
      modifies this
      ensures Outcome(Snapshot(), err) ==
              CreateFileStep(old(Snapshot()), dir, name, size, contentType, description, private, now, faults)
    {
      var c := Call.CreateFile(dir, name, size, contentType, description, private);
      var k := Key(dir, name);
      if c in faults {
        err := Some(Failed(c));
      } else if k in index {
        err := Some(Conflict(k));
      } else {
        index := index[k := NewRecord(dir, name, size, contentType, description, private, now)];
        err := None;
      }
      trace := trace + [Attempt(c, err)];
    }

    method UpdateFile(dir: string, name: string, size: Uint64, contentType: string, description: string,
                      private: bool, now: Time, faults: set<Call>) returns (err: Option<Error>)
      modifies this
      ensures Outcome(Snapshot(), err) ==
              UpdateFileStep(old(Snapshot()), dir, name, size, contentType, description, private, now, faults)
    {
      var c := Call.UpdateFile(dir, name, size, contentType, description, private);
      var k := Key(dir, name);
      if c in faults {
        err := Some(Failed(c));
      } else if k !in index {
        err := Some(NoSuchFile(k));
      } else {
        var r := index[k];
        index := index[k := r.(size := size, contentType := contentType, description := description,
                               private := private, updatedAt := now)];
        err := None;
      }
      trace := trace + [Attempt(c, err)];
    }

    method DeleteFile(dir: string, name: string, faults: set<Call>) returns (err: Option<Error>)
      modifies this
      ensures Outcome(Snapshot(), err) == DeleteFileStep(old(Snapshot()), dir, name, faults)
    {
      var c := Call.DeleteFile(dir, name);
      var k := Key(dir, name);
      if c in faults {
        err := Some(Failed(c));
      } else if k !in index {
        err := Some(NoSuchFile(k));
      } else {
        index := index - {k};
        err := None;
      }
      trace := trace + [Attempt(c, err)];
    }

    method DeleteObject(key: string, faults: set<Call>) returns (err: Option<Error>)
      modifies this
      ensures Outcome(Snapshot(), err) == DeleteObjectStep(old(Snapshot()), key, faults)
    {
      var c := Call.DeleteObject(key);
      if c in faults {
        err := Some(Failed(c));
      } else {
        store := store - {key};
        err := None;
      }
      trace := trace + [Attempt(c, err)];
    }

    // -------------------------------------------------------------------
    // Upload callbacks and the multipart loop

    /** The PostFiles callback: the object first, then the row. */
    method PostCallback(it: Item, now: Time, faults: set<Call>) returns (err: Option<Error>)
      modifies this
      ensures Outcome(Snapshot(), err) == PostStep(old(Snapshot()), it, now, faults)
    {
      var f := it.file;
      err := PutObject(Join(f.dir, f.name), BlobOf(it), faults);
      if err.Some? {
        return;
      }
      err := CreateFile(f.dir, f.name, f.size, f.contentType, f.description, f.private, now, faults);
    }

    /** The PatchFiles callback: the row first, then the object. */
    method PatchCallback(it: Item, now: Time, faults: set<Call>) returns (err: Option<Error>)
      modifies this
      ensures Outcome(Snapshot(), err) == PatchStep(old(Snapshot()), it, now, faults)
    {
      var f := it.file;
      err := UpdateFile(f.dir, f.name, f.size, f.contentType, f.description, f.private, now, faults);
      if err.Some? {
        return;
      }
      err := PutObject(Join(f.dir, f.name), BlobOf(it), faults);
    }

    /**
     * parseMultipart: the json part, then one part per metadata entry,
     * each handed to the callback as soon as it is read; the first error
     * ends the loop.
     */
    method ParseMultipart(mode: Mode, rPath: string, body: Body, decode: seq<Byte> -> Option<seq<FileRequest>>,
                          now: Time, faults: set<Call>) returns (err: Option<Error>)
      modifies this
      ensures Outcome(Snapshot(), err) == UploadRun(mode, old(Snapshot()), rPath, body, decode, now, faults)
    {
      if body.NotMultipart? {
        return Some(BadMultipart);
      }
      var parts := body.parts;
      if |parts| == 0 {
        return Some(if body.broken then BadMultipart else EndOfBody);
      }
      var part := parts[0];
      if part.formName != "json" {
        return Some(JsonFieldNotFound);
      }
      var decoded := decode(part.content);
      if decoded.None? {
        return Some(BadJson);
      }
      var files := decoded.value;
      ghost var plan := PlanOf(rPath, body, decode);
      ghost var s0 := old(Snapshot());
      var next := 1;
      for i := 0 to |files|
        invariant next == i + 1 && next <= |parts|
        invariant i <= |plan.items|
        invariant RunItems(mode, s0, plan.items[..i], now, faults) == Outcome(Snapshot(), None)
      {
        if next == |parts| {
          assert plan.items[..i] == plan.items;
          return Some(if body.broken then BadMultipart else NotEnoughFiles);
        }
        part := parts[next];
        next := next + 1;
        var contentType := part.contentType;
        if contentType == "" {
          contentType := "application/octet-stream";
        }
        var parsed := ParsedFile(rPath, part.fileName, files[i].size, contentType, files[i].description, files[i].private);
        var it := Item(parsed, part.content);
        assert it == plan.items[i];
        RunItemsNext(mode, s0, plan.items, i, now, faults);
        if mode == Post {
          err := PostCallback(it, now, faults);
        } else {
          err := PatchCallback(it, now, faults);
        }
        if err.Some? {
          RunItemsStopped(mode, s0, plan.items, i + 1, now, faults);
          return;
        }
      }
      assert plan.items[..|files|] == plan.items;
      return None;
    }

    /** PostFiles: 500 with the error when the upload fails, success otherwise. */
    method PostFiles(rPath: string, body: Body, decode: seq<Byte> -> Option<seq<FileRequest>>,
                     now: Time, faults: set<Call>) returns (status: nat, err: Option<Error>)
      modifies this
      ensures Outcome(Snapshot(), err) == UploadRun(Post, old(Snapshot()), rPath, body, decode, now, faults)
      ensures status == if err.Some? then StatusInternalServerError else StatusNoContent
    {
      err := ParseMultipart(Post, rPath, body, decode, now, faults);
      status := if err.Some? then StatusInternalServerError else StatusNoContent;
    }

    /** PatchFiles: 500 with the error when the upload fails, success otherwise. */
    method PatchFiles(rPath: string, body: Body, decode: seq<Byte> -> Option<seq<FileRequest>>,
                      now: Time, faults: set<Call>) returns (status: nat, err: Option<Error>)
      modifies this
      ensures Outcome(Snapshot(), err) == UploadRun(Patch, old(Snapshot()), rPath, body, decode, now, faults)
      ensures status == if err.Some? then StatusInternalServerError else StatusNoContent
    {
      err := ParseMultipart(Patch, rPath, body, decode, now, faults);
      status := if err.Some? then StatusInternalServerError else StatusNoContent;
    }

    /**
     * DeleteFiles: 400 when the body is not a JSON array of names;
     * otherwise every name is tried, the errors are joined, and the answer
     * is 204 when there were none and 500 when there were some.
     */
    method DeleteFiles(rPath: string, decoded: Option<seq<string>>, faults: set<Call>)
      returns (status: nat, errors: seq<Error>)
      modifies this
      ensures decoded.None? ==> status == StatusBadRequest && errors == [] && Snapshot() == old(Snapshot())
      ensures decoded.Some? ==> Progress(Snapshot(), errors) == DeleteRun(old(Snapshot()), rPath, decoded.value, faults)
      ensures decoded.Some? ==> status == if errors == [] then StatusNoContent else StatusInternalServerError
    {
      if decoded.None? {
        return StatusBadRequest, [];
      }
      var files := decoded.value;
      ghost var s0 := old(Snapshot());
      errors := [];
      for i := 0 to |files|
        invariant DeleteRun(s0, rPath, files[..i], faults) == Progress(Snapshot(), errors)
      {
        assert files[..i + 1][..i] == files[..i];
        var err := DeleteFile(rPath, files[i], faults);
        if err.Some? {
          errors := errors + [err.value];
          continue;
        }
        err := DeleteObject(Join(rPath, files[i]), faults);
        if err.Some? {
          errors := errors + [err.value];
          continue;
        }
      }
      assert files[..|files|] == files;
      if errors != [] {
        return StatusInternalServerError, errors;
      }
      return StatusNoContent, errors;
    }
  }
}
