/**
 * The write callbacks of PostFiles and PatchFiles (files.go:184-213) and
 * the callback loop of parseMultipart (files.go:275-303), over the backend
 * state. POST writes the object and then the metadata row; PATCH updates
 * the row and then writes the object; the loop stops at the first error.
 */
module Writes {
  import opened Wrappers
  import opened Paths
  import opened Records
  import opened Backend
  import opened Upload

  datatype Mode = Post | Patch

  /** The blob an upload stores for one item. */
  function BlobOf(it: Item): Blob
  {
    Blob(it.file.size, it.file.contentType, it.content)
  }

  /** The metadata key and object key of an item. */
  function ItemKey(it: Item): Key
  {
    Key(it.file.dir, it.file.name)
  }

  /** The POST callback: PutObject, then CreateFile only if the object was stored. */
  function PostStep(s: State, it: Item, now: Time, faults: set<Call>): Outcome
  {
    var f := it.file;
    var put := PutObjectStep(s, Join(f.dir, f.name), BlobOf(it), faults);
    if put.error.Some? then put
    else CreateFileStep(put.state, f.dir, f.name, f.size, f.contentType, f.description, f.private, now, faults)
  }

  /** The PATCH callback: UpdateFile, then PutObject only if the row was updated. */
  function PatchStep(s: State, it: Item, now: Time, faults: set<Call>): Outcome
  {
    var f := it.file;
    var upd := UpdateFileStep(s, f.dir, f.name, f.size, f.contentType, f.description, f.private, now, faults);
    if upd.error.Some? then upd
    else PutObjectStep(upd.state, Join(f.dir, f.name), BlobOf(it), faults)
  }

  function Callback(mode: Mode, s: State, it: Item, now: Time, faults: set<Call>): Outcome
  {
    match mode
    case Post => PostStep(s, it, now, faults)
    case Patch => PatchStep(s, it, now, faults)
  }

  /** The callback loop over the items: once a callback fails, no later item is touched. */
  function RunItems(mode: Mode, s: State, items: seq<Item>, now: Time, faults: set<Call>): Outcome
  {
    if items == [] then Outcome(s, None)
    else
      var r := RunItems(mode, s, items[..|items| - 1], now, faults);
      if r.error.Some? then r else Callback(mode, r.state, items[|items| - 1], now, faults)
  }

  /** parseMultipart with the given callback: the items, then the error the parse ends with. */
  function UploadRun(mode: Mode, s: State, rPath: string, body: Body,
                     decode: seq<Byte> -> Option<seq<FileRequest>>, now: Time, faults: set<Call>): Outcome
  {
    var plan := PlanOf(rPath, body, decode);
    var r := RunItems(mode, s, plan.items, now, faults);
    if r.error.Some? then r else Outcome(r.state, plan.end)
  }

  // ---------------------------------------------------------------------
  // Write ordering per file

  /**
   * POST calls PutObject first; CreateFile follows exactly when PutObject
   * succeeded; on success the row is new, created now, and the object holds
   * the part's payload under the row's key; nothing else changes.
   */
  lemma PostStepEffect(s: State, it: Item, now: Time, faults: set<Call>)
    ensures var f := it.file; var r := PostStep(s, it, now, faults);
      var put := PutObject(Join(f.dir, f.name), f.size, f.contentType);
      var create := CreateFile(f.dir, f.name, f.size, f.contentType, f.description, f.private);
      && (put in faults ==> r.state.trace == s.trace + [Attempt(put, Some(Failed(put)))] && r.error == Some(Failed(put)))
      && (put !in faults ==> r.state.trace == s.trace + [Attempt(put, None), Attempt(create, r.error)])
      && (r.error.None? <==> put !in faults && create !in faults && ItemKey(it) !in s.index)
      && (r.error.None? ==>
            && r.state.index == s.index[ItemKey(it) := NewRecord(f.dir, f.name, f.size, f.contentType, f.description, f.private, now)]
            && r.state.store == s.store[Join(f.dir, f.name) := BlobOf(it)])
      && (r.error.Some? ==> r.state.index == s.index)
      && (r.error.Some? ==> r.state.store == if put in faults then s.store else s.store[Join(f.dir, f.name) := BlobOf(it)])
  {
  }

  /**
   * POST to a path that already has a row: the object is overwritten with
   * the new payload before CreateFile is refused, so the old row is left
   * over the new object.
   */
  lemma PostConflictOverwrites(s: State, it: Item, now: Time, faults: set<Call>)
    requires ItemKey(it) in s.index
    requires PutObject(Join(it.file.dir, it.file.name), it.file.size, it.file.contentType) !in faults
    ensures var r := PostStep(s, it, now, faults);
      && r.error.Some?
      && r.state.index == s.index
      && r.state.store == s.store[Join(it.file.dir, it.file.name) := BlobOf(it)]
  {
  }

  /**
   * PATCH calls UpdateFile first; PutObject follows exactly when the update
   * succeeded; on success the row keeps its creation time, takes the new
   * attributes and is marked updated now, and the object holds the payload.
   */
  lemma PatchStepEffect(s: State, it: Item, now: Time, faults: set<Call>)
    ensures var f := it.file; var r := PatchStep(s, it, now, faults);
      var upd := UpdateFile(f.dir, f.name, f.size, f.contentType, f.description, f.private);
      var put := PutObject(Join(f.dir, f.name), f.size, f.contentType);
      && (upd in faults || ItemKey(it) !in s.index ==> |r.state.trace| == |s.trace| + 1 && r.state.trace[..|s.trace|] == s.trace &&
                                                       r.state.trace[|s.trace|].call == upd && r.error.Some? &&
                                                       r.state.store == s.store && r.state.index == s.index)
      && (upd !in faults && ItemKey(it) in s.index ==>
            && r.state.trace == s.trace + [Attempt(upd, None), Attempt(put, r.error)]
            && r.state.index == s.index[ItemKey(it) := s.index[ItemKey(it)].(size := f.size, contentType := f.contentType,
                                          description := f.description, private := f.private, updatedAt := now)]
            && (r.error.None? <==> put !in faults)
            && (r.error.None? ==> r.state.store == s.store[Join(f.dir, f.name) := BlobOf(it)])
            && (r.error.Some? ==> r.state.store == s.store))
      && (r.error.None? <==> upd !in faults && ItemKey(it) in s.index && put !in faults)
  {
  }

  /**
   * PATCH whose PutObject fails after the row was updated: the row carries
   * the new attributes while the store still holds the old object.
   */
  lemma PatchStaleObject(s: State, it: Item, now: Time, faults: set<Call>)
    requires ItemKey(it) in s.index
    requires UpdateFile(it.file.dir, it.file.name, it.file.size, it.file.contentType, it.file.description, it.file.private) !in faults
    requires PutObject(Join(it.file.dir, it.file.name), it.file.size, it.file.contentType) in faults
    ensures var r := PatchStep(s, it, now, faults);
      && r.error.Some?
      && ItemKey(it) in r.state.index && r.state.index[ItemKey(it)].size == it.file.size
      && r.state.index[ItemKey(it)].updatedAt == now
      && r.state.store == s.store
  {
  }

  // ---------------------------------------------------------------------
  // The callback loop

  /** One more item: the loop runs its callback unless it has already stopped. */
  lemma RunItemsNext(mode: Mode, s: State, items: seq<Item>, i: nat, now: Time, faults: set<Call>)
    requires i < |items|
    ensures var r := RunItems(mode, s, items[..i], now, faults);
      RunItems(mode, s, items[..i + 1], now, faults) ==
        if r.error.Some? then r else Callback(mode, r.state, items[i], now, faults)
  {
    assert items[..i + 1][..i] == items[..i];
  }

  /** Once the loop has stopped, further items change nothing. */
  lemma {:induction false} RunItemsStopped(mode: Mode, s: State, items: seq<Item>, n: nat, now: Time, faults: set<Call>)
    requires n <= |items| && RunItems(mode, s, items[..n], now, faults).error.Some?
    ensures RunItems(mode, s, items, now, faults) == RunItems(mode, s, items[..n], now, faults)
  {
    if n < |items| {
      var init := items[..|items| - 1];
      assert init[..n] == items[..n];
      RunItemsStopped(mode, s, init, n, now, faults);
    } else {
      assert items[..n] == items;
    }
  }

  /**
   * The loop ends with an error exactly when some callback fails, and then
   * it is the first failing callback's error: the items before it all
   * succeeded and nothing after it ran.
   */
  lemma RunItemsFirstError(mode: Mode, s: State, items: seq<Item>, now: Time, faults: set<Call>)
    requires RunItems(mode, s, items, now, faults).error.Some?
    ensures exists k ::
              && 0 <= k < |items|
              && RunItems(mode, s, items[..k], now, faults).error.None?
              && RunItems(mode, s, items, now, faults) ==
                 Callback(mode, RunItems(mode, s, items[..k], now, faults).state, items[k], now, faults)
  {
    var k := FailingItem(mode, s, items, now, faults);
  }

  /** The index of the callback that failed. */
  lemma {:induction false} FailingItem(mode: Mode, s: State, items: seq<Item>, now: Time, faults: set<Call>)
    returns (k: nat)
    requires RunItems(mode, s, items, now, faults).error.Some?
    ensures k < |items| && RunItems(mode, s, items[..k], now, faults).error.None?
    ensures RunItems(mode, s, items, now, faults) == Callback(mode, RunItems(mode, s, items[..k], now, faults).state, items[k], now, faults)
  {
    var n := |items| - 1;
    var init := items[..n];
    if RunItems(mode, s, init, now, faults).error.Some? {
      k := FailingItem(mode, s, init, now, faults);
      assert init[..k] == items[..k];
    } else {
      k := n;
    }
  }

  /** The trace only grows: earlier attempts are never rewritten. */
  lemma {:induction false} RunItemsExtendsTrace(mode: Mode, s: State, items: seq<Item>, now: Time, faults: set<Call>)
    ensures var r := RunItems(mode, s, items, now, faults);
      |s.trace| <= |r.state.trace| && r.state.trace[..|s.trace|] == s.trace
  {
    if items != [] {
      var init := items[..|items| - 1];
      RunItemsExtendsTrace(mode, s, init, now, faults);
      var r := RunItems(mode, s, init, now, faults);
      var it := items[|items| - 1];
      if r.error.None? {
        match mode
        case Post => PostStepEffect(r.state, it, now, faults);
        case Patch => PatchStepEffect(r.state, it, now, faults);
        var t := RunItems(mode, s, items, now, faults).state.trace;
        assert t[..|r.state.trace|] == r.state.trace;
        assert t[..|s.trace|] == r.state.trace[..|s.trace|];
      }
    }
  }

  /** A POST loop that ends without error keeps every row that existed before. */
  lemma {:induction false} PostRunKeepsRows(s: State, items: seq<Item>, now: Time, faults: set<Call>)
    requires RunItems(Post, s, items, now, faults).error.None?
    ensures var r := RunItems(Post, s, items, now, faults);
      forall key :: key in s.index ==> key in r.state.index && r.state.index[key] == s.index[key]
  {
    if items != [] {
      var init := items[..|items| - 1];
      PostRunKeepsRows(s, init, now, faults);
      PostStepCreates(RunItems(Post, s, init, now, faults).state, items[|items| - 1], now, faults);
    }
  }

  /**
   * A POST loop that ends without error created one fresh row per item,
   * with the item's attributes; so none of them existed before, and no two
   * items of the request name the same row.
   */
  lemma {:induction false} PostRunCreatesAll(s: State, items: seq<Item>, now: Time, faults: set<Call>)
    requires RunItems(Post, s, items, now, faults).error.None?
    ensures var r := RunItems(Post, s, items, now, faults);
      forall k :: 0 <= k < |items| ==>
        var f := items[k].file;
        && ItemKey(items[k]) !in s.index
        && ItemKey(items[k]) in r.state.index
        && r.state.index[ItemKey(items[k])] == NewRecord(f.dir, f.name, f.size, f.contentType, f.description, f.private, now)
    ensures forall j, k :: 0 <= j < k < |items| ==> ItemKey(items[j]) != ItemKey(items[k])
  {
    if items != [] {
      var n := |items| - 1;
      var init := items[..n];
      var it := items[n];
      PostRunCreatesAll(s, init, now, faults);
      var r := RunItems(Post, s, init, now, faults).state;
      PostRunKeepsRows(s, init, now, faults);
      PostStepCreates(r, it, now, faults);
      var r' := RunItems(Post, s, items, now, faults).state;
      assert r' == PostStep(r, it, now, faults).state;
      forall k | 0 <= k < |items|
        ensures var f := items[k].file;
          && ItemKey(items[k]) !in s.index
          && ItemKey(items[k]) in r'.index
          && r'.index[ItemKey(items[k])] == NewRecord(f.dir, f.name, f.size, f.contentType, f.description, f.private, now)
      {
        if k < n {
          assert items[k] == init[k];
        }
      }
      forall j, k | 0 <= j < k < |items|
        ensures ItemKey(items[j]) != ItemKey(items[k])
      {
        assert items[j] == init[j];
        if k < n {
          assert items[k] == init[k];
        }
      }
    }
  }

  /** A POST callback that succeeds inserts exactly the item's new row. */
  lemma PostStepCreates(s: State, it: Item, now: Time, faults: set<Call>)
    requires PostStep(s, it, now, faults).error.None?
    ensures var f := it.file;
      && ItemKey(it) !in s.index
      && PostStep(s, it, now, faults).state.index ==
         s.index[ItemKey(it) := NewRecord(f.dir, f.name, f.size, f.contentType, f.description, f.private, now)]
  {
  }

  // ---------------------------------------------------------------------
  // Consistency of the two backends

  /** POST never leaves a row without its object: an object is stored before any row is created. */
  lemma PostStepKeepsBacked(s: State, it: Item, now: Time, faults: set<Call>)
    requires Backed(s) && WellKeyed(s)
    ensures Backed(PostStep(s, it, now, faults).state) && WellKeyed(PostStep(s, it, now, faults).state)
  {
    PostStepEffect(s, it, now, faults);
    var r := PostStep(s, it, now, faults);
    var put := PutObjectStep(s, Join(it.file.dir, it.file.name), BlobOf(it), faults);
    if r.error.Some? {
      assert r.state.store == s.store || r.state.store == put.state.store;
    }
  }

  /** PATCH never leaves a row without its object: it only updates rows that had one, and adds objects. */
  lemma PatchStepKeepsBacked(s: State, it: Item, now: Time, faults: set<Call>)
    requires Backed(s) && WellKeyed(s)
    ensures Backed(PatchStep(s, it, now, faults).state) && WellKeyed(PatchStep(s, it, now, faults).state)
  {
    PatchStepEffect(s, it, now, faults);
  }

  /** A whole upload, POST or PATCH, keeps every row backed by its object. */
  lemma {:induction false} RunItemsKeepsBacked(mode: Mode, s: State, items: seq<Item>, now: Time, faults: set<Call>)
    requires Backed(s) && WellKeyed(s)
    ensures Backed(RunItems(mode, s, items, now, faults).state) && WellKeyed(RunItems(mode, s, items, now, faults).state)
  {
    if items != [] {
      var init := items[..|items| - 1];
      RunItemsKeepsBacked(mode, s, init, now, faults);
      var r := RunItems(mode, s, init, now, faults);
      if r.error.None? {
        match mode
        case Post => PostStepKeepsBacked(r.state, items[|items| - 1], now, faults);
        case Patch => PatchStepKeepsBacked(r.state, items[|items| - 1], now, faults);
      }
    }
  }

  /** The same for the handler as a whole, the parse included. */
  lemma UploadKeepsBacked(mode: Mode, s: State, rPath: string, body: Body,
                          decode: seq<Byte> -> Option<seq<FileRequest>>, now: Time, faults: set<Call>)
    requires Backed(s) && WellKeyed(s)
    ensures Backed(UploadRun(mode, s, rPath, body, decode, now, faults).state)
    ensures WellKeyed(UploadRun(mode, s, rPath, body, decode, now, faults).state)
  {
    RunItemsKeepsBacked(mode, s, PlanOf(rPath, body, decode).items, now, faults);
  }

  /** A refused body writes nothing at all. */
  lemma RefusedBodyWritesNothing(mode: Mode, s: State, rPath: string, body: Body,
                                 decode: seq<Byte> -> Option<seq<FileRequest>>, now: Time, faults: set<Call>)
    requires PlanOf(rPath, body, decode).items == []
    ensures UploadRun(mode, s, rPath, body, decode, now, faults) == Outcome(s, PlanOf(rPath, body, decode).end)
  {
  }

  /**
   * Round trip: after a POST item is written without error, the object
   * under the row's key holds exactly the uploaded bytes, size and type.
   */
  lemma PostThenRead(s: State, it: Item, now: Time, faults: set<Call>)
    requires PostStep(s, it, now, faults).error.None?
    ensures var r := PostStep(s, it, now, faults).state;
      && ItemKey(it) in r.index
      && ObjectKey(ItemKey(it)) in r.store
      && r.store[ObjectKey(ItemKey(it))].content == it.content
      && r.store[ObjectKey(ItemKey(it))].size == r.index[ItemKey(it)].size
      && r.store[ObjectKey(ItemKey(it))].contentType == r.index[ItemKey(it)].contentType
  {
    PostStepEffect(s, it, now, faults);
  }
}
