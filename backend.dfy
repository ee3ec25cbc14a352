/**
 * The two backends the mutating handlers of files.go write to: the
 * metadata index (s.db) and the object store (s.storage). Each backend call
 * is a step on a `State` that also records the attempt and its outcome, so
 * that write ordering can be stated. Which calls fail is an oracle: the set
 * `faults` of calls the backend rejects.
 */
module Backend {
  import opened Wrappers
  import opened Paths
  import opened Records

  type Byte = b: int | 0 <= b < 256

  /** What PutObject stores under a key. */
  datatype Blob = Blob(size: Uint64, contentType: string, content: seq<Byte>)

  /** A metadata row is identified by its directory and name. */
  datatype Key = Key(dir: string, name: string)

  /** The object key of a metadata row: path.Join(Dir, Name). */
  function ObjectKey(k: Key): string
  {
    Join(k.dir, k.name)
  }

  /** The backend calls the handlers make, with the arguments that identify them. */
  datatype Call =
    | PutObject(key: string, size: Uint64, contentType: string)
    | CreateFile(dir: string, name: string, size: Uint64, contentType: string, description: string, private: bool)
    | UpdateFile(dir: string, name: string, size: Uint64, contentType: string, description: string, private: bool)
    | DeleteFile(dir: string, name: string)
    | DeleteObject(key: string)

  /** The errors the handlers return or join. */
  datatype Error =
    | BadMultipart           // r.MultipartReader or NextPart failed
    | EndOfBody              // io.EOF where the json part was expected
    | JsonFieldNotFound      // "json field not found"
    | BadJson                // the json part did not decode
    | NotEnoughFiles         // "not enough files"
    | NoSuchFile(key: Key)   // the index has no such row
    | Conflict(key: Key)     // the index already has such a row
    | Failed(call: Call)     // the backend rejected the call

  /** One backend call and how it ended. */
  datatype Attempt = Attempt(call: Call, error: Option<Error>)

  datatype State = State(index: map<Key, FileRecord>, store: map<string, Blob>, trace: seq<Attempt>)

  /** The state after a call and the call's error, if any. */
  datatype Outcome = Outcome(state: State, error: Option<Error>)

  /** A call that ends with `e`, leaving the backends as they were. */
  function Rejected(s: State, c: Call, e: Error): (o: Outcome)
    ensures o.error == Some(e)
    ensures o.state.index == s.index && o.state.store == s.store
    ensures o.state.trace == s.trace + [Attempt(c, Some(e))]
  {
    Outcome(s.(trace := s.trace + [Attempt(c, Some(e))]), Some(e))
  }

  /** A call that succeeds, with the backends it leaves. */
  function Accepted(s: State, c: Call, index: map<Key, FileRecord>, store: map<string, Blob>): (o: Outcome)
    ensures o.error == None
    ensures o.state.index == index && o.state.store == store
    ensures o.state.trace == s.trace + [Attempt(c, None)]
  {
    Outcome(State(index, store, s.trace + [Attempt(c, None)]), None)
  }

  /** storage.PutObject: the object is stored (replacing any old one) unless the store rejects the call. */
  function PutObjectStep(s: State, key: string, blob: Blob, faults: set<Call>): Outcome
  {
    var c := PutObject(key, blob.size, blob.contentType);
    if c in faults then Rejected(s, c, Failed(c))
    else Accepted(s, c, s.index, s.store[key := blob])
  }

  /** The row db.CreateFile inserts: created now, never updated. */
  function NewRecord(dir: string, name: string, size: Uint64, contentType: string, description: string,
                     private: bool, now: Time): FileRecord
  {
    FileRecord(dir, name, size, contentType, description, private, now, 0)
  }

  /** db.CreateFile: a new row, or Conflict when the row exists. */
  function CreateFileStep(s: State, dir: string, name: string, size: Uint64, contentType: string,
                          description: string, private: bool, now: Time, faults: set<Call>): Outcome
  {
    var c := CreateFile(dir, name, size, contentType, description, private);
    var k := Key(dir, name);
    if c in faults then Rejected(s, c, Failed(c))
    else if k in s.index then Rejected(s, c, Conflict(k))
    else Accepted(s, c, s.index[k := NewRecord(dir, name, size, contentType, description, private, now)], s.store)
  }

  /** db.UpdateFile: the row's attributes are replaced and it is marked updated now; NoSuchFile when absent. */
  function UpdateFileStep(s: State, dir: string, name: string, size: Uint64, contentType: string,
                          description: string, private: bool, now: Time, faults: set<Call>): Outcome
  {
    var c := UpdateFile(dir, name, size, contentType, description, private);
    var k := Key(dir, name);
    if c in faults then Rejected(s, c, Failed(c))
    else if k !in s.index then Rejected(s, c, NoSuchFile(k))
    else
      var r := s.index[k];
      Accepted(s, c, s.index[k := r.(size := size, contentType := contentType, description := description,
                                     private := private, updatedAt := now)], s.store)
  }

  /** db.DeleteFile: the row is removed; NoSuchFile when absent. */
  function DeleteFileStep(s: State, dir: string, name: string, faults: set<Call>): Outcome
  {
    var c := DeleteFile(dir, name);
    var k := Key(dir, name);
    if c in faults then Rejected(s, c, Failed(c))
    else if k !in s.index then Rejected(s, c, NoSuchFile(k))
    else Accepted(s, c, s.index - {k}, s.store)
  }

  /** storage.DeleteObject: the object is removed (an absent one stays absent). */
  function DeleteObjectStep(s: State, key: string, faults: set<Call>): Outcome
  {
    var c := DeleteObject(key);
    if c in faults then Rejected(s, c, Failed(c))
    else Accepted(s, c, s.index, s.store - {key})
  }

  // ---------------------------------------------------------------------
  // Invariants relating the two backends

  /** Every row is filed under its own directory and name. */
  ghost predicate WellKeyed(s: State)
  {
    forall k :: k in s.index ==> s.index[k].dir == k.dir && s.index[k].name == k.name
  }

  /** Every row has its object: no metadata points at a missing object. */
  ghost predicate Backed(s: State)
  {
    forall k :: k in s.index ==> ObjectKey(k) in s.store
  }

  /** No two rows share an object key. */
  ghost predicate Unaliased(s: State)
  {
    forall k1, k2 :: k1 in s.index && k2 in s.index && ObjectKey(k1) == ObjectKey(k2) ==> k1 == k2
  }
}
