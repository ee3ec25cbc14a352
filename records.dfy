/**
 * The file rows the metadata index returns for a request path (the
 * directory/name schema of files.go), and the totals the handlers keep.
 */
module Records {
  import opened Paths

  /** 2^64: Go's uint64 sizes wrap modulo this. */
  const U64: int := 0x1_0000_0000_0000_0000

  type Uint64 = x: int | 0 <= x < U64

  /** Go's uint64 addition: the sum wraps around at 2^64. */
  function AddU64(a: Uint64, b: Uint64): (r: Uint64)
    ensures r == (a + b) % U64
    ensures r <= a + b
  {
    if a + b < U64 then a + b else a + b - U64
  }

  /** An instant; 0 stands for Go's zero time.Time. */
  type Time = nat

  datatype FileRecord = FileRecord(
    dir: string,
    name: string,
    size: Uint64,
    contentType: string,
    description: string,
    private: bool,
    createdAt: Time,
    updatedAt: Time)

  /** The object-store key of a record: path.Join(Dir, Name). */
  function FullName(f: FileRecord): string
  {
    Join(f.dir, f.name)
  }

  /** The records a listing or an archive may show: the non-private ones, in order. */
  function Visible(files: seq<FileRecord>): (r: seq<FileRecord>)
    ensures |r| <= |files|
    ensures forall i :: 0 <= i < |r| ==> !r[i].private && r[i] in files
    ensures forall f :: f in files && !f.private ==> f in r
    ensures (forall f :: f in files ==> !f.private) ==> r == files
  {
    if files == [] then []
    else
      var init := files[..|files| - 1];
      var last := files[|files| - 1];
      assert files == init + [last];
      Visible(init) + (if last.private then [] else [last])
  }

  /** The positions of the non-private records, in increasing order. */
  function VisiblePositions(files: seq<FileRecord>): seq<nat>
  {
    if files == [] then []
    else
      var n := |files| - 1;
      VisiblePositions(files[..n]) + (if files[n].private then [] else [n])
  }

  /** Visible's i-th record is the record at the i-th visible position. */
  lemma {:induction false} VisiblePositionsPick(files: seq<FileRecord>)
    ensures var idx := VisiblePositions(files);
      |idx| == |Visible(files)| &&
      forall i :: 0 <= i < |idx| ==> idx[i] < |files| && Visible(files)[i] == files[idx[i]]
  {
    if files != [] {
      var n := |files| - 1;
      var init := files[..n];
      VisiblePositionsPick(init);
      var tail := if files[n].private then [] else [files[n]];
      assert files == init + [files[n]];
      assert Visible(files) == Visible(init) + tail;
      assert VisiblePositions(files) == VisiblePositions(init) + (if files[n].private then [] else [n]);
      assert forall k :: 0 <= k < n ==> init[k] == files[k];
    }
  }

  /** The visible positions strictly increase and stay below the length. */
  lemma {:induction false} VisiblePositionsIncrease(files: seq<FileRecord>)
    ensures forall i :: 0 <= i < |VisiblePositions(files)| ==> VisiblePositions(files)[i] < |files|
    ensures forall i, j :: 0 <= i < j < |VisiblePositions(files)| ==> VisiblePositions(files)[i] < VisiblePositions(files)[j]
  {
    if files != [] {
      var n := |files| - 1;
      var prev := VisiblePositions(files[..n]);
      VisiblePositionsIncrease(files[..n]);
      assert forall i :: 0 <= i < |prev| ==> prev[i] < n;
      var idx := prev + (if files[n].private then [] else [n]);
      assert VisiblePositions(files) == idx;
      assert forall i :: 0 <= i < |idx| ==> idx[i] <= n;
    }
  }

  /** Every non-private position is a visible position. */
  lemma {:induction false} VisiblePositionsCover(files: seq<FileRecord>, k: nat) returns (i: nat)
    requires k < |files| && !files[k].private
    ensures i < |VisiblePositions(files)| && VisiblePositions(files)[i] == k
  {
    var n := |files| - 1;
    var init := files[..n];
    var prev := VisiblePositions(init);
    var tail: seq<nat> := if files[n].private then [] else [n];
    assert VisiblePositions(files) == prev + tail;
    if k < n {
      assert init[k] == files[k];
      i := VisiblePositionsCover(init, k);
    } else {
      i := |prev|;
    }
  }

  /**
   * Visible keeps order and multiplicity: its i-th record is the record at
   * position idx[i] of the input, the positions strictly increase, and
   * every non-private position is among them.
   */
  lemma VisibleIndex(files: seq<FileRecord>) returns (idx: seq<nat>)
    ensures |idx| == |Visible(files)|
    ensures forall i :: 0 <= i < |idx| ==> idx[i] < |files| && Visible(files)[i] == files[idx[i]]
    ensures forall i, j :: 0 <= i < j < |idx| ==> idx[i] < idx[j]
    ensures forall k :: 0 <= k < |files| && !files[k].private ==> k in idx
  {
    idx := VisiblePositions(files);
    VisiblePositionsPick(files);
    VisiblePositionsIncrease(files);
    forall k | 0 <= k < |files| && !files[k].private
      ensures k in idx
    {
      var i := VisiblePositionsCover(files, k);
    }
  }

  /** Sum of the sizes of some records, without wrap-around. */
  function TotalSize(files: seq<FileRecord>): nat
  {
    if files == [] then 0 else TotalSize(files[..|files| - 1]) + files[|files| - 1].size
  }

  lemma TotalSizeAppend(files: seq<FileRecord>, f: FileRecord)
    ensures TotalSize(files + [f]) == TotalSize(files) + f.size
  {
    assert (files + [f])[..|files|] == files;
  }
}
