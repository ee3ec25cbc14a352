/**
 * The upload protocol of parseMultipart (files.go:253-304), as a parse of
 * the multipart body into the files handed to the callback and the error
 * the loop ends with. MIME framing and JSON decoding are not modelled: the
 * body is the sequence of parts NextPart yields, and the JSON decoder is a
 * function parameter.
 */
module Upload {
  import opened Wrappers
  import opened Records
  import opened Backend

  /** One part as NextPart yields it: form name, file name, Content-Type header and payload. */
  datatype Part = Part(formName: string, fileName: string, contentType: string, content: seq<Byte>)

  /**
   * The request body: not multipart at all (r.MultipartReader fails), or
   * the parts NextPart yields before it reports either io.EOF or, when
   * `broken`, another error.
   */
  datatype Body = NotMultipart | Parts(parts: seq<Part>, broken: bool)

  /** One element of the json part's array. */
  datatype FileRequest = FileRequest(size: Uint64, description: string, private: bool)

  /** What the callback receives for one file. */
  datatype ParsedFile = ParsedFile(
    dir: string,
    name: string,
    size: Uint64,
    contentType: string,
    description: string,
    private: bool)

  /** A parsed file together with the payload of its part. */
  datatype Item = Item(file: ParsedFile, content: seq<Byte>)

  /** The files the loop hands to the callback, in order, and the error it ends with when none fails. */
  datatype Plan = Plan(items: seq<Item>, end: Option<Error>)

  const DefaultContentType: string := "application/octet-stream"

  /** The content type of a part: its header, or the default when the header is empty. */
  function PartContentType(p: Part): string
  {
    if p.contentType == "" then DefaultContentType else p.contentType
  }

  /** The ParsedFile for a metadata entry and the part that follows it. */
  function Parse(rPath: string, req: FileRequest, p: Part): ParsedFile
  {
    ParsedFile(rPath, p.fileName, req.size, PartContentType(p), req.description, req.private)
  }

  /** The items for metadata entries paired with the parts after the json part. */
  function Items(rPath: string, reqs: seq<FileRequest>, parts: seq<Part>): (items: seq<Item>)
    requires |reqs| <= |parts|
    ensures |items| == |reqs|
    ensures forall i :: 0 <= i < |reqs| ==> items[i] == Item(Parse(rPath, reqs[i], parts[i]), parts[i].content)
  {
    if reqs == [] then []
    else
      var n := |reqs| - 1;
      Items(rPath, reqs[..n], parts[..n]) + [Item(Parse(rPath, reqs[n], parts[n]), parts[n].content)]
  }

  /** The error NextPart reports once the parts run out. */
  function Exhausted(broken: bool, atEnd: Error): Error
  {
    if broken then BadMultipart else atEnd
  }

  /** What parseMultipart does with a body, before any callback runs. */
  function PlanOf(rPath: string, body: Body, decode: seq<Byte> -> Option<seq<FileRequest>>): Plan
  {
    match body
    case NotMultipart => Plan([], Some(BadMultipart))
    case Parts(parts, broken) =>
      if parts == [] then Plan([], Some(Exhausted(broken, EndOfBody)))
      else if parts[0].formName != "json" then Plan([], Some(JsonFieldNotFound))
      else
        match decode(parts[0].content)
        case None => Plan([], Some(BadJson))
        case Some(reqs) =>
          var files := parts[1..];
          if |reqs| <= |files| then Plan(Items(rPath, reqs, files), None)
          else Plan(Items(rPath, reqs[..|files|], files), Some(Exhausted(broken, NotEnoughFiles)))
  }

  // ---------------------------------------------------------------------
  // Properties of the protocol

  /** A first part not named "json" is refused before anything is decoded or written. */
  lemma FirstPartMustBeJson(rPath: string, parts: seq<Part>, broken: bool, decode: seq<Byte> -> Option<seq<FileRequest>>)
    requires parts != [] && parts[0].formName != "json"
    ensures PlanOf(rPath, Parts(parts, broken), decode) == Plan([], Some(JsonFieldNotFound))
  {
  }

  /**
   * Each metadata entry is paired with the part after it: the file is
   * filed under the request path, named by the part's file name, sized,
   * described and flagged by the entry, and typed by the part's header or
   * application/octet-stream when that is empty.
   */
  lemma ItemsPairEntriesWithParts(rPath: string, parts: seq<Part>, broken: bool,
                                  decode: seq<Byte> -> Option<seq<FileRequest>>)
    requires parts != [] && parts[0].formName == "json" && decode(parts[0].content).Some?
    ensures var plan := PlanOf(rPath, Parts(parts, broken), decode);
      var reqs := decode(parts[0].content).value;
      && |plan.items| == (if |reqs| <= |parts| - 1 then |reqs| else |parts| - 1)
      && forall i :: 0 <= i < |plan.items| ==>
           var f := plan.items[i].file;
           && f.dir == rPath && f.name == parts[i + 1].fileName
           && f.size == reqs[i].size && f.description == reqs[i].description && f.private == reqs[i].private
           && (parts[i + 1].contentType == "" ==> f.contentType == "application/octet-stream")
           && (parts[i + 1].contentType != "" ==> f.contentType == parts[i + 1].contentType)
           && plan.items[i].content == parts[i + 1].content
  {
  }

  /** With fewer parts than entries the loop ends with "not enough files" (or the framing error). */
  lemma NotEnoughParts(rPath: string, parts: seq<Part>, broken: bool, decode: seq<Byte> -> Option<seq<FileRequest>>)
    requires parts != [] && parts[0].formName == "json" && decode(parts[0].content).Some?
    ensures var reqs := decode(parts[0].content).value;
      PlanOf(rPath, Parts(parts, broken), decode).end.Some? <==> |reqs| > |parts| - 1
    ensures !broken && |decode(parts[0].content).value| > |parts| - 1 ==>
      PlanOf(rPath, Parts(parts, broken), decode).end == Some(NotEnoughFiles)
  {
  }

  /** Parts beyond those the entries ask for are never read. */
  lemma ExtraPartsIgnored(rPath: string, parts: seq<Part>, extra: seq<Part>, broken: bool, broken': bool,
                          decode: seq<Byte> -> Option<seq<FileRequest>>)
    requires parts != [] && parts[0].formName == "json" && decode(parts[0].content).Some?
    requires |decode(parts[0].content).value| <= |parts| - 1
    ensures PlanOf(rPath, Parts(parts + extra, broken'), decode) == PlanOf(rPath, Parts(parts, broken), decode)
  {
    var reqs := decode(parts[0].content).value;
    var all := parts + extra;
    assert all[0] == parts[0];
    ItemsPrefix(rPath, reqs, parts[1..], all[1..]);
  }

  /** Only the parts paired with entries matter to the items. */
  lemma ItemsPrefix(rPath: string, reqs: seq<FileRequest>, parts: seq<Part>, parts': seq<Part>)
    requires |reqs| <= |parts| <= |parts'| && parts == parts'[..|parts|]
    ensures Items(rPath, reqs, parts) == Items(rPath, reqs, parts')
  {
  }
}
