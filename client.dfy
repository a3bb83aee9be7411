/**
 * The API client: which HTTP exchange each public operation issues, how the
 * response is decoded, and how the status code decides between success and
 * failure.
 */
module OllamaApi {
  import opened Wrappers
  import opened Dtos
  import opened HttpStatus
  import Streaming

  datatype Verb = Get | Post | Head | Delete

  /** The request object serialized as a JSON body. */
  datatype RequestDto =
    | GenerateDto(generate: GenerateRequest)
    | ChatDto(chat: ChatRequest)
    | CreateDto(create: CreateModelRequest)
    | ShowDto(show: ModelInfoRequest)
    | CopyDto(copy: CopyModelRequest)
    | DeleteDto(delete: DeleteModelRequest)
    | PullDto(pull: PullModelRequest)
    | PushDto(push: PushModelRequest)
    | EmbedDto(embed: EmbedRequest)

  /** No body, the JSON serialization of a request object, or raw uploaded bytes. */
  datatype RequestBody = NoContent | Json(dto: RequestDto) | Upload(bytes: seq<bv8>)

  datatype HttpRequest = HttpRequest(verb: Verb, path: string, body: RequestBody)

  datatype HttpResponse = HttpResponse(status: int, body: string)

  /** The public asynchronous operations of the client, with their arguments. */
  datatype Operation =
    | GenerateCompletion(generate: GenerateRequest)
    | GenerateChatCompletion(chat: ChatRequest)
    | CreateModel(create: CreateModelRequest)
    | CheckBlobExists(digest: string)
    | PushBlob(digest: string, blob: seq<bv8>)
    | ListLocalModels
    | ShowModelInformation(show: ModelInfoRequest)
    | CopyModel(copy: CopyModelRequest)
    | DeleteModel(delete: DeleteModelRequest)
    | PullModel(pull: PullModelRequest)
    | PushModel(push: PushModelRequest)
    | GenerateEmbeddings(embed: EmbedRequest)
    | ListRunningModels
    | GetVersion

  /** How an operation turns the response into its result. */
  datatype Decoding =
    | SingleObject  // the whole body is one JSON document
    | StreamedList  // one JSON document per non-empty line
    | NoResult      // the body is ignored
    | StatusAsBool  // only the status code matters

  const BlobPrefix: string := "/api/blobs/"

  /** The operations that send a request object as JSON. */
  predicate SendsJson(op: Operation) {
    !(op.CheckBlobExists? || op.PushBlob? || op.ListLocalModels? || op.ListRunningModels? || op.GetVersion?)
  }

  /** The decode strategy of each operation. */
  function DecodingOf(op: Operation): (d: Decoding)
    ensures d == StreamedList <==> op.CreateModel? || op.PullModel? || op.PushModel?
    ensures d == SingleObject <==>
      op.GenerateCompletion? || op.GenerateChatCompletion? || op.ListLocalModels? ||
      op.ShowModelInformation? || op.GenerateEmbeddings? || op.ListRunningModels? || op.GetVersion?
    ensures d == NoResult <==> op.CopyModel? || op.DeleteModel? || op.PushBlob?
    ensures d == StatusAsBool <==> op.CheckBlobExists?
  {
    match op
    case GenerateCompletion(_) => SingleObject
    case GenerateChatCompletion(_) => SingleObject
    case CreateModel(_) => StreamedList
    case CheckBlobExists(_) => StatusAsBool
    case PushBlob(_, _) => NoResult
    case ListLocalModels => SingleObject
    case ShowModelInformation(_) => SingleObject
    case CopyModel(_) => NoResult
    case DeleteModel(_) => NoResult
    case PullModel(_) => StreamedList
    case PushModel(_) => StreamedList
    case GenerateEmbeddings(_) => SingleObject
    case ListRunningModels => SingleObject
    case GetVersion => SingleObject
  }

  /** The HTTP request each operation issues. */
  function Route(op: Operation): (r: HttpRequest)
    ensures r.verb == Delete <==> op.DeleteModel?
    ensures r.verb == Head <==> op.CheckBlobExists?
    ensures r.verb == Get <==> op.ListLocalModels? || op.ListRunningModels? || op.GetVersion?
    ensures op.DeleteModel? ==> r.path == "/api/delete" && r.body == Json(DeleteDto(op.delete))
    ensures op.CheckBlobExists? || op.PushBlob? ==> r.path == BlobPrefix + op.digest
    ensures op.PushBlob? ==> r.body == Upload(op.blob)
    ensures r.body.Json? <==> SendsJson(op)
    ensures r.body.NoContent? <==> op.CheckBlobExists? || op.ListLocalModels? || op.ListRunningModels? || op.GetVersion?
  {
    match op
    case GenerateCompletion(q) => HttpRequest(Post, "/api/generate", Json(GenerateDto(q)))
    case GenerateChatCompletion(q) => HttpRequest(Post, "/api/chat", Json(ChatDto(q)))
    case CreateModel(q) => HttpRequest(Post, "/api/create", Json(CreateDto(q)))
    case CheckBlobExists(d) => HttpRequest(Head, BlobPrefix + d, NoContent)
    case PushBlob(d, b) => HttpRequest(Post, BlobPrefix + d, Upload(b))
    case ListLocalModels => HttpRequest(Get, "/api/tags", NoContent)
    case ShowModelInformation(q) => HttpRequest(Post, "/api/show", Json(ShowDto(q)))
    case CopyModel(q) => HttpRequest(Post, "/api/copy", Json(CopyDto(q)))
    case DeleteModel(q) => HttpRequest(Delete, "/api/delete", Json(DeleteDto(q)))
    case PullModel(q) => HttpRequest(Post, "/api/pull", Json(PullDto(q)))
    case PushModel(q) => HttpRequest(Post, "/api/push", Json(PushDto(q)))
    case GenerateEmbeddings(q) => HttpRequest(Post, "/api/embed", Json(EmbedDto(q)))
    case ListRunningModels => HttpRequest(Get, "/api/ps", NoContent)
    case GetVersion => HttpRequest(Get, "/api/version", NoContent)
  }

  predicate IsBlobPath(path: string) {
    |BlobPrefix| <= |path| && path[..|BlobPrefix|] == BlobPrefix
  }

  /** The digest named by a blob path. */
  function BlobDigest(path: string): (digest: string)
    requires IsBlobPath(path)
    ensures path == BlobPrefix + digest
  {
    path[|BlobPrefix|..]
  }

  /** The inverse of the routing table: which operation a request stands for, if any. */
  function Resolve(req: HttpRequest): (op: Option<Operation>)
    ensures op.Some? ==> (req.verb == Delete <==> op.value.DeleteModel?)
  {
    match req.body
    case NoContent =>
      if req.verb == Head && IsBlobPath(req.path) then Some(CheckBlobExists(BlobDigest(req.path)))
      else if req.verb == Get && req.path == "/api/tags" then Some(ListLocalModels)
      else if req.verb == Get && req.path == "/api/ps" then Some(ListRunningModels)
      else if req.verb == Get && req.path == "/api/version" then Some(GetVersion)
      else None
    case Upload(b) =>
      if req.verb == Post && IsBlobPath(req.path) then Some(PushBlob(BlobDigest(req.path), b)) else None
    case Json(dto) =>
      match dto
      case DeleteDto(q) => if req.verb == Delete && req.path == "/api/delete" then Some(DeleteModel(q)) else None
      case GenerateDto(q) => if req.verb == Post && req.path == "/api/generate" then Some(GenerateCompletion(q)) else None
      case ChatDto(q) => if req.verb == Post && req.path == "/api/chat" then Some(GenerateChatCompletion(q)) else None
      case CreateDto(q) => if req.verb == Post && req.path == "/api/create" then Some(CreateModel(q)) else None
      case ShowDto(q) => if req.verb == Post && req.path == "/api/show" then Some(ShowModelInformation(q)) else None
      case CopyDto(q) => if req.verb == Post && req.path == "/api/copy" then Some(CopyModel(q)) else None
      case PullDto(q) => if req.verb == Post && req.path == "/api/pull" then Some(PullModel(q)) else None
      case PushDto(q) => if req.verb == Post && req.path == "/api/push" then Some(PushModel(q)) else None
      case EmbedDto(q) => if req.verb == Post && req.path == "/api/embed" then Some(GenerateEmbeddings(q)) else None
  }

  /** The routing table's inverse recovers every operation, arguments included, from the request it issues. */
  lemma RouteRoundTrip(op: Operation)
    ensures Resolve(Route(op)) == Some(op)
  {
    // BlobDigest's contract recovers the digest of the two blob routes.
  }

  /** No two operations share a request: the routing table is unambiguous. */
  lemma RouteInjective(op1: Operation, op2: Operation)
    ensures Route(op1) == Route(op2) <==> op1 == op2
  {
    RouteRoundTrip(op1);
    RouteRoundTrip(op2);
  }

  // ---------------------------------------------------------------------
  // Executing an operation against a response

  /** What an operation returns on success. */
  datatype Outcome<D> =
    | BlobExists(found: bool)
    | Document(doc: D)
    | Progress(steps: seq<Option<ModelOperationStatus>>)  // a `null` line decodes to None
    | Completed

  /** Why an operation fails. */
  datatype ClientError =
    | StatusFailure(status: int)   // EnsureSuccessStatusCode on a non-2xx status
    | DecodeFailure(detail: string) // malformed JSON

  /** The library collaborators: JSON decoding and the reader's line splitting. */
  datatype Codec<D> = Codec(
    decodeDocument: string -> Result<D, string>,
    decodeStatus: string -> Result<Option<ModelOperationStatus>, string>,
    readLines: string -> seq<string>)

  /** The result shape each decode strategy produces. */
  predicate Fits<D>(d: Decoding, o: Outcome<D>) {
    match d
    case SingleObject => o.Document?
    case StreamedList => o.Progress?
    case NoResult => o.Completed?
    case StatusAsBool => o.BlobExists?
  }

  /** Running operation `op` when the server answers `resp` and cancellation is requested after `cancelAt` lines. */
  function Perform<D>(op: Operation, resp: HttpResponse, codec: Codec<D>, cancelAt: Option<nat>): (r: Result<Outcome<D>, ClientError>)
    ensures op.CheckBlobExists? ==> r == Success(BlobExists(200 <= resp.status <= 299))
    ensures !op.CheckBlobExists? && !(200 <= resp.status <= 299) ==> r == Failure(StatusFailure(resp.status))
    ensures r.Failure? && r.error.StatusFailure? ==> !(200 <= resp.status <= 299) && !op.CheckBlobExists?
    ensures r.Success? ==> Fits(DecodingOf(op), r.value)
    ensures r.Failure? && r.error.DecodeFailure? ==>
      200 <= resp.status <= 299 && (DecodingOf(op) == SingleObject || DecodingOf(op) == StreamedList)
    ensures DecodingOf(op) == NoResult && 200 <= resp.status <= 299 ==> r == Success(Completed)
    ensures DecodingOf(op) == SingleObject && 200 <= resp.status <= 299 ==>
      var d := codec.decodeDocument(resp.body);
      (r.Success? <==> d.Success?) &&
      (r.Success? ==> r.value.doc == d.value) &&
      (r.Failure? ==> r.error == DecodeFailure(d.error))
    ensures DecodingOf(op) == StreamedList && 200 <= resp.status <= 299 ==>
      var s := Streaming.StreamedResults(codec.decodeStatus, codec.readLines(resp.body), cancelAt);
      (r.Success? <==> s.Success?) &&
      (r.Success? ==> r.value.steps == s.value) &&
      (r.Failure? ==> r.error == DecodeFailure(s.error))
  {
    if DecodingOf(op) == StatusAsBool then
      Success(BlobExists(IsSuccess(resp.status)))
    else if !IsSuccess(resp.status) then
      Failure(StatusFailure(resp.status))
    else
      match DecodingOf(op)
      case SingleObject =>
        (match codec.decodeDocument(resp.body)
         case Success(doc) => Success(Document(doc))
         case Failure(m) => Failure(DecodeFailure(m)))
      case StreamedList =>
        (match Streaming.StreamedResults(codec.decodeStatus, codec.readLines(resp.body), cancelAt)
         case Success(steps) => Success(Progress(steps))
         case Failure(m) => Failure(DecodeFailure(m)))
      case NoResult => Success(Completed)
  }

  /** A cancelled create, pull or push returns normally, with a prefix of the steps a full read yields. */
  lemma CancelledOperationKeepsProgress<D>(op: Operation, resp: HttpResponse, codec: Codec<D>, cancelAt: Option<nat>)
    requires DecodingOf(op) == StreamedList
    requires Perform(op, resp, codec, None).Success?
    ensures Perform(op, resp, codec, cancelAt).Success?
    ensures Perform(op, resp, codec, cancelAt).value.steps <= Perform(op, resp, codec, None).value.steps
  {
    Streaming.CancelledReadIsPrefix(codec.decodeStatus, codec.readLines(resp.body), cancelAt);
  }

  /** A successful streamed operation yields one step per non-empty line, each the decoding of its line, in order. */
  lemma StreamedOperationSteps<D>(op: Operation, resp: HttpResponse, codec: Codec<D>)
    requires DecodingOf(op) == StreamedList
    requires Perform(op, resp, codec, None).Success?
    ensures var lines := codec.readLines(resp.body);
      var kept := Streaming.Kept(lines);
      var steps := Perform(op, resp, codec, None).value.steps;
      |steps| == |kept| == |lines| - multiset(lines)[""] &&
      forall j :: 0 <= j < |steps| ==> codec.decodeStatus(kept[j]) == Success(steps[j])
  {
    var lines := codec.readLines(resp.body);
    Streaming.FullReadLength(codec.decodeStatus, lines);
    assert lines[..|lines|] == lines;
    Streaming.DecodeEachMeaning(codec.decodeStatus, Streaming.Kept(lines));
  }
}
