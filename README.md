# OllamaClient response handling, modelled in Dafny

This project models the response-handling core of `OllamaClient`, the typed
C# client for a local large-language-model server's HTTP API:

- **Streamed decoding** (`ReadStreamedResponses`): the newline-delimited JSON
  body of create, pull and push is read line by line. Exactly-empty lines are
  skipped. Every other line is decoded on its own and appended to the result
  in arrival order. A line that fails to decode aborts the call. Cancellation
  is looked at before each line: once seen, the lines gathered so far are
  returned normally. The model is a method with a loop (`Streaming.ReadStreamedResponses`)
  proved equal to a specification function (`Streaming.StreamedResults`).
  That function is "decode each of the kept lines of the first `StopPoint` lines".
- **Status-code policy**: every operation except `CheckBlobExistsAsync` calls
  `EnsureSuccessStatusCode`, so a status outside 200–299 fails the call before
  the body is looked at. `CheckBlobExistsAsync` turns the status into a
  boolean instead. The 2xx class follows section 15.3 of RFC 9110 (`HttpStatus.IsSuccess`).
- **Routing table**: each public operation issues a fixed verb, path and body
  (`OllamaApi.Route`) and decodes its response in a fixed way
  (`OllamaApi.DecodingOf`). The routing table has an inverse, `OllamaApi.Resolve`.
  It is proved to recover every operation, with its arguments, from the request
  the table builds.
- **Data contracts** (`Dtos`): the request objects and `ModelOperationStatus`
  as datatypes. Nullable members are `Option`s; `long`/`int` are
  the bounded newtypes `int64`/`int32`; a member typed `object` is a tagged
  `JsonValue`, and a `Dictionary<string, object>` is a `map<string, JsonValue>`.
  The exception is `EmbedRequest.Input`, also typed `object`: it is an
  `EmbedInput`, which is one string, a list of strings, or any other `JsonValue`.
  A streamed line that reads `null` decodes to `None`, which is appended like
  any other value.

JSON (de)serialization and the reader's line splitting are library code.
They enter the model as the function fields of `OllamaApi.Codec`. The
response arrives as a value `HttpResponse(status, body)`. Cancellation
is the parameter `cancelAt`: the number of body lines read, after the response
has arrived, when cancellation is requested, or `None` when it never is.
`Streaming.CancellationObserved(cancelAt, i)` is the loop-head test after `i`
lines: cancellation has been requested by then.

Three details follow the code as written:

- A non-success status fails with the status code only (`StatusFailure(status)`).
  `EnsureSuccessStatusCode` does not carry the response body.
- No operation checks that a request's `Model` is non-empty, and neither does the model.
- A cancelled read returns the decoded non-empty lines among the lines read so far.
  That can be the full set, when only empty lines or none remain.

## Model

| member | source | states |
|---|---|---|
| HttpStatus.IsSuccess | OllamaClient.cs:262 | a status is a success exactly when its class, the first of its three digits, is 2 |
| Streaming.CancellationPersists | OllamaClient.cs:394 | a cancellation seen at one loop head is seen at every later one: a request is never withdrawn |
| Streaming.DecodeEach | OllamaClient.cs:399-400 | a successful decoding yields exactly one value per line |
| Streaming.StreamedResults | OllamaClient.cs:389-404 | a successful read has at most one value per line read; cancellation before the first line yields an empty success |
| Streaming.ReadStreamedResponses | OllamaClient.cs:389-404 | the reading loop returns exactly the decoding of the non-empty lines among the first `StopPoint` lines, or the first decode failure among them |
| Streaming.Kept | OllamaClient.cs:397 | the lines handed to the decoder are non-empty lines of the body and never more than the body has |
| Streaming.StopPoint | OllamaClient.cs:394 | reading stops at the end of the body or at the first loop head where cancellation is observed, and not earlier |
| Streaming.KeptMembership | OllamaClient.cs:397 | a line reaches the decoder exactly when it occurs in the body and is not the empty string (whitespace-only lines do) |
| Streaming.KeptAppend | OllamaClient.cs:394-402 | skipping empty lines keeps the body's order: the kept lines of a concatenation are the concatenation of the kept lines |
| Streaming.KeptCount | OllamaClient.cs:397-401 | the number of kept lines is the number of lines minus the number of empty lines |
| Streaming.DecodeEachAppend | OllamaClient.cs:399-400 | decoding two runs of lines in turn is decoding their concatenation, the earlier failure winning |
| Streaming.DecodeEachMeaning | OllamaClient.cs:399-400 | decoding succeeds iff every line decodes; then it yields one value per line, in line order; otherwise the error is that of the first failing line |
| Streaming.StreamStep | OllamaClient.cs:396-401 | one iteration leaves the results unchanged on an empty line, and otherwise appends the line's value at the end or aborts with its error |
| Streaming.PrefixOfLonger | OllamaClient.cs:394-403 | reading fewer lines yields a prefix of reading more, and a failure among the first lines is the failure of the longer read |
| Streaming.CancelledReadIsPrefix | OllamaClient.cs:394-403 | if the full read succeeds, a cancelled read also succeeds, with a prefix of the full result |
| Streaming.CancellationIsNotAnError | OllamaClient.cs:394-403 | a failed read always names a non-empty line before the stop point whose decoding failed with that error; cancellation itself never fails |
| Streaming.EveryNonEmptyLineIsDecoded | OllamaClient.cs:397-400 | each non-empty line before the stop point is decoded: its failure fails the read, and on success its value is in the result |
| Streaming.FullReadLength | OllamaClient.cs:394-401 | a full, successful read has as many results as the body has non-empty lines |
| OllamaApi.DecodingOf | OllamaClient.cs:235-335 | create, pull and push decode a line stream; generate, chat, tags, show, embed, ps and version decode one object; copy, delete and push-blob decode nothing; only the blob check reads the status as a boolean |
| OllamaApi.Route | OllamaClient.cs:235-335 | DELETE is used only by delete, on `/api/delete` with the JSON request as body; HEAD only by the blob check; GET only by tags, ps and version; blob check and blob push target `/api/blobs/` followed by the digest; exactly the request-object operations send JSON |
| OllamaApi.BlobDigest | OllamaClient.cs:259 | the digest read back from a blob path rebuilds that path |
| OllamaApi.Resolve | OllamaClient.cs:292-300 | the inverse of the routing table reads a DELETE request as the delete operation and as nothing else |
| OllamaApi.RouteRoundTrip | OllamaClient.cs:235-335 | the inverse of the routing table recovers from every issued request the operation that issued it, arguments included |
| OllamaApi.RouteInjective | OllamaClient.cs:235-335 | two operations issue the same request exactly when they are the same operation |
| OllamaApi.Perform | OllamaClient.cs:235-335 | the blob check returns whether the status is in 200–299 and never fails; every other operation fails with the status on any non-2xx response, whatever the body, and a status failure happens only then; on a 2xx response copy, delete and push-blob complete, the single-object operations return exactly the decoding of the body or its error, and create, pull and push return exactly the streamed read or its error; a success has the shape of the operation's decoding |
| OllamaApi.CancelledOperationKeepsProgress | OllamaClient.cs:249-254 | a cancelled create, pull or push returns normally, with a prefix of the steps the uncancelled call returns |
| OllamaApi.StreamedOperationSteps | OllamaClient.cs:302-307 | a successful pull returns one step per non-empty line of the body, each the decoding of its line, in order |

## Left out

- HTTP transport (`HttpClient`, base address, sockets, TLS): a response is an input value, and a transport failure is not modelled.
- URI parsing and normalisation: a request path is the unparsed relative-URI string. Combining `"/api/blobs/" + digest` with the base address can make different digests reach the same resource (`a/../b` and `b`), drop a `#` fragment or start a `?` query. So `OllamaApi.RouteInjective` and `OllamaApi.RouteRoundTrip` hold of the path strings the client builds, not of the URIs on the wire.
- OllamaApi.Perform: `cancelAt` counts only body lines read after the response has arrived. A cancellation observed while the request is sent (`PostAsJsonAsync`, `SendAsync`, `GetAsync`, `PostAsync`) or while a single-object body is decoded (`DeserializeAsync`) is not modelled. In those places the code throws `OperationCanceledException`, whereas `Perform` returns the status or decoding outcome.
- OllamaApi.CancelledOperationKeepsProgress: "returns normally" holds only for a cancellation first observed at the loop head of the streamed read. A cancellation observed earlier, while the request is sent, throws in the code and is not modelled.
- Asynchrony and the `CancellationToken` mechanics beyond "cancelled after `cancelAt` lines". `ReadLineAsync` and `ReadAsStreamAsync` throwing on cancellation during a read are library behaviour and are not modelled.
- Splitting the body into lines (`StreamReader.ReadLine`, with its `\n`, `\r` and `\r\n` terminators): library code, a function field of `Codec`.
- JSON serialization and parsing (`System.Text.Json`): the snake_case naming policy, enum-as-string conversion and omission of null members. Decoders are function fields of `Codec`. A JSON request body is the symbolic value `Json(dto)`, not its text.
- `PushBlobAsync` streaming the upload (`StreamContent`): the upload is the byte sequence it sends.
- The synchronous wrappers: they only block on the asynchronous operations.
- Response DTOs other than `ModelOperationStatus`: single-object results are the abstract type parameter `D` of `Perform`. Their `float` embeddings and `DateTime` timestamps have nothing to verify.
- Floating-point JSON numbers: `JsonValue.JNumber` holds an integer.
- A `null` value in the members the model types as a plain `string`: the `Model` of each request, `Source` and `Destination` of a copy, and `Status` of `ModelOperationStatus`. Other nullable members are `Option`s. A `null` single-object response is left to the abstract result type `D`.
- The duplicate request and response classes of `OllamaClientRequests.cs` and `OllamaClientResponses.cs`: same shapes as the nested classes of `OllamaClient.cs`, no behaviour.
