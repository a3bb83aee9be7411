/**
 * The data contracts of the client: the request objects it serializes and
 * the progress record it decodes from streamed responses. They are passive
 * values; nullable members are `Option`s, a member the C# code types as
 * `object` is a `JsonValue` (except the embed input, an `EmbedInput`), and a
 * `Dictionary<string, object>` is a `map<string, JsonValue>`.
 */
module Dtos {
  import opened Wrappers

  /** C# `int`. */
  newtype int32 = x: int | -0x8000_0000 <= x < 0x8000_0000

  /** C# `long`. */
  newtype int64 = x: int | -0x8000_0000_0000_0000 <= x < 0x8000_0000_0000_0000

  /** A JSON document of arbitrary shape (numbers are kept integral). */
  datatype JsonValue =
    | JNull
    | JBool(b: bool)
    | JNumber(n: int)
    | JString(s: string)
    | JArray(items: seq<JsonValue>)
    | JObject(members: map<string, JsonValue>)

  /** One step of a long-running create, pull or push operation. */
  datatype ModelOperationStatus = ModelOperationStatus(
    status: string,
    digest: Option<string>,
    total: Option<int64>,
    completed: Option<int64>)

  datatype FunctionCall = FunctionCall(name: Option<string>, arguments: Option<map<string, JsonValue>>)

  datatype ToolCall = ToolCall(call: Option<FunctionCall>)

  datatype Message = Message(
    role: Option<string>,
    content: Option<string>,
    images: Option<seq<string>>,
    toolCalls: Option<seq<ToolCall>>)

  datatype FunctionDefinition = FunctionDefinition(
    name: Option<string>,
    description: Option<string>,
    parameters: Option<JsonValue>)

  datatype Tool = Tool(kind: Option<string>, definition: Option<FunctionDefinition>)

  datatype GenerateRequest = GenerateRequest(
    model: string,
    prompt: Option<string>,
    suffix: Option<string>,
    images: Option<seq<string>>,
    format: Option<JsonValue>,
    options: Option<map<string, JsonValue>>,
    system: Option<string>,
    template: Option<string>,
    stream: Option<bool>,
    raw: Option<bool>,
    keepAlive: Option<string>,
    context: Option<seq<int32>>)

  datatype ChatRequest = ChatRequest(
    model: string,
    messages: Option<seq<Message>>,
    tools: Option<seq<Tool>>,
    format: Option<JsonValue>,
    options: Option<map<string, JsonValue>>,
    stream: Option<bool>,
    keepAlive: Option<string>)

  datatype CreateModelRequest = CreateModelRequest(
    model: string,
    from: Option<string>,
    files: Option<map<string, string>>,
    adapters: Option<map<string, string>>,
    template: Option<string>,
    license: Option<JsonValue>,
    system: Option<string>,
    parameters: Option<map<string, JsonValue>>,
    messages: Option<seq<Message>>,
    stream: Option<bool>,
    quantize: Option<string>)

  datatype ModelInfoRequest = ModelInfoRequest(model: string, verbose: Option<bool>)

  datatype CopyModelRequest = CopyModelRequest(source: string, destination: string)

  datatype DeleteModelRequest = DeleteModelRequest(model: string)

  datatype PullModelRequest = PullModelRequest(model: string, insecure: Option<bool>, stream: Option<bool>)

  datatype PushModelRequest = PushModelRequest(model: string, insecure: Option<bool>, stream: Option<bool>)

  /**
   * The embed input: one string or a list of strings, the two shapes the
   * server documents. The member is typed `object`, so any other serializable
   * value can be sent as well.
   */
  datatype EmbedInput = OneInput(text: string) | ManyInputs(texts: seq<string>) | OtherInput(value: JsonValue)

  datatype EmbedRequest = EmbedRequest(
    model: string,
    input: Option<EmbedInput>,
    truncate: Option<bool>,
    options: Option<map<string, JsonValue>>,
    keepAlive: Option<string>)
}
