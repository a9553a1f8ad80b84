/**
 * What the server does with a chat-completion reply once it has it: clean the
 * text, hand it to the JSON decoder, and (for node expansion) read the
 * `subtopics` key. The completion call and the decoder are collaborators: the
 * reply is an input and the decoder a function parameter.
 */
module AiReply {
  import opened Wrappers
  import opened Http
  import FenceCleaner

  /** A value built by Python's JSON decoder. */
  datatype Json =
    | Null
    | Bool(b: bool)
    | Int(i: int)
    | Float(literal: string)
    | Str(s: string)
    | Array(items: seq<Json>)
    | Object(fields: map<string, Json>)

  /** The outcome of the chat-completion call. */
  datatype Completion =
    | Content(text: string)             // the message content
    | NoContent                         // the message content is None
    | ProviderFailure(message: string)  // the call raised; `message` is the exception text

  /** `json.loads`: the decoded value, or the decoder's error message. */
  type Decoder = string -> Result<Json, string>

  const SubtopicsKey: string := "subtopics"
  const ParseFailedDetail: string := "Failed to parse AI response"
  const GenerateFailedPrefix: string := "Failed to generate learning map: "
  const ExpandFailedPrefix: string := "Failed to expand node: "
  /** The text of the AttributeError raised by `None.strip()`. */
  const NoneHasNoStrip: string := "'NoneType' object has no attribute 'strip'"

  /** The name Python gives the type of a decoded value. */
  function TypeName(j: Json): string {
    match j
    case Null => "NoneType"
    case Bool(_) => "bool"
    case Int(_) => "int"
    case Float(_) => "float"
    case Str(_) => "str"
    case Array(_) => "list"
    case Object(_) => "dict"
  }

  /** The text the decoder is given: the cleaned reply content. */
  function DecoderInput(reply: Completion): string
    requires reply.Content?
  {
    FenceCleaner.CleanReply(reply.text)
  }

  /**
   * `generate_learning_map_with_ai` after the completion call: the decoded map
   * data, or a 500 error. A decoding failure has its own fixed detail; every
   * other failure reports the exception text.
   */
  function GenerateMapData(reply: Completion, decode: Decoder): (r: Result<Json, HttpError>)
    ensures r.Ok? <==> reply.Content? && decode(DecoderInput(reply)).Ok?
    ensures r.Ok? ==> r.value == decode(DecoderInput(reply)).value
    ensures r.Err? ==> r.error.status == InternalError
    ensures reply.Content? && decode(DecoderInput(reply)).Err? ==> r.error.detail == ParseFailedDetail
    ensures !reply.Content? ==> FenceCleaner.StartsWith(r.error.detail, GenerateFailedPrefix)
  {
    match reply
    case ProviderFailure(message) => Err(HttpError(InternalError, GenerateFailedPrefix + message))
    case NoContent => Err(HttpError(InternalError, GenerateFailedPrefix + NoneHasNoStrip))
    case Content(text) =>
      match decode(FenceCleaner.CleanReply(text))
      case Ok(data) => Ok(data)
      case Err(_) => Err(HttpError(InternalError, ParseFailedDetail))
  }

  /**
   * `data.get('subtopics', [])`: the value under the key when the decoded data
   * is an object holding it, the empty list when the object lacks it; any
   * other decoded value has no `get` and raises an AttributeError.
   */
  function Subtopics(data: Json): (r: Result<Json, string>)
    ensures data.Object? && SubtopicsKey in data.fields ==> r == Ok(data.fields[SubtopicsKey])
    ensures data.Object? && SubtopicsKey !in data.fields ==> r == Ok(Array([]))
    ensures !data.Object? ==> r.Err?
  {
    match data
    case Object(fields) =>
      Ok(if SubtopicsKey in fields then fields[SubtopicsKey] else Array([]))
    case _ => Err("'" + TypeName(data) + "' object has no attribute 'get'")
  }

  /**
   * `expand_node_with_ai` after the completion call: the subtopics of the
   * decoded reply, or a 500 error whose detail carries the exception text.
   */
  function ExpandSubtopics(reply: Completion, decode: Decoder): (r: Result<Json, HttpError>)
    ensures r.Ok? <==>
      reply.Content? && decode(DecoderInput(reply)).Ok? && decode(DecoderInput(reply)).value.Object?
    ensures r.Ok? ==> Subtopics(decode(DecoderInput(reply)).value) == Ok(r.value)
    ensures r.Err? ==>
      r.error.status == InternalError && FenceCleaner.StartsWith(r.error.detail, ExpandFailedPrefix)
  {
    match reply
    case ProviderFailure(message) => ExpandFailure(message)
    case NoContent => ExpandFailure(NoneHasNoStrip)
    case Content(text) => ExpandDecoded(decode(FenceCleaner.CleanReply(text)))
  }

  /** What `expand_node_with_ai` raises: a 500 carrying the exception text. */
  function ExpandFailure(why: string): (r: Result<Json, HttpError>)
    ensures r.Err? && r.error.status == InternalError
    ensures FenceCleaner.StartsWith(r.error.detail, ExpandFailedPrefix)
  {
    Err(HttpError(InternalError, ExpandFailedPrefix + why))
  }

  /** The subtopics of a decoded reply, or the failure the decoding or the lookup raised. */
  function ExpandDecoded(decoded: Result<Json, string>): (r: Result<Json, HttpError>)
    ensures r.Ok? <==> decoded.Ok? && decoded.value.Object?
    ensures r.Ok? ==> Subtopics(decoded.value) == Ok(r.value)
    ensures r.Err? ==> r.error.status == InternalError && FenceCleaner.StartsWith(r.error.detail, ExpandFailedPrefix)
  {
    match decoded
    case Err(message) => ExpandFailure(message)
    case Ok(data) =>
      match Subtopics(data)
      case Ok(subtopics) => Ok(subtopics)
      case Err(message) => ExpandFailure(message)
  }
}
