/**
 * Shared vocabulary: decoded JSON values, chat-log messages, what the remote
 * service hands back, and the collaborators the core calls but does not
 * implement (the JSON decoder, the HTTP send, file reads, the prompt template).
 */
module Types {
  import opened Wrappers

  /**
   * A value produced by Python's `json.loads`. Numbers keep only an integer
   * (their truth value is all the core inspects); an object is a dict keyed by
   * strings.
   */
  datatype Json =
    | JNull
    | JBool(b: bool)
    | JNum(n: int)
    | JStr(s: string)
    | JArr(items: seq<Json>)
    | JObj(fields: map<string, Json>)

  /** Python truthiness of a decoded value (`if parsed_json:`). */
  predicate Truthy(v: Json) {
    match v
    case JNull => false
    case JBool(b) => b
    case JNum(n) => n != 0
    case JStr(s) => s != []
    case JArr(items) => items != []
    case JObj(fields) => fields != map[]
  }

  /** A chat message as read from a log: role and content, "" when a key is missing. */
  datatype Msg = Msg(role: string, content: string)

  /** One element of a log file's top-level list: a dict, or anything else. */
  datatype Entry = NonDict | Dict(msg: Msg)

  /** What `json.load` gives for a log file: a list of entries, or some other value. */
  datatype FileData = NotList | Entries(items: seq<Entry>)

  /**
   * What one HTTP attempt yields: an exception on the way (transport error,
   * bad status, unreadable body, malformed `choices`), a body without
   * `choices`, or the text of the first choice.
   */
  datatype Reply = Raised | NoChoices | Content(text: string)

  /** The collaborators the core calls but does not implement. */
  datatype Oracles = Oracles(
    /** `json.loads`: None when it raises `JSONDecodeError`. */
    decode: string -> Option<Json>,
    /** The two MULTILINE `re.sub` calls that remove markdown fences. */
    stripFences: string -> string,
    /** The tier-2 quote replacement (the chained `str.replace` calls). */
    requote: string -> string,
    /** `requests.post` and its unpacking, for a prompt and an attempt number. */
    send: (string, nat) -> Reply,
    /** `open` + `json.load` of a log file: None when reading or decoding raises. */
    readFile: string -> Option<FileData>,
    /** `ANALYSIS_PROMPT.format(system_content=..., conversation=...)`. */
    promptTemplate: (string, string) -> string,
    /** `str(v)` in an f-string, for a decoded value that is not a string. */
    show: Json -> string)

  /** `str(v)` in an f-string: a string as itself, anything else through `show`. */
  function ShowValue(env: Oracles, v: Json): string
  {
    if v.JStr? then v.s else env.show(v)
  }
}
