/**
 * The project file codec of frontend/src/utils/fileHandler.ts. Saving writes
 * the JSON text of the project as Base64 over its UTF-8 bytes; loading
 * reverses that, parses the text and accepts the result only when its
 * top-level structure is that of a project document.
 *
 * JSON.stringify and JSON.parse are not modelled: the text a save starts from
 * and the parser a load uses are parameters.
 */
module FileHandler {
  import opened Wrappers
  import opened Json
  import Utf8
  import Base64

  /** The one error a failed save is rethrown as. */
  datatype SaveError = SaveFailed

  datatype LoadError =
    | ReadFailed            // FileReader's error event
    | NotBase64             // atob raised
    | NotUtf8               // decodeURIComponent raised
    | NotJson               // JSON.parse raised
    | PropertyOfNull        // the document is `null`: reading `version` raised
    | MalformedStructure    // the structural check failed

  /** The file content written for a JSON text. */
  function EncodeText(text: string): (r: string)
    ensures |r| % 4 == 0
    ensures r == [] <==> text == []
  {
    Base64.Encode(Utf8.Encode(text))
  }

  /** The JSON text recovered from a file's content. */
  function DecodeText(content: string): (r: Result<string, LoadError>)
    ensures r == Err(NotBase64) <==> Base64.Atob(content).None?
    ensures r.Err? ==> r.error == NotBase64 || r.error == NotUtf8
    ensures r.Ok? ==> Utf8.Decode(Base64.Atob(content).value) == Some(r.value)
  {
    match Base64.Atob(content)
    case None => Err(NotBase64)
    case Some(bytes) =>
      match Utf8.Decode(bytes)
      case None => Err(NotUtf8)
      case Some(text) => Ok(text)
  }

  /** Loading what was saved gives back the saved text. */
  lemma DecodeEncodeText(text: string)
    ensures DecodeText(EncodeText(text)) == Ok(text)
  {
    Base64.AtobEncode(Utf8.Encode(text));
    Utf8.DecodeEncode(text);
  }

  /** `saveProjectToLocalFile`: `serialized` is the outcome of JSON.stringify
      (`None` when it threw). On success the result is the content of the
      downloaded file (the source returns `true` and hands the content to the
      browser); every failure becomes the single generic error. */
  function SaveProjectToLocalFile(serialized: Option<string>): (r: Result<string, SaveError>)
    ensures r.Ok? <==> serialized.Some?
    ensures r.Ok? ==> DecodeText(r.value) == Ok(serialized.value)
    ensures r.Err? ==> r.error == SaveFailed
  {
    match serialized
    case None => Err(SaveFailed)
    case Some(text) =>
      DecodeEncodeText(text);
      Ok(EncodeText(text))
  }

  /** JavaScript's `typeof v === "object"`: true of null, arrays and objects. */
  predicate TypeofObject(v: Option<Json>) {
    v.Some? && (v.value.JNull? || v.value.JArray? || v.value.JObject?)
  }

  predicate IsStringValue(v: Option<Json>) {
    v.Some? && v.value.JString?
  }

  predicate IsArrayValue(v: Option<Json>) {
    v.Some? && v.value.JArray?
  }

  /** `o?.key`: nothing when `o` is absent or null. */
  function OptionalGet(o: Option<Json>, key: string): Option<Json> {
    if o.None? then None else Get(o.value, key)
  }

  /** The structural check of a loaded document. */
  predicate IsProjectDocument(doc: Json): (r: bool)
    ensures r ==> doc.JObject? && "version" in doc.fields && "projectId" in doc.fields
    ensures r ==> "scenario" in doc.fields && "diagram" in doc.fields && "chatHistory" in doc.fields
  {
    && IsStringValue(Get(doc, "version"))
    && IsStringValue(Get(doc, "projectId"))
    && TypeofObject(Get(doc, "scenario"))
    && IsArrayValue(OptionalGet(Get(doc, "diagram"), "nodes"))
    && IsArrayValue(OptionalGet(Get(doc, "diagram"), "edges"))
    && IsArrayValue(Get(doc, "chatHistory"))
  }

  /** The check applied to a parsed value: accepted exactly when the structure
      is right, and then returned as it was parsed. */
  function Validate(doc: Json): (r: Result<Json, LoadError>)
    ensures r.Ok? <==> IsProjectDocument(doc)
    ensures r.Ok? ==> r.value == doc
    ensures doc.JNull? ==> r == Err(PropertyOfNull)
  {
    if doc.JNull? then Err(PropertyOfNull)
    else if IsProjectDocument(doc) then Ok(doc)
    else Err(MalformedStructure)
  }

  /** `loadProjectFromLocalFile`: `read` is the text the FileReader produced
      (`None` on its error event), `parse` stands for JSON.parse (`None` when it
      throws). The promise resolves with the parsed document only when every
      step succeeds and the structure is right. */
  function LoadProjectFromLocalFile(read: Option<string>, parse: string -> Option<Json>)
    : (r: Result<Json, LoadError>)
    ensures r.Ok? <==>
              && read.Some?
              && DecodeText(read.value).Ok?
              && parse(DecodeText(read.value).value).Some?
              && IsProjectDocument(parse(DecodeText(read.value).value).value)
    ensures r.Ok? ==> r.value == parse(DecodeText(read.value).value).value
    ensures read.None? ==> r == Err(ReadFailed)
  {
    match read
    case None => Err(ReadFailed)
    case Some(content) =>
      match DecodeText(content)
      case Err(e) => Err(e)
      case Ok(text) =>
        match parse(text)
        case None => Err(NotJson)
        case Some(doc) => Validate(doc)
  }

  /** Saving a text whose parse is a project document, then loading the file,
      gives exactly that document. */
  lemma LoadAfterSave(text: string, parse: string -> Option<Json>, doc: Json)
    requires parse(text) == Some(doc) && IsProjectDocument(doc)
    ensures SaveProjectToLocalFile(Some(text)).Ok?
    ensures LoadProjectFromLocalFile(Some(SaveProjectToLocalFile(Some(text)).value), parse) == Ok(doc)
  {
    DecodeEncodeText(text);
  }

  /** A saved text whose parse is not a project document is refused on load. */
  lemma LoadAfterSaveRefusesMalformed(text: string, parse: string -> Option<Json>)
    requires parse(text).None? || !IsProjectDocument(parse(text).value)
    ensures LoadProjectFromLocalFile(Some(EncodeText(text)), parse).Err?
  {
    DecodeEncodeText(text);
  }
}
