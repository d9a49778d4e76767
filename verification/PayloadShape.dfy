/**
 * Which requests are accepted, and how each of their strings is classified (src/payload.rs): the
 * read-only checks, and a description of the classification by position that does not follow the
 * order in which the collectors run.
 */
module PayloadShape {
  import opened Domain
  import opened JsonTree

  datatype RewriteMode = Rewrite | BlockOnly

  /** Why a request is refused. The errors of reading and replacing targets are `TargetError`. */
  datatype PayloadError =
    | InvalidJson
    | RootMustBeObject
    | MissingField(field: string)
    | InvalidFieldType(field: string)
    | InvalidFieldValue(field: string)
    | StreamingRequired
    | UnsupportedTopLevelField(key: string)
    | UnsupportedControlField(key: string)
    | InputItemMustBeObject
    | MissingItemType
    | UnsupportedInputItem
    | UnsupportedItemField(key: string)
    | ContentPartMustBeObject
    | UnsupportedContentPart
    | UnsupportedContentPartField(key: string)
    | UnsupportedMedia

  datatype TargetError = TargetMissing | TargetChangedType | TargetIsStructuralLiteral | SerializeFailed

  type Check = Option<PayloadError>

  /** The first failure of two checks made one after the other. */
  function Then(first: Check, second: Check): Check {
    if first.Some? then first else second
  }

  // ----- field checks

  predicate IsString(j: Option<Json>) { j.Some? && j.value.Str? }

  function TextOf(j: Option<Json>): Option<string> {
    if IsString(j) then Some(j.value.text) else None
  }

  function RequireString(fields: seq<Field>, field: string): Check {
    if IsString(Get(fields, field)) then None
    else if Get(fields, field).Some? then Some(InvalidFieldType(field))
    else Some(MissingField(field))
  }

  function RequireBool(fields: seq<Field>, field: string): Check {
    match Get(fields, field)
    case Some(Bool(_)) => None
    case Some(_) => Some(InvalidFieldType(field))
    case None => Some(MissingField(field))
  }

  function RequireOptionalString(fields: seq<Field>, field: string): Check {
    match Get(fields, field)
    case None => None
    case Some(Null) => None
    case Some(Str(_)) => None
    case Some(_) => Some(InvalidFieldType(field))
  }

  function RequireOptionalStrings(fields: seq<Field>, names: seq<string>): Check {
    if names == [] then None
    else Then(RequireOptionalString(fields, names[0]), RequireOptionalStrings(fields, names[1..]))
  }

  function EnsureAllowedKeys(fields: seq<Field>, allowed: set<string>, error: string -> PayloadError): Check {
    if fields == [] then None
    else if fields[0].key !in allowed then Some(error(fields[0].key))
    else EnsureAllowedKeys(fields[1..], allowed, error)
  }

  lemma {:induction false} AllowedKeysExact(fields: seq<Field>, allowed: set<string>, error: string -> PayloadError)
    ensures EnsureAllowedKeys(fields, allowed, error).None? <==>
            forall i :: 0 <= i < |fields| ==> fields[i].key in allowed
  {
    if fields != [] {
      AllowedKeysExact(fields[1..], allowed, error);
      assert forall i :: 1 <= i < |fields| ==> fields[i] == fields[1..][i - 1];
    }
  }

  const METADATA := "internal_chat_message_metadata_passthrough"

  function ValidateOptionalMetadata(fields: seq<Field>): Check {
    match Get(fields, METADATA)
    case None => None
    case Some(Null) => None
    case Some(Obj(metadata)) =>
      Then(EnsureAllowedKeys(metadata, {"turn_id"}, k => UnsupportedItemField(k)),
           RequireOptionalString(metadata, "turn_id"))
    case Some(_) => Some(InvalidFieldType(METADATA))
  }

  function ValidateCommonItemFields(fields: seq<Field>): Check {
    Then(RequireOptionalStrings(fields, ["id", "type", "role", "phase", "author", "recipient", "call_id", "name",
                                         "namespace", "status"]),
         ValidateOptionalMetadata(fields))
  }

  function ValidateTextControls(fields: seq<Field>): Check {
    Then(EnsureAllowedKeys(fields, {"verbosity", "format"}, k => UnsupportedControlField(k)),
    Then(RequireOptionalString(fields, "verbosity"),
         match Get(fields, "format")
         case None => None
         case Some(Null) => None
         case Some(Obj(format)) => Then(RequireString(format, "type"), ValidateFormat(format))
         case Some(_) => Some(InvalidFieldType("text.format"))))
  }

  function ValidateFormat(format: seq<Field>): Check {
    var kind := TextOf(Get(format, "type"));
    if kind == Some("text") then EnsureAllowedKeys(format, {"type"}, k => UnsupportedControlField(k))
    else if kind == Some("json_schema") then
      Then(EnsureAllowedKeys(format, {"type", "strict", "schema", "name"}, k => UnsupportedControlField(k)),
      Then(RequireBool(format, "strict"),
      Then(RequireString(format, "name"),
           if Get(format, "schema").Some? then None else Some(MissingField("schema")))))
    else Some(InvalidFieldValue("text.format.type"))
  }

  function ValidateInclude(entries: seq<Json>): Check {
    if exists i :: 0 <= i < |entries| && !entries[i].Str? then Some(InvalidFieldType("include entry"))
    else if |entries| > 4 || exists i :: 0 <= i < |entries| && entries[i] != Str("reasoning.encrypted_content")
    then Some(InvalidFieldValue("include"))
    else None
  }

  function ValidateTopLevelControls(root: seq<Field>): Check {
    Then(if TextOf(Get(root, "tool_choice")) == Some("auto") then None else Some(InvalidFieldValue("tool_choice")),
    Then(match Get(root, "reasoning")
         case None => None
         case Some(Null) => None
         case Some(Obj(r)) =>
           Then(EnsureAllowedKeys(r, {"effort", "summary", "context"}, k => UnsupportedControlField(k)),
                RequireOptionalStrings(r, ["effort", "summary", "context"]))
         case Some(_) => Some(InvalidFieldType("reasoning")),
    Then(match Get(root, "stream_options")
         case None => None
         case Some(Obj(o)) =>
           Then(EnsureAllowedKeys(o, {"reasoning_summary_delivery"}, k => UnsupportedControlField(k)),
                RequireString(o, "reasoning_summary_delivery"))
         case Some(_) => Some(InvalidFieldType("stream_options")),
    Then(match Get(root, "include")
         case None => None
         case Some(Arr(entries)) => ValidateInclude(entries)
         case Some(_) => Some(InvalidFieldType("include")),
    Then(RequireOptionalString(root, "service_tier"),
    Then(RequireOptionalString(root, "prompt_cache_key"),
         match Get(root, "text")
         case None => None
         case Some(Null) => None
         case Some(Obj(t)) => ValidateTextControls(t)
         case Some(_) => Some(InvalidFieldType("text"))))))))
  }

  const TOP_LEVEL_FIELDS: set<string> :=
    {"model", "instructions", "input", "tools", "tool_choice", "parallel_tool_calls", "reasoning", "store", "stream",
     "stream_options", "include", "service_tier", "prompt_cache_key", "text", "client_metadata"}

  /** Everything `parse` checks before it collects the first target. */
  function CheckControls(root: seq<Field>): Check {
    Then(EnsureAllowedKeys(root, TOP_LEVEL_FIELDS, k => UnsupportedTopLevelField(k)),
    Then(RequireString(root, "model"),
    Then(RequireBool(root, "store"),
    Then(if Get(root, "store") == Some(Bool(false)) then None else Some(InvalidFieldValue("store")),
    Then(RequireString(root, "tool_choice"),
    Then(RequireBool(root, "parallel_tool_calls"),
    Then(if Get(root, "stream") == Some(Bool(true)) then None else Some(StreamingRequired),
         ValidateTopLevelControls(root))))))))
  }

  // ----- content parts

  /** A part carries text when its type is one of `kinds`. */
  predicate IsTextPart(part: Json, kinds: set<string>) {
    part.Obj? && TextOf(Get(part.fields, "type")).Some? && TextOf(Get(part.fields, "type")).value in kinds
  }

  predicate IsEncryptedPart(part: Json) {
    part.Obj? && TextOf(Get(part.fields, "type")) == Some("encrypted_content")
  }

  function EnsureTextPart(fields: seq<Field>): Check {
    Then(EnsureAllowedKeys(fields, {"type", "text"}, k => UnsupportedContentPartField(k)),
         RequireString(fields, "text"))
  }

  function EnsureEncryptedPart(fields: seq<Field>): Check {
    Then(EnsureAllowedKeys(fields, {"type", "encrypted_content"}, k => UnsupportedContentPartField(k)),
         RequireString(fields, "encrypted_content"))
  }

  /** What one kind of content array accepts. */
  datatype PartRule = PartRule(kinds: set<string>, encrypted: bool, media: set<string>)

  function CheckPart(part: Json, rule: PartRule): Check {
    if !part.Obj? then Some(ContentPartMustBeObject)
    else if IsTextPart(part, rule.kinds) then EnsureTextPart(part.fields)
    else if rule.encrypted && IsEncryptedPart(part) then EnsureEncryptedPart(part.fields)
    else if IsTextPart(part, rule.media) then Some(UnsupportedMedia)
    else Some(UnsupportedContentPart)
  }

  predicate PartsOk(parts: seq<Json>, rule: PartRule) {
    forall i :: 0 <= i < |parts| ==> CheckPart(parts[i], rule).None?
  }

  const MESSAGE_PARTS := PartRule({"input_text", "output_text"}, false, {"input_image", "input_file"})
  const AGENT_PARTS := PartRule({"input_text"}, true, {})
  const OUTPUT_PARTS := PartRule({"input_text"}, true, {"input_image"})
  const REASONING_PARTS := PartRule({"summary_text", "reasoning_text"}, false, {})

  /** A field that holds model text: a string, an array of parts, or nothing. */
  datatype Body = Body(field: string, fieldClass: FieldClass, asString: bool, asParts: Option<PartRule>, optional: bool)

  predicate BodyOk(fields: seq<Field>, b: Body) {
    match Get(fields, b.field)
    case None => b.optional
    case Some(Null) => b.optional
    case Some(Str(_)) => b.asString
    case Some(Arr(parts)) => b.asParts.Some? && PartsOk(parts, b.asParts.value)
    case Some(_) => false
  }

  // ----- input items

  predicate IsStructuralKind(kind: string) {
    kind in {"local_shell_call", "tool_search_call", "tool_search_output", "web_search_call"}
  }

  predicate IsCompactionKind(kind: string) {
    kind in {"compaction", "compaction_summary", "context_compaction", "compaction_trigger"}
  }

  /** The text-bearing fields of an item, in the order they are collected. */
  function Bodies(kind: string): seq<Body> {
    if kind == "message" then [Body("content", MessageText, true, Some(MESSAGE_PARTS), false)]
    else if kind == "agent_message" then [Body("content", AgentMessageText, false, Some(AGENT_PARTS), false)]
    else if kind == "function_call_output" then [Body("output", FunctionOutput, true, Some(OUTPUT_PARTS), false)]
    else if kind == "custom_tool_call_output" then [Body("output", CustomToolOutput, true, Some(OUTPUT_PARTS), false)]
    else if kind == "function_call" then [Body("arguments", FunctionArguments, true, None, false)]
    else if kind == "custom_tool_call" then [Body("input", CustomToolInput, true, None, false)]
    else if kind == "reasoning" then
      [Body("summary", ReasoningSummary, false, Some(REASONING_PARTS), true),
       Body("content", ReasoningSummary, false, Some(REASONING_PARTS), true)]
    else []
  }

  /** The checks on an item's own fields, before its text is looked at. */
  function CheckItemFields(kind: string, o: seq<Field>): Check {
    var item := (k: string) => UnsupportedItemField(k);
    if kind == "message" then
      Then(EnsureAllowedKeys(o, {"id", "type", "role", "content", "phase", METADATA}, item),
      Then(ValidateCommonItemFields(o), RequireString(o, "role")))
    else if kind == "agent_message" then
      Then(EnsureAllowedKeys(o, {"id", "type", "author", "recipient", "content", METADATA}, item),
      Then(ValidateCommonItemFields(o), Then(RequireString(o, "author"), RequireString(o, "recipient"))))
    else if kind == "function_call_output" then
      Then(EnsureAllowedKeys(o, {"id", "type", "call_id", "output", METADATA}, item),
      Then(ValidateCommonItemFields(o), RequireString(o, "call_id")))
    else if kind == "custom_tool_call_output" then
      Then(EnsureAllowedKeys(o, {"id", "type", "call_id", "name", "output", METADATA}, item),
      Then(ValidateCommonItemFields(o), RequireString(o, "call_id")))
    else if kind == "function_call" then
      Then(EnsureAllowedKeys(o, {"id", "type", "name", "namespace", "arguments", "call_id", METADATA}, item),
      Then(ValidateCommonItemFields(o), Then(RequireString(o, "call_id"), RequireString(o, "name"))))
    else if kind == "custom_tool_call" then
      Then(EnsureAllowedKeys(o, {"id", "type", "status", "call_id", "name", "namespace", "input", METADATA}, item),
      Then(ValidateCommonItemFields(o), Then(RequireString(o, "call_id"), RequireString(o, "name"))))
    else if kind == "additional_tools" then
      Then(EnsureAllowedKeys(o, {"id", "type", "role", "tools"}, item),
      Then(ValidateCommonItemFields(o), RequireString(o, "role")))
    else if kind == "reasoning" then
      Then(EnsureAllowedKeys(o, {"id", "type", "summary", "content", "encrypted_content", METADATA}, item),
      Then(ValidateCommonItemFields(o),
           Then(RequireOptionalString(o, "encrypted_content"), ValidateOptionalMetadata(o))))
    else if IsStructuralKind(kind) then ValidateCommonItemFields(o)
    else if IsCompactionKind(kind) then CheckCompaction(kind, o)
    else if kind == "image_generation_call" then Some(UnsupportedMedia)
    else Some(UnsupportedInputItem)
  }

  function CheckCompaction(kind: string, o: seq<Field>): Check {
    Then(EnsureAllowedKeys(o, {"id", "type", "encrypted_content", METADATA}, k => UnsupportedItemField(k)),
    Then(ValidateCommonItemFields(o),
    Then(if kind == "compaction_trigger" then
           (if Get(o, "encrypted_content").Some? then Some(InvalidFieldType("encrypted_content")) else None)
         else if kind == "context_compaction" then RequireOptionalString(o, "encrypted_content")
         else RequireString(o, "encrypted_content"),
         ValidateOptionalMetadata(o))))
  }

  /** An input item is accepted when its fields, its text and its tools are. */
  predicate ItemOk(item: Json) {
    && item.Obj? && IsString(Get(item.fields, "type"))
    && var kind := TextOf(Get(item.fields, "type")).value;
       && CheckItemFields(kind, item.fields).None?
       && (forall k :: 0 <= k < |Bodies(kind)| ==> BodyOk(item.fields, Bodies(kind)[k]))
       && (kind == "additional_tools" ==> Get(item.fields, "tools").Some? && Get(item.fields, "tools").value.Arr?)
  }

  /** What a request has to meet, one point for each stage of `parse`. */
  datatype Requirement = KeysUnique | ControlsPass | InstructionsShape | InputShape | ToolsShape | MetadataShape

  predicate Meets(root: seq<Field>, r: Requirement) {
    match r
    case KeysUnique => UniqueKeys(Obj(root))
    case ControlsPass => CheckControls(root).None?
    case InstructionsShape => (match Get(root, "instructions") case None => true case Some(v) => v.Str?)
    case InputShape =>
      (match Get(root, "input")
       case Some(Str(_)) => true
       case Some(Arr(items)) => forall i :: 0 <= i < |items| ==> ItemOk(items[i])
       case _ => false)
    case ToolsShape => (match Get(root, "tools") case None => true case Some(v) => v.Arr?)
    case MetadataShape =>
      (match Get(root, "client_metadata")
       case None => true
       case Some(Obj(m)) => forall i :: 0 <= i < |m| ==> m[i].value.Str?
       case Some(_) => false)
  }

  /** A request is accepted when it is an object that meets every requirement. */
  predicate Accepted(root: Json) {
    root.Obj? && forall r: Requirement {:trigger Meets(root.fields, r)} :: Meets(root.fields, r)
  }

  /** Acceptance, stage by stage. */
  lemma AcceptedMeans(root: Json)
    ensures Accepted(root) <==>
            && root.Obj? && UniqueKeys(root) && CheckControls(root.fields).None?
            && Meets(root.fields, InstructionsShape) && Meets(root.fields, InputShape)
            && Meets(root.fields, ToolsShape) && Meets(root.fields, MetadataShape)
  {
    hide CheckControls, ItemOk, UniqueKeys;
    if root.Obj? {
      assert root == Obj(root.fields);
      assert Meets(root.fields, KeysUnique) <==> UniqueKeys(root);
      assert Meets(root.fields, ControlsPass) <==> CheckControls(root.fields).None?;
    }
  }

  // ----- classification by position

  datatype Class = Class(fieldClass: FieldClass, mode: RewriteMode)

  const STRUCTURAL := Class(StructuralMetadata, BlockOnly)

  /** The whole field, or the text of one of its parts. */
  predicate BodySlot(field: string, s: Path) {
    || s == [Key(field)]
    || (|s| == 3 && s[0] == Key(field) && s[1].Index? && s[2] == Key("text"))
  }

  predicate IsSkippedToolKey(key: Option<string>) {
    key.Some? && key.value in {"name", "type", "namespace", "id", "$id", "$ref"}
  }

  predicate IsSkippedItemKey(key: string) {
    key in {"id", "type", "call_id", "status", METADATA}
  }

  function ToolClass(key: Option<string>): Class {
    if IsSkippedToolKey(key) then STRUCTURAL
    else if key == Some("description") then Class(ToolDescription, BlockOnly)
    else Class(ToolSchemaText, BlockOnly)
  }

  function BodyClass(bodies: seq<Body>, s: Path): Class {
    if bodies == [] then STRUCTURAL
    else if BodySlot(bodies[0].field, s) then Class(bodies[0].fieldClass, Rewrite)
    else BodyClass(bodies[1..], s)
  }

  /** The class of the string at `s` inside an item of the given kind. */
  function ItemClass(kind: string, s: Path): Class {
    if kind == "additional_tools" then
      (if s != [] && s[0] == Key("tools") then ToolClass(NearestKey(s[1..], None)) else STRUCTURAL)
    else if IsStructuralKind(kind) then
      (if s != [] && s[0].Key? && !IsSkippedItemKey(s[0].key) then Class(FunctionArguments, BlockOnly) else STRUCTURAL)
    else BodyClass(Bodies(kind), s)
  }

  /** The class of the string at path `p` of a request. */
  function Classify(root: Json, p: Path): Class {
    if p == [Key("instructions")] then Class(Instructions, Rewrite)
    else if p == [Key("input")] then Class(MessageText, Rewrite)
    else if |p| >= 2 && p[0] == Key("input") && p[1].Index? then
      (match Locate(root, p[..2])
       case Some(Obj(fields)) =>
         if IsString(Get(fields, "type")) then ItemClass(TextOf(Get(fields, "type")).value, p[2..]) else STRUCTURAL
       case _ => STRUCTURAL)
    else if p != [] && p[0] == Key("tools") then ToolClass(NearestKey(p[1..], None))
    else if |p| == 2 && p[0] == Key("client_metadata") && p[1].Key? then Class(ClientMetadata, BlockOnly)
    else STRUCTURAL
  }
}
