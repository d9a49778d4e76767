/** What an accepted request looks like, field by field (src/payload.rs), against the checks in the order of `parse`. */
module AcceptedShape {
  import opened Domain
  import opened JsonTree
  import opened PayloadShape

  // ----- fields

  predicate OnlyKeys(fields: seq<Field>, keys: set<string>) {
    forall i :: 0 <= i < |fields| ==> fields[i].key in keys
  }

  predicate Text(fields: seq<Field>, key: string) { Get(fields, key).Some? && Get(fields, key).value.Str? }

  predicate Flag(fields: seq<Field>, key: string) { Get(fields, key).Some? && Get(fields, key).value.Bool? }

  predicate Nothing(fields: seq<Field>, key: string) { Get(fields, key).None? || Get(fields, key) == Some(Null) }

  predicate TextOrNothing(fields: seq<Field>, key: string) { Nothing(fields, key) || Text(fields, key) }

  predicate Holds(fields: seq<Field>, key: string, value: Json) { Get(fields, key) == Some(value) }

  // ----- the controls of a request

  predicate ReasoningShape(root: seq<Field>) {
    || Nothing(root, "reasoning")
    || (&& Get(root, "reasoning").value.Obj?
        && var r := Get(root, "reasoning").value.fields;
           && OnlyKeys(r, {"effort", "summary", "context"})
           && TextOrNothing(r, "effort") && TextOrNothing(r, "summary") && TextOrNothing(r, "context"))
  }

  predicate StreamOptionsShape(root: seq<Field>) {
    || Get(root, "stream_options").None?
    || (&& Get(root, "stream_options").value.Obj?
        && var o := Get(root, "stream_options").value.fields;
           OnlyKeys(o, {"reasoning_summary_delivery"}) && Text(o, "reasoning_summary_delivery"))
  }

  predicate IncludeShape(root: seq<Field>) {
    || Get(root, "include").None?
    || (&& Get(root, "include").value.Arr? && |Get(root, "include").value.items| <= 4
        && forall entry :: entry in Get(root, "include").value.items ==> entry == Str("reasoning.encrypted_content"))
  }

  predicate FormatShape(f: seq<Field>) {
    || (Holds(f, "type", Str("text")) && OnlyKeys(f, {"type"}))
    || (&& Holds(f, "type", Str("json_schema")) && OnlyKeys(f, {"type", "strict", "schema", "name"})
        && Flag(f, "strict") && Text(f, "name") && Get(f, "schema").Some?)
  }

  predicate TextShape(root: seq<Field>) {
    || Nothing(root, "text")
    || (&& Get(root, "text").value.Obj?
        && var t := Get(root, "text").value.fields;
           && OnlyKeys(t, {"verbosity", "format"}) && TextOrNothing(t, "verbosity")
           && (Nothing(t, "format") || (Get(t, "format").value.Obj? && FormatShape(Get(t, "format").value.fields))))
  }

  /** The fields that steer the request: it is streamed, not stored, and asks for nothing that was not foreseen. */
  predicate ControlsShape(root: seq<Field>) {
    && OnlyKeys(root, {"model", "instructions", "input", "tools", "tool_choice", "parallel_tool_calls", "reasoning",
                       "store", "stream", "stream_options", "include", "service_tier", "prompt_cache_key", "text",
                       "client_metadata"})
    && Text(root, "model") && Flag(root, "parallel_tool_calls")
    && Holds(root, "store", Bool(false)) && Holds(root, "stream", Bool(true)) && Holds(root, "tool_choice", Str("auto"))
    && TextOrNothing(root, "service_tier") && TextOrNothing(root, "prompt_cache_key")
    && ReasoningShape(root) && StreamOptionsShape(root) && IncludeShape(root) && TextShape(root)
  }

  lemma OptionalString(fields: seq<Field>, name: string)
    ensures RequireOptionalString(fields, name).None? <==> TextOrNothing(fields, name)
  {
  }

  lemma {:induction false} OptionalStrings(fields: seq<Field>, names: seq<string>)
    ensures RequireOptionalStrings(fields, names).None? <==>
            forall k :: 0 <= k < |names| ==> TextOrNothing(fields, names[k])
  {
    hide RequireOptionalString, TextOrNothing;
    if names != [] {
      OptionalString(fields, names[0]);
      OptionalStrings(fields, names[1..]);
      assert forall k :: 1 <= k < |names| ==> names[k] == names[1..][k - 1];
    }
  }

  lemma KeysChecked(fields: seq<Field>, allowed: set<string>, error: string -> PayloadError)
    ensures EnsureAllowedKeys(fields, allowed, error).None? <==> OnlyKeys(fields, allowed)
  {
    AllowedKeysExact(fields, allowed, error);
  }

  lemma ReasoningExact(r: seq<Field>)
    ensures Then(EnsureAllowedKeys(r, {"effort", "summary", "context"}, k => UnsupportedControlField(k)),
                 RequireOptionalStrings(r, ["effort", "summary", "context"])).None?
       <==> OnlyKeys(r, {"effort", "summary", "context"})
            && TextOrNothing(r, "effort") && TextOrNothing(r, "summary") && TextOrNothing(r, "context")
  {
    hide EnsureAllowedKeys, RequireOptionalStrings, OnlyKeys, TextOrNothing;
    KeysChecked(r, {"effort", "summary", "context"}, k => UnsupportedControlField(k));
    var names := ["effort", "summary", "context"];
    OptionalStrings(r, names);
    assert names[0] == "effort" && names[1] == "summary" && names[2] == "context";
  }

  lemma IncludeExact(entries: seq<Json>)
    ensures ValidateInclude(entries).None?
       <==> |entries| <= 4 && forall entry :: entry in entries ==> entry == Str("reasoning.encrypted_content")
  {
    assert forall i :: 0 <= i < |entries| ==> entries[i] in entries;
  }

  lemma FormatExact(f: seq<Field>)
    ensures Then(RequireString(f, "type"), ValidateFormat(f)).None? <==> FormatShape(f)
  {
    hide EnsureAllowedKeys, OnlyKeys;
    KeysChecked(f, {"type"}, k => UnsupportedControlField(k));
    KeysChecked(f, {"type", "strict", "schema", "name"}, k => UnsupportedControlField(k));
  }

  lemma TextExact(t: seq<Field>)
    ensures ValidateTextControls(t).None?
       <==> && OnlyKeys(t, {"verbosity", "format"}) && TextOrNothing(t, "verbosity")
            && (Nothing(t, "format") || (Get(t, "format").value.Obj? && FormatShape(Get(t, "format").value.fields)))
  {
    hide EnsureAllowedKeys, OnlyKeys, ValidateFormat, FormatShape;
    KeysChecked(t, {"verbosity", "format"}, k => UnsupportedControlField(k));
    if Get(t, "format").Some? && Get(t, "format").value.Obj? {
      FormatExact(Get(t, "format").value.fields);
    }
  }

  lemma StreamOptionsExact(o: seq<Field>)
    ensures Then(EnsureAllowedKeys(o, {"reasoning_summary_delivery"}, k => UnsupportedControlField(k)),
                 RequireString(o, "reasoning_summary_delivery")).None?
       <==> OnlyKeys(o, {"reasoning_summary_delivery"}) && Text(o, "reasoning_summary_delivery")
  {
    hide EnsureAllowedKeys, OnlyKeys;
    KeysChecked(o, {"reasoning_summary_delivery"}, k => UnsupportedControlField(k));
  }

  lemma TopLevelExact(root: seq<Field>)
    ensures ValidateTopLevelControls(root).None?
       <==> && Holds(root, "tool_choice", Str("auto"))
            && TextOrNothing(root, "service_tier") && TextOrNothing(root, "prompt_cache_key")
            && ReasoningShape(root) && StreamOptionsShape(root) && IncludeShape(root) && TextShape(root)
  {
    hide EnsureAllowedKeys, RequireOptionalStrings, OnlyKeys, ValidateInclude, ValidateTextControls, FormatShape;
    if Get(root, "reasoning").Some? && Get(root, "reasoning").value.Obj? {
      ReasoningExact(Get(root, "reasoning").value.fields);
    }
    if Get(root, "stream_options").Some? && Get(root, "stream_options").value.Obj? {
      StreamOptionsExact(Get(root, "stream_options").value.fields);
    }
    if Get(root, "include").Some? && Get(root, "include").value.Arr? {
      IncludeExact(Get(root, "include").value.items);
    }
    if Get(root, "text").Some? && Get(root, "text").value.Obj? {
      TextExact(Get(root, "text").value.fields);
    }
  }

  /** The checks made before the first target is collected pass exactly for requests with these controls. */
  lemma ControlsExactly(root: seq<Field>)
    ensures CheckControls(root).None? <==> ControlsShape(root)
  {
    hide EnsureAllowedKeys, OnlyKeys, ValidateTopLevelControls, ReasoningShape, StreamOptionsShape, IncludeShape;
    hide TextShape;
    KeysChecked(root, TOP_LEVEL_FIELDS, k => UnsupportedTopLevelField(k));
    TopLevelExact(root);
  }

  // ----- input items

  const PASSTHROUGH := "internal_chat_message_metadata_passthrough"

  predicate PassthroughShape(o: seq<Field>) {
    || Nothing(o, PASSTHROUGH)
    || (&& Get(o, PASSTHROUGH).value.Obj?
        && var m := Get(o, PASSTHROUGH).value.fields; OnlyKeys(m, {"turn_id"}) && TextOrNothing(m, "turn_id"))
  }

  /** What holds of every item, whichever of these fields it may have. */
  predicate CommonShape(o: seq<Field>) {
    && TextOrNothing(o, "id") && TextOrNothing(o, "type") && TextOrNothing(o, "role") && TextOrNothing(o, "phase")
    && TextOrNothing(o, "author") && TextOrNothing(o, "recipient") && TextOrNothing(o, "call_id")
    && TextOrNothing(o, "name") && TextOrNothing(o, "namespace") && TextOrNothing(o, "status")
    && PassthroughShape(o)
  }

  /** A part that holds text, of one of these types. */
  predicate TextPart(part: Json, kinds: set<string>) {
    && part.Obj? && Text(part.fields, "type") && Get(part.fields, "type").value.text in kinds
    && OnlyKeys(part.fields, {"type", "text"}) && Text(part.fields, "text")
  }

  predicate EncryptedPart(part: Json) {
    && part.Obj? && Holds(part.fields, "type", Str("encrypted_content"))
    && OnlyKeys(part.fields, {"type", "encrypted_content"}) && Text(part.fields, "encrypted_content")
  }

  predicate TextParts(o: seq<Field>, key: string, kinds: set<string>) {
    && Get(o, key).Some? && Get(o, key).value.Arr?
    && forall part :: part in Get(o, key).value.items ==> TextPart(part, kinds)
  }

  predicate SecretParts(o: seq<Field>, key: string) {
    && Get(o, key).Some? && Get(o, key).value.Arr?
    && forall part :: part in Get(o, key).value.items ==> TextPart(part, {"input_text"}) || EncryptedPart(part)
  }

  predicate KindShape(kind: string, o: seq<Field>) {
    if kind == "message" then
      && OnlyKeys(o, {"id", "type", "role", "content", "phase", PASSTHROUGH}) && Text(o, "role")
      && (Text(o, "content") || TextParts(o, "content", {"input_text", "output_text"}))
    else if kind == "agent_message" then
      && OnlyKeys(o, {"id", "type", "author", "recipient", "content", PASSTHROUGH})
      && Text(o, "author") && Text(o, "recipient") && SecretParts(o, "content")
    else if kind == "function_call_output" then
      && OnlyKeys(o, {"id", "type", "call_id", "output", PASSTHROUGH}) && Text(o, "call_id")
      && (Text(o, "output") || SecretParts(o, "output"))
    else if kind == "custom_tool_call_output" then
      && OnlyKeys(o, {"id", "type", "call_id", "name", "output", PASSTHROUGH}) && Text(o, "call_id")
      && (Text(o, "output") || SecretParts(o, "output"))
    else if kind == "function_call" then
      && OnlyKeys(o, {"id", "type", "name", "namespace", "arguments", "call_id", PASSTHROUGH})
      && Text(o, "call_id") && Text(o, "name") && Text(o, "arguments")
    else if kind == "custom_tool_call" then
      && OnlyKeys(o, {"id", "type", "status", "call_id", "name", "namespace", "input", PASSTHROUGH})
      && Text(o, "call_id") && Text(o, "name") && Text(o, "input")
    else if kind == "additional_tools" then
      && OnlyKeys(o, {"id", "type", "role", "tools"}) && Text(o, "role")
      && Get(o, "tools").Some? && Get(o, "tools").value.Arr?
    else if kind == "reasoning" then
      && OnlyKeys(o, {"id", "type", "summary", "content", "encrypted_content", PASSTHROUGH})
      && TextOrNothing(o, "encrypted_content")
      && (Nothing(o, "summary") || TextParts(o, "summary", {"summary_text", "reasoning_text"}))
      && (Nothing(o, "content") || TextParts(o, "content", {"summary_text", "reasoning_text"}))
    else if kind in {"compaction", "compaction_summary"} then
      OnlyKeys(o, {"id", "type", "encrypted_content", PASSTHROUGH}) && Text(o, "encrypted_content")
    else if kind == "context_compaction" then
      OnlyKeys(o, {"id", "type", "encrypted_content", PASSTHROUGH}) && TextOrNothing(o, "encrypted_content")
    else if kind == "compaction_trigger" then
      OnlyKeys(o, {"id", "type", PASSTHROUGH})
    else kind in {"local_shell_call", "tool_search_call", "tool_search_output", "web_search_call"}
  }

  predicate ItemShape(item: Json) {
    && item.Obj? && Text(item.fields, "type") && CommonShape(item.fields)
    && KindShape(Get(item.fields, "type").value.text, item.fields)
  }

  lemma PassthroughExact(o: seq<Field>)
    ensures ValidateOptionalMetadata(o).None? <==> PassthroughShape(o)
  {
    hide EnsureAllowedKeys, OnlyKeys;
    if Get(o, PASSTHROUGH).Some? && Get(o, PASSTHROUGH).value.Obj? {
      KeysChecked(Get(o, PASSTHROUGH).value.fields, {"turn_id"}, k => UnsupportedItemField(k));
    }
  }

  lemma CommonExact(o: seq<Field>)
    ensures ValidateCommonItemFields(o).None? <==> CommonShape(o)
  {
    hide RequireOptionalStrings, TextOrNothing, ValidateOptionalMetadata, PassthroughShape;
    var names :=
      ["id", "type", "role", "phase", "author", "recipient", "call_id", "name", "namespace", "status"];
    OptionalStrings(o, names);
    PassthroughExact(o);
    assert names[0] == "id" && names[1] == "type" && names[2] == "role" && names[3] == "phase";
    assert names[4] == "author" && names[5] == "recipient" && names[6] == "call_id" && names[7] == "name";
    assert names[8] == "namespace" && names[9] == "status";
  }

  lemma PartExact(part: Json, rule: PartRule)
    requires "encrypted_content" !in rule.kinds
    ensures CheckPart(part, rule).None? <==> TextPart(part, rule.kinds) || (rule.encrypted && EncryptedPart(part))
  {
    hide EnsureAllowedKeys, OnlyKeys;
    if part.Obj? {
      KeysChecked(part.fields, {"type", "text"}, k => UnsupportedContentPartField(k));
      KeysChecked(part.fields, {"type", "encrypted_content"}, k => UnsupportedContentPartField(k));
    }
  }

  lemma PartsExact(parts: seq<Json>, rule: PartRule)
    requires "encrypted_content" !in rule.kinds
    ensures PartsOk(parts, rule) <==>
            forall part :: part in parts ==> TextPart(part, rule.kinds) || (rule.encrypted && EncryptedPart(part))
  {
    hide CheckPart, TextPart, EncryptedPart;
    forall i | 0 <= i < |parts|
      ensures CheckPart(parts[i], rule).None? <==>
              TextPart(parts[i], rule.kinds) || (rule.encrypted && EncryptedPart(parts[i]))
    {
      PartExact(parts[i], rule);
    }
    assert forall i :: 0 <= i < |parts| ==> parts[i] in parts;
  }

  /** What a field that holds model text may be. */
  predicate BodyShape(o: seq<Field>, b: Body) {
    || (b.optional && Nothing(o, b.field))
    || (b.asString && Text(o, b.field))
    || (&& b.asParts.Some? && Get(o, b.field).Some? && Get(o, b.field).value.Arr?
        && forall part :: part in Get(o, b.field).value.items ==>
             TextPart(part, b.asParts.value.kinds) || (b.asParts.value.encrypted && EncryptedPart(part)))
  }

  lemma BodyExact(o: seq<Field>, b: Body)
    requires b.asParts.Some? ==> "encrypted_content" !in b.asParts.value.kinds
    ensures BodyOk(o, b) <==> BodyShape(o, b)
  {
    hide PartsOk, TextPart, EncryptedPart;
    if b.asParts.Some? && Get(o, b.field).Some? && Get(o, b.field).value.Arr? {
      PartsExact(Get(o, b.field).value.items, b.asParts.value);
    }
  }

  lemma BodiesExact(kind: string, o: seq<Field>)
    ensures (forall k :: 0 <= k < |Bodies(kind)| ==> BodyOk(o, Bodies(kind)[k])) <==>
            forall k :: 0 <= k < |Bodies(kind)| ==> BodyShape(o, Bodies(kind)[k])
  {
    hide BodyOk, BodyShape;
    forall k | 0 <= k < |Bodies(kind)|
      ensures BodyOk(o, Bodies(kind)[k]) <==> BodyShape(o, Bodies(kind)[k])
    {
      BodyExact(o, Bodies(kind)[k]);
    }
  }

  /** The fields and the text of an item pass. */
  predicate ItemPasses(kind: string, o: seq<Field>) {
    && CheckItemFields(kind, o).None?
    && (forall k :: 0 <= k < |Bodies(kind)| ==> BodyShape(o, Bodies(kind)[k]))
    && (kind == "additional_tools" ==> Get(o, "tools").Some? && Get(o, "tools").value.Arr?)
  }

  lemma MessagesExact(kind: string, o: seq<Field>)
    requires kind in {"message", "agent_message"}
    ensures ItemPasses(kind, o) <==> CommonShape(o) && KindShape(kind, o)
  {
    hide EnsureAllowedKeys, OnlyKeys, ValidateCommonItemFields, CommonShape, TextPart, EncryptedPart;
    CommonExact(o);
    var item := (k: string) => UnsupportedItemField(k);
    KeysChecked(o, {"id", "type", "role", "content", "phase", METADATA}, item);
    KeysChecked(o, {"id", "type", "author", "recipient", "content", METADATA}, item);
    assert |Bodies(kind)| == 1;
    assert BodyShape(o, Bodies(kind)[0]) <==> forall k :: 0 <= k < |Bodies(kind)| ==> BodyShape(o, Bodies(kind)[k]);
  }

  lemma OutputsExact(kind: string, o: seq<Field>)
    requires kind in {"function_call_output", "custom_tool_call_output"}
    ensures ItemPasses(kind, o) <==> CommonShape(o) && KindShape(kind, o)
  {
    hide EnsureAllowedKeys, OnlyKeys, ValidateCommonItemFields, CommonShape, TextPart, EncryptedPart;
    CommonExact(o);
    var item := (k: string) => UnsupportedItemField(k);
    KeysChecked(o, {"id", "type", "call_id", "output", METADATA}, item);
    KeysChecked(o, {"id", "type", "call_id", "name", "output", METADATA}, item);
    assert |Bodies(kind)| == 1;
    assert BodyShape(o, Bodies(kind)[0]) <==> forall k :: 0 <= k < |Bodies(kind)| ==> BodyShape(o, Bodies(kind)[k]);
  }

  lemma CallsExact(kind: string, o: seq<Field>)
    requires kind in {"function_call", "custom_tool_call"}
    ensures ItemPasses(kind, o) <==> CommonShape(o) && KindShape(kind, o)
  {
    hide EnsureAllowedKeys, OnlyKeys, ValidateCommonItemFields, CommonShape, TextPart, EncryptedPart;
    CommonExact(o);
    var item := (k: string) => UnsupportedItemField(k);
    KeysChecked(o, {"id", "type", "name", "namespace", "arguments", "call_id", METADATA}, item);
    KeysChecked(o, {"id", "type", "status", "call_id", "name", "namespace", "input", METADATA}, item);
    assert |Bodies(kind)| == 1;
    assert BodyShape(o, Bodies(kind)[0]) <==> forall k :: 0 <= k < |Bodies(kind)| ==> BodyShape(o, Bodies(kind)[k]);
  }

  lemma ReasoningItemExact(o: seq<Field>)
    ensures ItemPasses("reasoning", o) <==> CommonShape(o) && KindShape("reasoning", o)
  {
    hide EnsureAllowedKeys, OnlyKeys, ValidateCommonItemFields, CommonShape, TextPart, EncryptedPart;
    hide ValidateOptionalMetadata, PassthroughShape;
    CommonExact(o);
    CommonMeans(o);
    PassthroughExact(o);
    var item := (k: string) => UnsupportedItemField(k);
    KeysChecked(o, {"id", "type", "summary", "content", "encrypted_content", METADATA}, item);
    var bs := Bodies("reasoning");
    assert |bs| == 2;
    assert BodyShape(o, bs[0]) && BodyShape(o, bs[1]) <==> forall k :: 0 <= k < |bs| ==> BodyShape(o, bs[k]);
  }

  lemma PlainItemExact(kind: string, o: seq<Field>)
    requires Bodies(kind) == []
    ensures ItemPasses(kind, o) <==> CommonShape(o) && KindShape(kind, o)
  {
    hide EnsureAllowedKeys, OnlyKeys, ValidateCommonItemFields, CommonShape, CheckCompaction;
    CommonExact(o);
    KeysChecked(o, {"id", "type", "role", "tools"}, (k: string) => UnsupportedItemField(k));
    if IsCompactionKind(kind) {
      CompactionExact(kind, o);
    }
  }

  /** The keys a kind of item may have, what is asked of its fields, and what its text may be. */
  lemma ItemFieldsExact(kind: string, o: seq<Field>)
    ensures ItemPasses(kind, o) <==> CommonShape(o) && KindShape(kind, o)
  {
    hide ItemPasses, CommonShape, KindShape;
    if kind in {"message", "agent_message"} {
      MessagesExact(kind, o);
    } else if kind in {"function_call_output", "custom_tool_call_output"} {
      OutputsExact(kind, o);
    } else if kind in {"function_call", "custom_tool_call"} {
      CallsExact(kind, o);
    } else if kind == "reasoning" {
      ReasoningItemExact(o);
    } else {
      PlainItemExact(kind, o);
    }
  }

  lemma CommonMeans(o: seq<Field>)
    ensures CommonShape(o) ==> PassthroughShape(o)
  {
  }

  lemma CompactionExact(kind: string, o: seq<Field>)
    requires IsCompactionKind(kind)
    ensures CheckCompaction(kind, o).None? <==> CommonShape(o) && KindShape(kind, o)
  {
    hide EnsureAllowedKeys, ValidateCommonItemFields, CommonShape, ValidateOptionalMetadata, PassthroughShape;
    CommonExact(o);
    PassthroughExact(o);
    CommonMeans(o);
    KeysChecked(o, {"id", "type", "encrypted_content", METADATA}, k => UnsupportedItemField(k));
    KeyAbsent(o, "encrypted_content");
  }

  /** A key is absent exactly if no field has it. */
  lemma {:induction false} KeyAbsent(fields: seq<Field>, key: string)
    ensures Get(fields, key).None? <==> forall i :: 0 <= i < |fields| ==> fields[i].key != key
  {
    if fields != [] && fields[0].key != key {
      KeyAbsent(fields[1..], key);
      assert forall i :: 1 <= i < |fields| ==> fields[i] == fields[1..][i - 1];
    }
  }

  lemma ItemExactly(item: Json)
    ensures ItemOk(item) <==> ItemShape(item)
  {
    hide CheckItemFields, BodyOk, BodyShape, CommonShape, KindShape, Bodies;
    if item.Obj? && Text(item.fields, "type") {
      var kind := Get(item.fields, "type").value.text;
      BodiesExact(kind, item.fields);
      ItemFieldsExact(kind, item.fields);
    }
  }

  // ----- whole requests

  predicate RequestShape(root: Json) {
    && root.Obj? && UniqueKeys(root) && ControlsShape(root.fields)
    && (Get(root.fields, "instructions").None? || Text(root.fields, "instructions"))
    && (|| Text(root.fields, "input")
        || (&& Get(root.fields, "input").Some? && Get(root.fields, "input").value.Arr?
            && forall item :: item in Get(root.fields, "input").value.items ==> ItemShape(item)))
    && (Get(root.fields, "tools").None? || Get(root.fields, "tools").value.Arr?)
    && (|| Get(root.fields, "client_metadata").None?
        || (&& Get(root.fields, "client_metadata").value.Obj?
            && forall f :: f in Get(root.fields, "client_metadata").value.fields ==> f.value.Str?))
  }

  /** A request is accepted exactly if it looks like this. */
  lemma AcceptedExactly(root: Json)
    ensures Accepted(root) <==> RequestShape(root)
  {
    hide Accepted, CheckControls, ControlsShape, ItemOk, ItemShape, UniqueKeys;
    AcceptedMeans(root);
    if root.Obj? {
      ControlsExactly(root.fields);
      if Get(root.fields, "input").Some? && Get(root.fields, "input").value.Arr? {
        ItemsExact(Get(root.fields, "input").value.items);
      }
      if Get(root.fields, "client_metadata").Some? && Get(root.fields, "client_metadata").value.Obj? {
        var m := Get(root.fields, "client_metadata").value.fields;
        assert forall i :: 0 <= i < |m| ==> m[i] in m;
      }
    }
  }

  lemma ItemsExact(items: seq<Json>)
    ensures (forall i :: 0 <= i < |items| ==> ItemOk(items[i])) <==> forall item :: item in items ==> ItemShape(item)
  {
    hide ItemOk, ItemShape;
    forall i | 0 <= i < |items|
      ensures ItemOk(items[i]) <==> ItemShape(items[i])
    {
      ItemExactly(items[i]);
    }
    assert forall i :: 0 <= i < |items| ==> items[i] in items;
  }

  // ----- which strings may be rewritten

  /** The string is this field of its item, or the text of one part of it. */
  predicate FieldText(field: string, s: Path) {
    || s == [Key(field)]
    || (|s| == 3 && s[0] == Key(field) && s[1].Index? && s[2] == Key("text"))
  }

  /** The strings of an item that hold model text, by the kind of the item. */
  predicate ModelText(kind: string, s: Path, c: FieldClass) {
    || (kind == "message" && c == MessageText && FieldText("content", s))
    || (kind == "agent_message" && c == AgentMessageText && FieldText("content", s))
    || (kind == "function_call_output" && c == FunctionOutput && FieldText("output", s))
    || (kind == "custom_tool_call_output" && c == CustomToolOutput && FieldText("output", s))
    || (kind == "function_call" && c == FunctionArguments && FieldText("arguments", s))
    || (kind == "custom_tool_call" && c == CustomToolInput && FieldText("input", s))
    || (kind == "reasoning" && c == ReasoningSummary && (FieldText("summary", s) || FieldText("content", s)))
  }

  /** The path lies in an input item of this kind. */
  predicate InItem(root: Json, p: Path, kind: string) {
    && |p| >= 2 && p[0] == Key("input") && p[1].Index?
    && Locate(root, p[..2]).Some? && Locate(root, p[..2]).value.Obj?
    && Holds(Locate(root, p[..2]).value.fields, "type", Str(kind))
  }

  ghost predicate MayRewrite(root: Json, p: Path, c: FieldClass) {
    || (p == [Key("instructions")] && c == Instructions)
    || (p == [Key("input")] && c == MessageText)
    || exists kind :: InItem(root, p, kind) && ModelText(kind, p[2..], c)
  }

  lemma BodyClassOne(b: Body, s: Path)
    ensures BodyClass([b], s) == if FieldText(b.field, s) then Class(b.fieldClass, Rewrite) else STRUCTURAL
  {
    assert [b][1..] == [];
    assert BodyClass([], s) == STRUCTURAL;
  }

  lemma BodyClassTwo(a: Body, b: Body, s: Path)
    ensures BodyClass([a, b], s)
         == if FieldText(a.field, s) then Class(a.fieldClass, Rewrite) else BodyClass([b], s)
  {
    assert [a, b][1..] == [b];
  }

  lemma BodyClassIs(kind: string, s: Path, c: FieldClass)
    ensures BodyClass(Bodies(kind), s) == Class(c, Rewrite) <==> ModelText(kind, s, c)
    ensures BodyClass(Bodies(kind), s).mode == BlockOnly ==> BodyClass(Bodies(kind), s) == STRUCTURAL
  {
    hide BodyClass, FieldText;
    var bs := Bodies(kind);
    if bs == [] {
      NoBodies(s);
    } else if |bs| == 1 {
      assert bs == [bs[0]];
      BodyClassOne(bs[0], s);
    } else {
      assert bs == [bs[0], bs[1]];
      BodyClassTwo(bs[0], bs[1], s);
      BodyClassOne(bs[1], s);
    }
  }

  lemma NoBodies(s: Path)
    ensures BodyClass([], s) == STRUCTURAL
  {
  }

  /** A string may be rewritten exactly if it is the instructions, the input, or the model text of an item. */
  lemma RewritableExactly(root: Json, p: Path, c: FieldClass)
    ensures Classify(root, p) == Class(c, Rewrite) <==> MayRewrite(root, p, c)
  {
    hide Bodies, BodyClass, ModelText, NearestKey;
    if |p| >= 2 && p[0] == Key("input") && p[1].Index? {
      if Locate(root, p[..2]).Some? && Locate(root, p[..2]).value.Obj?
         && Text(Locate(root, p[..2]).value.fields, "type") {
        var kind := Get(Locate(root, p[..2]).value.fields, "type").value.text;
        assert InItem(root, p, kind);
        BodyClassIs(kind, p[2..], c);
        NoModelText(kind, p[2..], c);
      }
    }
  }

  lemma NoModelText(kind: string, s: Path, c: FieldClass)
    ensures kind == "additional_tools" || IsStructuralKind(kind) ==> !ModelText(kind, s, c)
  {
  }

  /** The string is below a list of tools, with this key nearest to it. */
  predicate InTools(root: Json, p: Path, key: Option<string>) {
    || (p != [] && p[0] == Key("tools") && key == NearestKey(p[1..], None))
    || (InItem(root, p, "additional_tools") && |p| >= 3 && p[2] == Key("tools") && key == NearestKey(p[3..], None))
  }

  /** The string is an argument of a tool the model has called by itself. */
  predicate InCall(root: Json, p: Path) {
    && |p| >= 3 && p[2].Key?
    && p[2].key !in {"id", "type", "call_id", "status", "internal_chat_message_metadata_passthrough"}
    && (|| InItem(root, p, "local_shell_call") || InItem(root, p, "tool_search_call")
        || InItem(root, p, "tool_search_output") || InItem(root, p, "web_search_call"))
  }

  predicate NamesOrDescribes(key: Option<string>) {
    key.Some? && key.value in {"description", "name", "type", "namespace", "id", "$id", "$ref"}
  }

  /** How a string that may only block is labelled. */
  ghost predicate MayBlock(root: Json, p: Path, c: FieldClass) {
    match c
    case ToolDescription => InTools(root, p, Some("description"))
    case ToolSchemaText =>
      exists key :: InTools(root, p, key) && !NamesOrDescribes(key)
    case ClientMetadata => |p| == 2 && p[0] == Key("client_metadata") && p[1].Key?
    case FunctionArguments => InCall(root, p)
    case _ => false
  }

  lemma ToolClassIs(key: Option<string>, c: FieldClass)
    requires c != StructuralMetadata
    ensures ToolClass(key) == Class(c, BlockOnly) <==>
            (c == ToolDescription && key == Some("description")) || (c == ToolSchemaText && !NamesOrDescribes(key))
  {
  }

  lemma ToolsLabelled(root: Json, p: Path, key: Option<string>)
    requires InTools(root, p, key)
    ensures MayBlock(root, p, ToolDescription) <==> key == Some("description")
    ensures MayBlock(root, p, ToolSchemaText) <==> !NamesOrDescribes(key)
  {
    hide NearestKey, NamesOrDescribes;
    assert forall other :: InTools(root, p, other) ==> other == key;
  }

  lemma ToolItemLabels(root: Json, p: Path, c: FieldClass)
    requires InItem(root, p, "additional_tools") && c != StructuralMetadata
    ensures ItemClass("additional_tools", p[2..]) == Class(c, BlockOnly) <==> MayBlock(root, p, c)
  {
    hide NearestKey, ToolClass, NamesOrDescribes, Locate;
    if |p| >= 3 {
      assert p[2..][0] == p[2] && p[2..][1..] == p[3..];
      if p[2] == Key("tools") {
        var key := NearestKey(p[3..], None);
        ToolClassIs(key, c);
        assert InTools(root, p, key);
        ToolsLabelled(root, p, key);
      }
    }
  }

  lemma CallItemLabels(root: Json, p: Path, kind: string, c: FieldClass)
    requires InItem(root, p, kind) && IsStructuralKind(kind) && c != StructuralMetadata
    ensures ItemClass(kind, p[2..]) == Class(c, BlockOnly) <==> MayBlock(root, p, c)
  {
    hide NearestKey, ToolClass, NamesOrDescribes, Locate;
    if |p| >= 3 {
      assert p[2..][0] == p[2];
    }
  }

  lemma TextItemLabels(root: Json, p: Path, kind: string, c: FieldClass)
    requires InItem(root, p, kind) && !IsStructuralKind(kind) && kind != "additional_tools" && c != StructuralMetadata
    ensures ItemClass(kind, p[2..]) == Class(c, BlockOnly) <==> MayBlock(root, p, c)
  {
    hide Bodies, BodyClass, ModelText, NearestKey, ToolClass, NamesOrDescribes, Locate;
    BodyClassIs(kind, p[2..], c);
  }

  lemma ItemLabels(root: Json, p: Path, kind: string, c: FieldClass)
    requires InItem(root, p, kind) && c != StructuralMetadata
    ensures ItemClass(kind, p[2..]) == Class(c, BlockOnly) <==> MayBlock(root, p, c)
  {
    hide *;
    InItemBelow(root, p, kind);
    if kind == "additional_tools" {
      ToolItemLabels(root, p, c);
    } else if IsStructuralKind(kind) {
      CallItemLabels(root, p, kind, c);
    } else {
      TextItemLabels(root, p, kind, c);
    }
  }

  lemma InItemBelow(root: Json, p: Path, kind: string)
    requires InItem(root, p, kind)
    ensures |p| >= 2
  {
    hide Locate;
  }

  predicate BelowItem(p: Path) { |p| >= 2 && p[0] == Key("input") && p[1].Index? }

  predicate BelowTools(p: Path) { p != [] && p[0] == Key("tools") }

  lemma InputLabels(root: Json, p: Path, c: FieldClass)
    requires BelowItem(p) && c != StructuralMetadata
    ensures Classify(root, p) == Class(c, BlockOnly) <==> MayBlock(root, p, c)
  {
    hide Bodies, BodyClass, NearestKey, ToolClass, NamesOrDescribes, ItemClass;
    if Locate(root, p[..2]).Some? && Locate(root, p[..2]).value.Obj?
       && Text(Locate(root, p[..2]).value.fields, "type") {
      var kind := Get(Locate(root, p[..2]).value.fields, "type").value.text;
      hide MayBlock;
      ItemLabels(root, p, kind, c);
    }
  }

  lemma ToolLabels(root: Json, p: Path, c: FieldClass)
    requires BelowTools(p) && c != StructuralMetadata
    ensures Classify(root, p) == Class(c, BlockOnly) <==> MayBlock(root, p, c)
  {
    hide Bodies, BodyClass, NearestKey, ToolClass, NamesOrDescribes, ItemClass, Locate;
    var key := NearestKey(p[1..], None);
    ToolClassIs(key, c);
    assert InTools(root, p, key);
    ToolsLabelled(root, p, key);
  }

  lemma OtherLabels(root: Json, p: Path, c: FieldClass)
    requires !BelowItem(p) && !BelowTools(p) && c != StructuralMetadata
    ensures Classify(root, p) == Class(c, BlockOnly) <==> MayBlock(root, p, c)
  {
    hide Bodies, BodyClass, NearestKey, ToolClass, NamesOrDescribes, ItemClass, Locate;
  }

  /** The labels of the strings that may only block: those of tools, metadata and calls; all others are structural. */
  lemma BlockOnlyExactly(root: Json, p: Path, c: FieldClass)
    requires c != StructuralMetadata
    ensures Classify(root, p) == Class(c, BlockOnly) <==> MayBlock(root, p, c)
  {
    hide *;
    if BelowItem(p) {
      InputLabels(root, p, c);
    } else if BelowTools(p) {
      ToolLabels(root, p, c);
    } else {
      OtherLabels(root, p, c);
    }
  }
}
