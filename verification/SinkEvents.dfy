/**
 * Restoring the text of one parsed event (src/sse.rs, `restore_event` and its helpers), and which strings that
 * touches.
 */
module SinkEvents {
  import opened Domain
  import opened Chunking
  import opened JsonTree
  import PayloadShape
  import opened Request

  datatype Mode = DisplayText | DeltaOnly

  type Restore = string -> string

  function TypeOf(j: Json): Option<string> {
    if j.Obj? then PayloadShape.TextOf(Get(j.fields, "type")) else None
  }

  const FULL_MODE_EVENTS: set<string> :=
    {"response.output_text.delta", "response.output_text.done", "response.content_part.added",
     "response.content_part.done", "response.output_item.added", "response.output_item.done", "response.created",
     "response.in_progress", "response.completed"}

  predicate IsRestorable(mode: Mode, eventType: string) {
    match mode
    case DeltaOnly => eventType == "response.output_text.delta"
    case DisplayText => eventType in FULL_MODE_EVENTS
  }

  // ----- what the helpers compute

  function RestoredField(j: Json, field: string, restore: Restore): Result<Json, SseError> {
    match Child(j, Key(field))
    case None => Ok(j)
    case Some(Str(text)) => Ok(SetAt(j, [Key(field)], Str(restore(text))))
    case Some(_) => Err(InvalidTextShape)
  }

  function RestoredPart(part: Json, restore: Restore): Result<Json, SseError> {
    if TypeOf(part) == Some("output_text") then RestoredField(part, "text", restore) else Ok(part)
  }

  /** The array with its first `n` elements restored. */
  function RestoredAll(each: Json -> Result<Json, SseError>, items: seq<Json>, n: nat): (r: Result<seq<Json>, SseError>)
    requires n <= |items|
    ensures r.Ok? ==> |r.value| == |items|
  {
    if n == 0 then Ok(items)
    else
      match RestoredAll(each, items, n - 1)
      case Err(e) => Err(e)
      case Ok(before) =>
        match each(items[n - 1])
        case Err(e) => Err(e)
        case Ok(item) => Ok(before[n - 1 := item])
  }

  /** An optional array of values under a key. */
  function RestoredArray(j: Json, key: string, each: Json -> Result<Json, SseError>): Result<Json, SseError> {
    match Child(j, Key(key))
    case None => Ok(j)
    case Some(Arr(items)) =>
      (match RestoredAll(each, items, |items|)
       case Ok(after) => Ok(SetAt(j, [Key(key)], Arr(after)))
       case Err(e) => Err(e))
    case Some(_) => Err(InvalidTextShape)
  }

  function RestoredItem(item: Json, restore: Restore): Result<Json, SseError> {
    if TypeOf(item) == Some("message")
    then RestoredArray(item, "content", part => RestoredPart(part, restore)) else Ok(item)
  }

  function RestoredSnapshot(response: Json, restore: Restore): Result<Json, SseError> {
    RestoredArray(response, "output", item => RestoredItem(item, restore))
  }

  function RestoredChild(j: Json, key: string, inner: Json -> Result<Json, SseError>): Result<Json, SseError> {
    match Child(j, Key(key))
    case None => Ok(j)
    case Some(c) =>
      match inner(c)
      case Ok(after) => Ok(SetAt(j, [Key(key)], after))
      case Err(e) => Err(e)
  }

  function RestoredEvent(eventType: string, event: Json, restore: Restore): Result<Json, SseError> {
    if eventType == "response.output_text.delta" then RestoredField(event, "delta", restore)
    else if eventType == "response.output_text.done" then RestoredField(event, "text", restore)
    else if eventType == "response.content_part.added" || eventType == "response.content_part.done" then
      RestoredChild(event, "part", part => RestoredPart(part, restore))
    else if eventType == "response.output_item.added" || eventType == "response.output_item.done" then
      RestoredChild(event, "item", item => RestoredItem(item, restore))
    else if eventType in {"response.created", "response.in_progress", "response.completed"} then
      RestoredChild(event, "response", response => RestoredSnapshot(response, restore))
    else Ok(event)
  }

  // ----- the loops

  method RestoreParts(parts: seq<Json>, restore: Restore) returns (r: Result<seq<Json>, SseError>)
    ensures r == RestoredAll(part => RestoredPart(part, restore), parts, |parts|)
  {
    ghost var each := part => RestoredPart(part, restore);
    var after := parts;
    for i := 0 to |parts|
      invariant RestoredAll(each, parts, i) == Ok(after) && |after| == |parts|
    {
      match RestoredPart(parts[i], restore)
      case Ok(part) => after := after[i := part];
      case Err(e) =>
        FailureStays(each, parts, i + 1, |parts|);
        return Err(e);
    }
    r := Ok(after);
  }

  method RestoreItems(items: seq<Json>, restore: Restore) returns (r: Result<seq<Json>, SseError>)
    ensures r == RestoredAll(item => RestoredItem(item, restore), items, |items|)
  {
    ghost var each := item => RestoredItem(item, restore);
    var after := items;
    for i := 0 to |items|
      invariant RestoredAll(each, items, i) == Ok(after) && |after| == |items|
    {
      var item := RestoreMessageItem(items[i], restore);
      match item
      case Ok(restored) => after := after[i := restored];
      case Err(e) =>
        FailureStays(each, items, i + 1, |items|);
        return Err(e);
    }
    r := Ok(after);
  }

  method RestoreMessageItem(item: Json, restore: Restore) returns (r: Result<Json, SseError>)
    ensures r == RestoredItem(item, restore)
  {
    if TypeOf(item) != Some("message") {
      return Ok(item);
    }
    match Child(item, Key("content"))
    case None => r := Ok(item);
    case Some(Arr(parts)) =>
      var after := RestoreParts(parts, restore);
      match after {
        case Ok(restored) => r := Ok(SetAt(item, [Key("content")], Arr(restored)));
        case Err(e) => r := Err(e);
      }
    case Some(_) => r := Err(InvalidTextShape);
  }

  lemma {:induction false} FailureStays(each: Json -> Result<Json, SseError>, items: seq<Json>, n: nat, m: nat)
    requires n <= m <= |items| && RestoredAll(each, items, n).Err?
    ensures RestoredAll(each, items, m) == RestoredAll(each, items, n)
    decreases m
  {
    if n < m {
      FailureStays(each, items, n, m - 1);
    }
  }

  // ----- the output-text sinks, by position

  type Sink = Path -> bool

  /** The sinks of one value, given a rule that depends on the value. */
  function Bind(rule: (Json, Path) -> bool, j: Json): Sink { p => rule(j, p) }

  predicate PartSink(part: Json, p: Path) {
    TypeOf(part) == Some("output_text") && p == [Key("text")]
  }

  predicate ItemSink(item: Json, p: Path) {
    && TypeOf(item) == Some("message") && |p| == 3 && p[0] == Key("content") && p[1].Index?
    && match Locate(item, p[..2]) case Some(part) => PartSink(part, p[2..]) case None => false
  }

  predicate SnapshotSink(response: Json, p: Path) {
    && |p| == 5 && p[0] == Key("output") && p[1].Index?
    && match Locate(response, p[..2]) case Some(item) => ItemSink(item, p[2..]) case None => false
  }

  predicate ChildSink(j: Json, key: string, inner: (Json, Path) -> bool, p: Path) {
    && p != [] && p[0] == Key(key)
    && match Child(j, p[0]) case Some(c) => inner(c, p[1..]) case None => false
  }

  /** The strings of an event that carry display text. */
  predicate EventSink(eventType: string, event: Json, p: Path) {
    if eventType == "response.output_text.delta" then p == [Key("delta")]
    else if eventType == "response.output_text.done" then p == [Key("text")]
    else if eventType == "response.content_part.added" || eventType == "response.content_part.done" then
      ChildSink(event, "part", PartSink, p)
    else if eventType == "response.output_item.added" || eventType == "response.output_item.done" then
      ChildSink(event, "item", ItemSink, p)
    else if eventType in {"response.created", "response.in_progress", "response.completed"} then
      ChildSink(event, "response", SnapshotSink, p)
    else false
  }

  /** `after` is `before` with the text of exactly the sinks restored. */
  ghost predicate RestoresAt(before: Json, after: Json, sink: Sink, restore: Restore) {
    && SameShape(before, after)
    && forall p {:trigger Locate(before, p)} {:trigger Locate(after, p)} :: StringAt(before, p) ==>
         Locate(after, p) == if sink(p) then Some(Str(restore(Locate(before, p).value.text))) else Locate(before, p)
  }

  lemma NothingRestored(j: Json, sink: Sink, restore: Restore)
    requires forall p :: StringAt(j, p) ==> !sink(p)
    ensures RestoresAt(j, j, sink, restore)
  {
    ShapeReflexive(j);
  }

  lemma FieldRestored(j: Json, field: string, sink: Sink, restore: Restore)
    requires RestoredField(j, field, restore).Ok?
    requires forall p :: StringAt(j, p) ==> (sink(p) <==> p == [Key(field)])
    ensures RestoresAt(j, RestoredField(j, field, restore).value, sink, restore)
  {
    hide SameShape, SetAt;
    var path := [Key(field)];
    assert path[1..] == [];
    match Child(j, Key(field))
    case None =>
      assert !StringAt(j, path);
      NothingRestored(j, sink, restore);
    case Some(c) =>
      assert Locate(j, path) == Some(c);
      SetKeepsShape(j, path, restore(c.text));
      forall p | StringAt(j, p)
        ensures Locate(SetAt(j, path, Str(restore(c.text))), p)
             == if sink(p) then Some(Str(restore(Locate(j, p).value.text))) else Locate(j, p)
      {
        SetThenLocate(j, path, restore(c.text), p);
      }
  }

  // ----- restoring below a key

  lemma ChildShape(j: Json, key: string, c: Json, after: Json)
    requires Child(j, Key(key)) == Some(c) && SameShape(c, after)
    ensures Locate(j, [Key(key)]).Some? && SameShape(j, SetAt(j, [Key(key)], after))
  {
    var none: Path := [];
    assert [Key(key)][1..] == none;
    FieldShape(j.fields, key, after);
  }

  lemma {:induction false} FieldShape(fields: seq<Field>, key: string, after: Json)
    requires Get(fields, key).Some? && SameShape(Get(fields, key).value, after)
    ensures SameShape(Obj(fields), Obj(SetField(fields, key, [], after)))
    decreases fields
  {
    var next := SetField(fields, key, [], after);
    assert fields == [fields[0]] + fields[1..] && next == [next[0]] + next[1..];
    if fields[0].key == key {
      forall m | 1 <= m < |fields| ensures SameShape(fields[m].value, next[m].value) {
        ShapeReflexive(fields[m].value);
      }
    } else {
      ShapeReflexive(fields[0].value);
      FieldShape(fields[1..], key, after);
      var tail, rest := Obj(fields[1..]), Obj(next[1..]);
      forall m | 1 <= m < |fields| ensures fields[m].key == next[m].key && SameShape(fields[m].value, next[m].value) {
        assert SameShape(tail.fields[m - 1].value, rest.fields[m - 1].value);
      }
    }
  }

  /** Restoring one child restores the sinks below it. */
  lemma ChildRestored(j: Json, key: string, c: Json, after: Json, inner: Sink, sink: Sink, restore: Restore)
    requires Child(j, Key(key)) == Some(c) && RestoresAt(c, after, inner, restore)
    requires forall p :: StringAt(j, p) ==> (sink(p) <==> p != [] && p[0] == Key(key) && inner(p[1..]))
    ensures Locate(j, [Key(key)]).Some? && RestoresAt(j, SetAt(j, [Key(key)], after), sink, restore)
  {
    hide SameShape, SetAt;
    var path := [Key(key)];
    assert path[1..] == [];
    ChildShape(j, key, c, after);
    var j' := SetAt(j, path, after);
    forall p | StringAt(j, p)
      ensures Locate(j', p) == if sink(p) then Some(Str(restore(Locate(j, p).value.text))) else Locate(j, p)
    {
      ChildOfSet(j, path, after, p[0]);
      if p[0] == Key(key) {
        SetWhole(c, after);
        assert Locate(c, p[1..]) == Locate(j, p) && Locate(j', p) == Locate(after, p[1..]);
      }
    }
  }

  lemma SetWhole(c: Json, v: Json)
    ensures SetAt(c, [], v) == v
  {
  }

  // ----- restoring the elements of an array

  lemma {:induction false} AllRestored(each: Json -> Result<Json, SseError>, items: seq<Json>, n: nat, k: nat)
    requires n <= |items| && RestoredAll(each, items, n).Ok? && k < |items|
    ensures |RestoredAll(each, items, n).value| == |items|
    ensures k < n ==> each(items[k]) == Ok(RestoredAll(each, items, n).value[k])
    ensures k >= n ==> RestoredAll(each, items, n).value[k] == items[k]
  {
    if n > 0 {
      AllRestored(each, items, n - 1, k);
    }
  }

  /** Each element of the array restores its own sinks. */
  ghost predicate EachRestores(each: Json -> Result<Json, SseError>, inner: (Json, Path) -> bool, restore: Restore) {
    forall j {:trigger each(j)} :: each(j).Ok? ==> RestoresAt(j, each(j).value, Bind(inner, j), restore)
  }

  predicate ArraySink(items: seq<Json>, inner: (Json, Path) -> bool, p: Path) {
    p != [] && p[0].Index? && p[0].index < |items| && inner(items[p[0].index], p[1..])
  }

  predicate BelowArray(j: Json, key: string, inner: (Json, Path) -> bool, p: Path) {
    && p != [] && p[0] == Key(key)
    && match Child(j, p[0]) case Some(Arr(items)) => ArraySink(items, inner, p[1..]) case _ => false
  }

  lemma ItemsRestored(each: Json -> Result<Json, SseError>, inner: (Json, Path) -> bool, items: seq<Json>,
                      restore: Restore)
    requires EachRestores(each, inner, restore) && RestoredAll(each, items, |items|).Ok?
    ensures RestoresAt(Arr(items), Arr(RestoredAll(each, items, |items|).value), p => ArraySink(items, inner, p),
                       restore)
  {
    hide RestoredAll, EachRestores, RestoresAt;
    var after := RestoredAll(each, items, |items|).value;
    forall k | 0 <= k < |items|
      ensures RestoresAt(items[k], after[k], Bind(inner, items[k]), restore)
    {
      AllRestored(each, items, |items|, k);
      EachAt(each, inner, restore, items[k]);
    }
    ArrayOf(items, after, inner, restore);
  }

  lemma EachAt(each: Json -> Result<Json, SseError>, inner: (Json, Path) -> bool, restore: Restore, j: Json)
    requires EachRestores(each, inner, restore) && each(j).Ok?
    ensures RestoresAt(j, each(j).value, Bind(inner, j), restore)
  {
    hide RestoresAt;
  }

  lemma ArrayOf(items: seq<Json>, after: seq<Json>, inner: (Json, Path) -> bool, restore: Restore)
    requires |after| == |items|
    requires forall k :: 0 <= k < |items| ==> RestoresAt(items[k], after[k], Bind(inner, items[k]), restore)
    ensures RestoresAt(Arr(items), Arr(after), p => ArraySink(items, inner, p), restore)
  {
    var a, b := Arr(items), Arr(after);
    forall k | 0 <= k < |items|
      ensures SameShape(items[k], after[k])
    {
      assert RestoresAt(items[k], after[k], Bind(inner, items[k]), restore);
    }
    forall p: Path | StringAt(a, p)
      ensures Locate(b, p)
           == if ArraySink(items, inner, p) then Some(Str(restore(Locate(a, p).value.text))) else Locate(a, p)
    {
      var k := p[0].index;
      assert Locate(a, p) == Locate(items[k], p[1..]) && Locate(b, p) == Locate(after[k], p[1..]);
      assert RestoresAt(items[k], after[k], Bind(inner, items[k]), restore);
    }
  }

  lemma ArrayRestored(j: Json, key: string, each: Json -> Result<Json, SseError>, inner: (Json, Path) -> bool,
                      sink: Sink, restore: Restore)
    requires EachRestores(each, inner, restore) && RestoredArray(j, key, each).Ok?
    requires forall p :: StringAt(j, p) ==> (sink(p) <==> BelowArray(j, key, inner, p))
    ensures RestoresAt(j, RestoredArray(j, key, each).value, sink, restore)
  {
    hide RestoresAt, EachRestores, ArraySink, SetAt, RestoredAll;
    match Child(j, Key(key))
    case None => NothingRestored(j, sink, restore);
    case Some(c) =>
      ItemsRestored(each, inner, c.items, restore);
      ChildRestored(j, key, c, Arr(RestoredAll(each, c.items, |c.items|).value), p => ArraySink(c.items, inner, p),
                    sink, restore);
  }

  // ----- the theorem

  lemma BindMeans(rule: (Json, Path) -> bool, j: Json)
    ensures forall p {:trigger Bind(rule, j)(p)} :: Bind(rule, j)(p) <==> rule(j, p)
  {
  }

  lemma PartRestored(part: Json, restore: Restore)
    requires RestoredPart(part, restore).Ok?
    ensures RestoresAt(part, RestoredPart(part, restore).value, Bind(PartSink, part), restore)
  {
    hide RestoresAt, RestoredField, StringAt, TypeOf;
    BindMeans(PartSink, part);
    if TypeOf(part) == Some("output_text") {
      FieldRestored(part, "text", Bind(PartSink, part), restore);
    } else {
      NothingRestored(part, Bind(PartSink, part), restore);
    }
  }

  lemma PartsEach(restore: Restore)
    ensures EachRestores(part => RestoredPart(part, restore), PartSink, restore)
  {
    hide RestoresAt, RestoredPart, PartSink;
    forall j: Json | RestoredPart(j, restore).Ok?
      ensures RestoresAt(j, RestoredPart(j, restore).value, Bind(PartSink, j), restore)
    {
      PartRestored(j, restore);
    }
  }

  lemma ItemRestored(item: Json, restore: Restore)
    requires RestoredItem(item, restore).Ok?
    ensures RestoresAt(item, RestoredItem(item, restore).value, Bind(ItemSink, item), restore)
  {
    hide RestoresAt, RestoredArray, RestoredPart, PartSink, EachRestores, BelowArray;
    BindMeans(ItemSink, item);
    if TypeOf(item) == Some("message") {
      PartsEach(restore);
      forall p | StringAt(item, p)
        ensures ItemSink(item, p) <==> BelowArray(item, "content", PartSink, p)
      {
        ItemSinkIsArray(item, p);
      }
      ArrayRestored(item, "content", part => RestoredPart(part, restore), PartSink, Bind(ItemSink, item), restore);
    } else {
      NothingRestored(item, Bind(ItemSink, item), restore);
    }
  }

  lemma TwoDown(j: Json, p: Path)
    requires |p| >= 2
    ensures Locate(j, p[..2]) == match Child(j, p[0]) case Some(c) => Child(c, p[1]) case None => None
  {
    var q := p[..2];
    var last := q[1..];
    assert q[0] == p[0] && last == [p[1]] && last[1..] == [];
    assert Locate(j, q) == match Child(j, q[0]) case Some(c) => Locate(c, last) case None => None;
    match Child(j, p[0])
    case None =>
    case Some(c) =>
      assert Locate(c, last) == match Child(c, last[0]) case Some(d) => Locate(d, last[1..]) case None => None;
  }

  lemma ItemSinkIsArray(item: Json, p: Path)
    requires TypeOf(item) == Some("message")
    ensures ItemSink(item, p) <==> BelowArray(item, "content", PartSink, p)
  {
    if |p| >= 2 {
      TwoDown(item, p);
      assert p[1..][0] == p[1] && p[1..][1..] == p[2..];
      assert |p| == 3 ==> p[2..] == [p[2]];
    }
  }

  lemma ItemsEach(restore: Restore)
    ensures EachRestores(item => RestoredItem(item, restore), ItemSink, restore)
  {
    hide RestoresAt, RestoredItem, ItemSink;
    forall j: Json | RestoredItem(j, restore).Ok?
      ensures RestoresAt(j, RestoredItem(j, restore).value, Bind(ItemSink, j), restore)
    {
      ItemRestored(j, restore);
    }
  }

  lemma SnapshotRestored(response: Json, restore: Restore)
    requires RestoredSnapshot(response, restore).Ok?
    ensures RestoresAt(response, RestoredSnapshot(response, restore).value, Bind(SnapshotSink, response), restore)
  {
    hide RestoresAt, RestoredArray, RestoredItem, ItemSink, EachRestores, BelowArray;
    ItemsEach(restore);
    BindMeans(SnapshotSink, response);
    forall p | StringAt(response, p)
      ensures SnapshotSink(response, p) <==> BelowArray(response, "output", ItemSink, p)
    {
      SnapshotSinkIsArray(response, p);
    }
    ArrayRestored(response, "output", item => RestoredItem(item, restore), ItemSink, Bind(SnapshotSink, response),
                  restore);
  }

  lemma SnapshotSinkIsArray(response: Json, p: Path)
    ensures SnapshotSink(response, p) <==> BelowArray(response, "output", ItemSink, p)
  {
    if |p| >= 2 {
      TwoDown(response, p);
      assert p[1..][0] == p[1] && p[1..][1..] == p[2..];
      assert |p| != 5 ==> |p[2..]| != 3;
    }
  }

  lemma InnerRestored(event: Json, key: string, inner: Json -> Result<Json, SseError>, sink: (Json, Path) -> bool,
                      restore: Restore)
    requires EachRestores(inner, sink, restore) && RestoredChild(event, key, inner).Ok?
    ensures RestoresAt(event, RestoredChild(event, key, inner).value, p => ChildSink(event, key, sink, p), restore)
  {
    hide RestoresAt, EachRestores, SetAt;
    match Child(event, Key(key))
    case None => NothingRestored(event, p => ChildSink(event, key, sink, p), restore);
    case Some(c) =>
      EachAt(inner, sink, restore, c);
      ChildRestored(event, key, c, inner(c).value, Bind(sink, c), p => ChildSink(event, key, sink, p), restore);
  }

  lemma SnapshotsEach(restore: Restore)
    ensures EachRestores(response => RestoredSnapshot(response, restore), SnapshotSink, restore)
  {
    hide RestoresAt, RestoredSnapshot, SnapshotSink;
    forall j: Json | RestoredSnapshot(j, restore).Ok?
      ensures RestoresAt(j, RestoredSnapshot(j, restore).value, Bind(SnapshotSink, j), restore)
    {
      SnapshotRestored(j, restore);
    }
  }

  lemma SinkSame(before: Json, after: Json, a: Sink, b: Sink, restore: Restore)
    requires RestoresAt(before, after, a, restore) && forall p :: a(p) <==> b(p)
    ensures RestoresAt(before, after, b, restore)
  {
    hide SameShape;
  }

  /** Restoring an event changes the text of its sinks, each to what it restores to, and nothing else. */
  lemma EventRestored(eventType: string, event: Json, restore: Restore)
    requires RestoredEvent(eventType, event, restore).Ok?
    ensures RestoresAt(event, RestoredEvent(eventType, event, restore).value, p => EventSink(eventType, event, p),
                       restore)
  {
    hide RestoresAt, EachRestores, RestoredField, RestoredChild, RestoredPart, RestoredItem, RestoredSnapshot;
    hide PartSink, ItemSink, SnapshotSink, ChildSink;
    var sink := p => EventSink(eventType, event, p);
    var after := RestoredEvent(eventType, event, restore).value;
    if eventType == "response.output_text.delta" {
      FieldRestored(event, "delta", sink, restore);
    } else if eventType == "response.output_text.done" {
      FieldRestored(event, "text", sink, restore);
    } else if eventType == "response.content_part.added" || eventType == "response.content_part.done" {
      PartsEach(restore);
      InnerRestored(event, "part", part => RestoredPart(part, restore), PartSink, restore);
      SinkSame(event, after, p => ChildSink(event, "part", PartSink, p), sink, restore);
    } else if eventType == "response.output_item.added" || eventType == "response.output_item.done" {
      ItemsEach(restore);
      InnerRestored(event, "item", item => RestoredItem(item, restore), ItemSink, restore);
      SinkSame(event, after, p => ChildSink(event, "item", ItemSink, p), sink, restore);
    } else if eventType in {"response.created", "response.in_progress", "response.completed"} {
      SnapshotsEach(restore);
      InnerRestored(event, "response", response => RestoredSnapshot(response, restore), SnapshotSink, restore);
      SinkSame(event, after, p => ChildSink(event, "response", SnapshotSink, p), sink, restore);
    } else {
      NothingRestored(event, sink, restore);
    }
  }

  // ----- which events can be restored

  /** The field is a string or is not there. */
  predicate StringOrAbsent(j: Json, key: string) {
    Child(j, Key(key)).None? || Child(j, Key(key)).value.Str?
  }

  predicate PartFine(part: Json) {
    TypeOf(part) == Some("output_text") ==> StringOrAbsent(part, "text")
  }

  predicate ItemFine(item: Json) {
    TypeOf(item) == Some("message") && Child(item, Key("content")).Some? ==>
      && Child(item, Key("content")).value.Arr?
      && forall part :: part in Child(item, Key("content")).value.items ==> PartFine(part)
  }

  predicate SnapshotFine(response: Json) {
    Child(response, Key("output")).Some? ==>
      && Child(response, Key("output")).value.Arr?
      && forall item :: item in Child(response, Key("output")).value.items ==> ItemFine(item)
  }

  /** What carries display text in an event of this type is text. */
  predicate EventFine(eventType: string, event: Json) {
    if eventType == "response.output_text.delta" then StringOrAbsent(event, "delta")
    else if eventType == "response.output_text.done" then StringOrAbsent(event, "text")
    else if eventType in {"response.content_part.added", "response.content_part.done"} then
      Child(event, Key("part")).Some? ==> PartFine(Child(event, Key("part")).value)
    else if eventType in {"response.output_item.added", "response.output_item.done"} then
      Child(event, Key("item")).Some? ==> ItemFine(Child(event, Key("item")).value)
    else if eventType in {"response.created", "response.in_progress", "response.completed"} then
      Child(event, Key("response")).Some? ==> SnapshotFine(Child(event, Key("response")).value)
    else true
  }

  lemma {:induction false} EachRestored(each: Json -> Result<Json, SseError>, items: seq<Json>, n: nat)
    requires n <= |items|
    ensures RestoredAll(each, items, n).Ok? <==> forall i :: 0 <= i < n ==> each(items[i]).Ok?
    ensures RestoredAll(each, items, n).Err? ==>
              exists i :: 0 <= i < n && each(items[i]) == Err(RestoredAll(each, items, n).error)
  {
    if n > 0 {
      EachRestored(each, items, n - 1);
    }
  }

  lemma PartExactly(part: Json, restore: Restore)
    ensures RestoredPart(part, restore).Ok? <==> PartFine(part)
    ensures RestoredPart(part, restore).Err? ==> RestoredPart(part, restore).error == InvalidTextShape
  {
    hide TypeOf, SetAt;
  }

  lemma ItemExactly(item: Json, restore: Restore)
    ensures RestoredItem(item, restore).Ok? <==> ItemFine(item)
    ensures RestoredItem(item, restore).Err? ==> RestoredItem(item, restore).error == InvalidTextShape
  {
    hide TypeOf, SetAt, RestoredPart, PartFine, RestoredAll;
    forall part: Json
      ensures RestoredPart(part, restore).Ok? <==> PartFine(part)
      ensures RestoredPart(part, restore).Err? ==> RestoredPart(part, restore).error == InvalidTextShape
    {
      PartExactly(part, restore);
    }
    if Child(item, Key("content")).Some? && Child(item, Key("content")).value.Arr? {
      var items := Child(item, Key("content")).value.items;
      EachRestored(part => RestoredPart(part, restore), items, |items|);
      assert forall i :: 0 <= i < |items| ==> items[i] in items;
    }
  }

  lemma SnapshotExactly(response: Json, restore: Restore)
    ensures RestoredSnapshot(response, restore).Ok? <==> SnapshotFine(response)
    ensures RestoredSnapshot(response, restore).Err? ==> RestoredSnapshot(response, restore).error == InvalidTextShape
  {
    hide TypeOf, SetAt, RestoredItem, ItemFine, RestoredAll;
    forall item: Json
      ensures RestoredItem(item, restore).Ok? <==> ItemFine(item)
      ensures RestoredItem(item, restore).Err? ==> RestoredItem(item, restore).error == InvalidTextShape
    {
      ItemExactly(item, restore);
    }
    if Child(response, Key("output")).Some? && Child(response, Key("output")).value.Arr? {
      var items := Child(response, Key("output")).value.items;
      EachRestored(item => RestoredItem(item, restore), items, |items|);
      assert forall i :: 0 <= i < |items| ==> items[i] in items;
    }
  }

  lemma FieldExactly(j: Json, field: string, restore: Restore)
    ensures RestoredField(j, field, restore).Ok? <==> StringOrAbsent(j, field)
    ensures RestoredField(j, field, restore).Err? ==> RestoredField(j, field, restore).error == InvalidTextShape
  {
    hide SetAt;
  }

  lemma ChildExactly(j: Json, key: string, inner: Json -> Result<Json, SseError>)
    ensures RestoredChild(j, key, inner).Ok? <==> (Child(j, Key(key)).Some? ==> inner(Child(j, Key(key)).value).Ok?)
    ensures RestoredChild(j, key, inner).Err? ==>
              Child(j, Key(key)).Some? && inner(Child(j, Key(key)).value) == Err(RestoredChild(j, key, inner).error)
  {
    hide SetAt;
  }

  lemma TextEvents(eventType: string, event: Json, restore: Restore)
    requires eventType in {"response.output_text.delta", "response.output_text.done"}
    ensures RestoredEvent(eventType, event, restore).Ok? <==> EventFine(eventType, event)
    ensures RestoredEvent(eventType, event, restore).Err? ==>
              RestoredEvent(eventType, event, restore).error == InvalidTextShape
  {
    hide RestoredField, RestoredChild, RestoredPart, PartFine, RestoredItem, ItemFine, RestoredSnapshot, SnapshotFine;
    hide StringOrAbsent, Child;
    FieldExactly(event, "delta", restore);
    FieldExactly(event, "text", restore);
  }

  lemma PartEvents(eventType: string, event: Json, restore: Restore)
    requires eventType in {"response.content_part.added", "response.content_part.done"}
    ensures RestoredEvent(eventType, event, restore).Ok? <==> EventFine(eventType, event)
    ensures RestoredEvent(eventType, event, restore).Err? ==>
              RestoredEvent(eventType, event, restore).error == InvalidTextShape
  {
    hide RestoredField, RestoredChild, RestoredPart, PartFine, RestoredItem, ItemFine, RestoredSnapshot, SnapshotFine;
    hide StringOrAbsent, Child;
    ChildExactly(event, "part", part => RestoredPart(part, restore));
    if Child(event, Key("part")).Some? {
      PartExactly(Child(event, Key("part")).value, restore);
    }
  }

  lemma ItemEvents(eventType: string, event: Json, restore: Restore)
    requires eventType in {"response.output_item.added", "response.output_item.done"}
    ensures RestoredEvent(eventType, event, restore).Ok? <==> EventFine(eventType, event)
    ensures RestoredEvent(eventType, event, restore).Err? ==>
              RestoredEvent(eventType, event, restore).error == InvalidTextShape
  {
    hide RestoredField, RestoredChild, RestoredPart, PartFine, RestoredItem, ItemFine, RestoredSnapshot, SnapshotFine;
    hide StringOrAbsent, Child;
    ChildExactly(event, "item", item => RestoredItem(item, restore));
    if Child(event, Key("item")).Some? {
      ItemExactly(Child(event, Key("item")).value, restore);
    }
  }

  lemma SnapshotEvents(eventType: string, event: Json, restore: Restore)
    requires eventType in {"response.created", "response.in_progress", "response.completed"}
    ensures RestoredEvent(eventType, event, restore).Ok? <==> EventFine(eventType, event)
    ensures RestoredEvent(eventType, event, restore).Err? ==>
              RestoredEvent(eventType, event, restore).error == InvalidTextShape
  {
    hide RestoredField, RestoredChild, RestoredPart, PartFine, RestoredItem, ItemFine, RestoredSnapshot, SnapshotFine;
    hide StringOrAbsent, Child;
    ChildExactly(event, "response", response => RestoredSnapshot(response, restore));
    if Child(event, Key("response")).Some? {
      SnapshotExactly(Child(event, Key("response")).value, restore);
    }
  }

  /** An event is restored exactly if what carries display text in it is text; nothing else about it matters. */
  lemma RestoredExactly(eventType: string, event: Json, restore: Restore)
    ensures RestoredEvent(eventType, event, restore).Ok? <==> EventFine(eventType, event)
    ensures RestoredEvent(eventType, event, restore).Err? ==>
              RestoredEvent(eventType, event, restore).error == InvalidTextShape
  {
    if eventType in {"response.output_text.delta", "response.output_text.done"} {
      TextEvents(eventType, event, restore);
    } else if eventType in {"response.content_part.added", "response.content_part.done"} {
      PartEvents(eventType, event, restore);
    } else if eventType in {"response.output_item.added", "response.output_item.done"} {
      ItemEvents(eventType, event, restore);
    } else if eventType in {"response.created", "response.in_progress", "response.completed"} {
      SnapshotEvents(eventType, event, restore);
    }
  }
}
