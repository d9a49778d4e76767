/**
 * The explicit collectors against a description by position (src/payload.rs): a string of an accepted request
 * gets an explicit target exactly if its path calls for a class of its own, and then with that class. The proof goes
 * collector by collector, each compared with the strings below its base path, and puts the parts of the request
 * together.
 */
module Classification {
  import opened Domain
  import opened JsonTree
  import opened PayloadShape
  import opened Payload

  // ----- explicit targets, collector by collector

  /** `t` is the target of a string inside `j`, which sits at `base`, and `c` is that string's class. */
  ghost predicate Marks(j: Json, base: Path, c: Class, t: Target) {
    base <= t.path && StringAt(j, t.path[|base|..]) && t == At(t.path, c) && c != STRUCTURAL
  }

  function Rest(base: Path, t: Target): Path {
    if base <= t.path then t.path[|base|..] else []
  }

  lemma {:induction false} LeafTargetsExact(rule: Rule, leaves: seq<Leaf>, t: Target)
    ensures t in LeafTargets(rule, leaves) <==> exists l :: l in leaves && t in LeafTarget(rule, l)
  {
    hide LeafTarget;
    if leaves != [] {
      var n := |leaves| - 1;
      LeafTargetsExact(rule, leaves[..n], t);
      assert leaves == leaves[..n] + [leaves[n]];
    }
  }

  /** What a leaf rule makes of the string at `s`, `key` being the nearest key outside. */
  function LeafClass(rule: Rule, s: Path, key: Option<string>): Class {
    match rule
    case ToolStrings => ToolClass(NearestKey(s, key))
    case AllStrings(c) => Class(c, BlockOnly)
  }

  lemma LeafTargetClass(rule: Rule, l: Leaf, t: Target)
    requires rule.AllStrings? ==> rule.fieldClass != StructuralMetadata
    ensures t in LeafTarget(rule, l) <==>
            var c := match rule case ToolStrings => ToolClass(l.key) case AllStrings(f) => Class(f, BlockOnly);
            t == At(l.path, c) && c != STRUCTURAL
  {
  }

  lemma StringsMarked(rule: Rule, j: Json, path: Path, key: Option<string>, t: Target)
    requires UniqueKeys(j) && (rule.AllStrings? ==> rule.fieldClass != StructuralMetadata)
    ensures t in LeafTargets(rule, Leaves(j, path, key)) <==> Marks(j, path, LeafClass(rule, Rest(path, t), key), t)
  {
    hide LeafTargets, Leaves, ToolClass;
    LeafTargetsExact(rule, Leaves(j, path, key), t);
    var l := Leaf(t.path, NearestKey(Rest(path, t), key));
    LeavesExact(j, path, key, l);
    LeafTargetClass(rule, l, t);
    if t in LeafTargets(rule, Leaves(j, path, key)) {
      var m :| m in Leaves(j, path, key) && t in LeafTarget(rule, m);
      LeavesExact(j, path, key, m);
      LeafTargetClass(rule, m, t);
      assert m == l;
    }
  }

  // parts and bodies

  lemma {:induction false} PartTargetsExact(parts: seq<Json>, path: Path, c: FieldClass, kinds: set<string>, n: nat,
                                            t: Target)
    requires n <= |parts|
    ensures t in PartTargets(parts, path, c, kinds, n) <==>
            exists i :: 0 <= i < n && IsTextPart(parts[i], kinds)
              && t == At(path + [Index(i), Key("text")], Class(c, Rewrite))
  {
    hide IsTextPart;
    if n > 0 {
      PartTargetsExact(parts, path, c, kinds, n - 1, t);
    }
  }

  lemma {:induction false} AllowedKeysGet(fields: seq<Field>, allowed: set<string>, error: string -> PayloadError,
                                          key: string)
    requires EnsureAllowedKeys(fields, allowed, error).None? && key !in allowed
    ensures Get(fields, key).None?
  {
    if fields != [] {
      AllowedKeysGet(fields[1..], allowed, error, key);
    }
  }

  /** In an accepted part there is a string at `text` exactly when the part is a text part. */
  lemma PartText(part: Json, rule: PartRule)
    requires CheckPart(part, rule).None?
    ensures part.Obj? && (IsString(Get(part.fields, "text")) <==> IsTextPart(part, rule.kinds))
  {
    if !IsTextPart(part, rule.kinds) {
      AllowedKeysGet(part.fields, {"type", "encrypted_content"}, k => UnsupportedContentPartField(k), "text");
    }
  }

  lemma LocateStep(j: Json, s: Segment, rest: Path)
    ensures Locate(j, [s] + rest) == match Child(j, s) case Some(c) => Locate(c, rest) case None => None
  {
    assert ([s] + rest)[1..] == rest;
  }

  lemma StringAtField(fields: seq<Field>, field: string)
    ensures StringAt(Obj(fields), [Key(field)]) <==> IsString(Get(fields, field))
  {
    LocateStep(Obj(fields), Key(field), []);
    assert [Key(field)] + [] == [Key(field)];
  }

  lemma StringAtPart(fields: seq<Field>, field: string, i: nat)
    ensures StringAt(Obj(fields), [Key(field), Index(i), Key("text")]) <==>
            var v := Get(fields, field);
            v.Some? && v.value.Arr? && i < |v.value.items| && v.value.items[i].Obj?
              && IsString(Get(v.value.items[i].fields, "text"))
  {
    hide Locate;
    var last := [Key("text")];
    assert [Key(field), Index(i), Key("text")] == [Key(field)] + ([Index(i)] + last);
    LocateStep(Obj(fields), Key(field), [Index(i)] + last);
    match Get(fields, field)
    case Some(v) =>
      LocateStep(v, Index(i), last);
      if v.Arr? && i < |v.items| {
        assert last + [] == last;
        LocateStep(v.items[i], Key("text"), []);
        LocateNothing(v.items[i]);
      }
    case None =>
  }

  lemma LocateNothing(j: Json)
    ensures forall s :: match Child(j, s) case Some(c) => Locate(c, []) == Some(c) case None => true
  {
  }

  lemma SlotForms(field: string, base: Path, t: Target)
    requires base <= t.path
    ensures BodySlot(field, Rest(base, t)) <==>
            t.path == base + [Key(field)] || exists i: nat :: t.path == base + [Key(field)] + [Index(i), Key("text")]
  {
    var s := Rest(base, t);
    assert t.path == base + s;
    if BodySlot(field, s) && |s| == 3 {
      assert s == [Key(field)] + [Index(s[1].index), Key("text")];
      assert t.path == base + [Key(field)] + [Index(s[1].index), Key("text")];
    }
  }

  lemma BodyMarked(fields: seq<Field>, base: Path, b: Body, t: Target)
    requires BodyOk(fields, b) && b.fieldClass != StructuralMetadata
    ensures t in BodyTargets(fields, base, b) <==>
            BodySlot(b.field, Rest(base, t)) && Marks(Obj(fields), base, Class(b.fieldClass, Rewrite), t)
  {
    hide BodySlot, StringAt, IsTextPart, CheckPart;
    var c, prefix := Class(b.fieldClass, Rewrite), base + [Key(b.field)];
    if base <= t.path {
      SlotForms(b.field, base, t);
      StringAtField(fields, b.field);
      assert t.path == prefix ==> Rest(base, t) == [Key(b.field)];
      match Get(fields, b.field) {
        case Some(Arr(parts)) =>
          PartTargetsExact(parts, prefix, b.fieldClass, b.asParts.value.kinds, |parts|, t);
          if i: nat :| t.path == prefix + [Index(i), Key("text")] {
            PartSlot(fields, base, b, t, i);
          }
        case _ => NoPartSlot(fields, base, b, t);
      }
    } else {
      OutsideBody(fields, base, b, t);
    }
  }

  lemma PartSlot(fields: seq<Field>, base: Path, b: Body, t: Target, i: nat)
    requires BodyOk(fields, b) && Get(fields, b.field).Some? && Get(fields, b.field).value.Arr?
    requires base <= t.path && t.path == base + [Key(b.field)] + [Index(i), Key("text")]
    ensures StringAt(Obj(fields), Rest(base, t)) <==>
            i < |Get(fields, b.field).value.items|
              && IsTextPart(Get(fields, b.field).value.items[i], b.asParts.value.kinds)
    ensures forall k: nat :: t.path == base + [Key(b.field)] + [Index(k), Key("text")] ==> k == i
  {
    hide StringAt, IsTextPart, CheckPart;
    var parts := Get(fields, b.field).value.items;
    assert Rest(base, t) == [Key(b.field), Index(i), Key("text")];
    StringAtPart(fields, b.field, i);
    if i < |parts| {
      PartText(parts[i], b.asParts.value);
    }
    assert t.path[|base| + 1] == Index(i);
  }

  lemma NoPartSlot(fields: seq<Field>, base: Path, b: Body, t: Target)
    requires Get(fields, b.field).None? || !Get(fields, b.field).value.Arr?
    ensures forall i: nat ::
              t.path == base + [Key(b.field)] + [Index(i), Key("text")] ==> !StringAt(Obj(fields), Rest(base, t))
  {
    hide StringAt;
    forall i: nat | t.path == base + [Key(b.field)] + [Index(i), Key("text")]
      ensures !StringAt(Obj(fields), Rest(base, t))
    {
      assert Rest(base, t) == [Key(b.field), Index(i), Key("text")];
      StringAtPart(fields, b.field, i);
    }
  }

  lemma OutsideBody(fields: seq<Field>, base: Path, b: Body, t: Target)
    requires BodyOk(fields, b) && !(base <= t.path)
    ensures t !in BodyTargets(fields, base, b)
  {
    hide IsTextPart, CheckPart;
    match Get(fields, b.field)
    case Some(Arr(parts)) =>
      PartTargetsExact(parts, base + [Key(b.field)], b.fieldClass, b.asParts.value.kinds, |parts|, t);
    case _ =>
  }

  predicate DistinctBodies(bodies: seq<Body>) {
    forall i, j :: 0 <= i < j < |bodies| ==> bodies[i].field != bodies[j].field
  }

  lemma {:induction false} BodyClassExact(bodies: seq<Body>, s: Path, k: nat)
    requires DistinctBodies(bodies) && k < |bodies| && BodySlot(bodies[k].field, s)
    ensures BodyClass(bodies, s) == Class(bodies[k].fieldClass, Rewrite)
  {
    if k > 0 {
      assert bodies[0].field != bodies[k].field;
      BodyClassExact(bodies[1..], s, k - 1);
    }
  }

  lemma {:induction false} BodyClassFinds(bodies: seq<Body>, s: Path) returns (k: nat)
    requires BodyClass(bodies, s) != STRUCTURAL
    ensures k < |bodies| && BodySlot(bodies[k].field, s)
  {
    if BodySlot(bodies[0].field, s) {
      k := 0;
    } else {
      var m := BodyClassFinds(bodies[1..], s);
      k := m + 1;
    }
  }

  lemma {:induction false} AllBodyTargetsExact(fields: seq<Field>, base: Path, bodies: seq<Body>, n: nat, t: Target)
    requires n <= |bodies|
    ensures t in AllBodyTargets(fields, base, bodies, n) <==>
              exists k :: 0 <= k < n && t in BodyTargets(fields, base, bodies[k])
  {
    hide BodyTargets;
    if n > 0 {
      AllBodyTargetsExact(fields, base, bodies, n - 1, t);
    }
  }

  lemma BodiesShape(kind: string)
    ensures DistinctBodies(Bodies(kind))
    ensures forall k :: 0 <= k < |Bodies(kind)| ==> Bodies(kind)[k].fieldClass != StructuralMetadata
  {
  }

  lemma BodiesMarked(fields: seq<Field>, base: Path, bodies: seq<Body>, t: Target)
    requires DistinctBodies(bodies)
    requires forall k :: 0 <= k < |bodies| ==> BodyOk(fields, bodies[k]) && bodies[k].fieldClass != StructuralMetadata
    ensures t in AllBodyTargets(fields, base, bodies, |bodies|) <==>
              Marks(Obj(fields), base, BodyClass(bodies, Rest(base, t)), t)
  {
    hide BodyTargets, BodyOk, BodySlot, BodyClass;
    AllBodyTargetsExact(fields, base, bodies, |bodies|, t);
    var s := Rest(base, t);
    if t in AllBodyTargets(fields, base, bodies, |bodies|) {
      var k :| 0 <= k < |bodies| && t in BodyTargets(fields, base, bodies[k]);
      BodyMarked(fields, base, bodies[k], t);
      BodyClassExact(bodies, s, k);
    }
    if Marks(Obj(fields), base, BodyClass(bodies, s), t) {
      var k := BodyClassFinds(bodies, s);
      BodyClassExact(bodies, s, k);
      BodyMarked(fields, base, bodies[k], t);
    }
  }

  // structural items

  lemma {:induction false} StructuralExact(fields: seq<Field>, base: Path, n: nat, t: Target)
    requires n <= |fields|
    ensures t in StructuralTargets(fields, base, n) <==>
            exists i :: 0 <= i < n && !IsSkippedItemKey(fields[i].key)
                        && t in LeafTargets(AllStrings(FunctionArguments),
                                            Leaves(fields[i].value, base + [Key(fields[i].key)], Some(fields[i].key)))
  {
    hide IsSkippedItemKey, LeafTargets, Leaves;
    if n > 0 {
      StructuralExact(fields, base, n - 1, t);
    }
  }

  lemma StructuralMarked(fields: seq<Field>, base: Path, t: Target)
    requires UniqueKeys(Obj(fields))
    ensures t in StructuralTargets(fields, base, |fields|) <==>
            var s := Rest(base, t);
            && s != [] && s[0].Key? && !IsSkippedItemKey(s[0].key)
            && Marks(Obj(fields), base, Class(FunctionArguments, BlockOnly), t)
  {
    hide IsSkippedItemKey, LeafTargets, Leaves, StructuralTargets, Marks, UniqueKeys;
    StructuralExact(fields, base, |fields|, t);
    forall i | 0 <= i < |fields|
      ensures t in LeafTargets(AllStrings(FunctionArguments),
                               Leaves(fields[i].value, base + [Key(fields[i].key)], Some(fields[i].key))) <==>
              base + [Key(fields[i].key)] <= t.path && Marks(Obj(fields), base, Class(FunctionArguments, BlockOnly), t)
    {
      FieldMarked(fields, base, i, t);
    }
    if Marks(Obj(fields), base, Class(FunctionArguments, BlockOnly), t) {
      HeadExists(fields, base, Class(FunctionArguments, BlockOnly), t);
    }
    forall i | 0 <= i < |fields| && base + [Key(fields[i].key)] <= t.path
      ensures Rest(base, t) != [] && Rest(base, t)[0] == Key(fields[i].key)
    {
      StepInto(Obj(fields), base, Key(fields[i].key), t);
    }
  }

  lemma HeadExists(fields: seq<Field>, base: Path, c: Class, t: Target)
    requires Marks(Obj(fields), base, c, t)
    ensures Rest(base, t) != [] && Rest(base, t)[0].Key?
    ensures exists i ::
              0 <= i < |fields| && base + [Key(fields[i].key)] <= t.path && Rest(base, t)[0] == Key(fields[i].key)
  {
    var s := Rest(base, t);
    RestHead(base, t);
    var i := GetFinds(fields, s[0].key);
  }

  lemma RestHead(base: Path, t: Target)
    requires base <= t.path && Rest(base, t) != []
    ensures base + [Rest(base, t)[0]] <= t.path
  {
    var s := Rest(base, t);
    assert t.path == base + s && s == [s[0]] + s[1..];
    assert t.path == (base + [s[0]]) + s[1..];
  }

  lemma FieldMarked(fields: seq<Field>, base: Path, i: nat, t: Target)
    requires UniqueKeys(Obj(fields)) && i < |fields|
    ensures t in LeafTargets(AllStrings(FunctionArguments),
                             Leaves(fields[i].value, base + [Key(fields[i].key)], Some(fields[i].key))) <==>
            base + [Key(fields[i].key)] <= t.path && Marks(Obj(fields), base, Class(FunctionArguments, BlockOnly), t)
  {
    hide LeafTargets, Leaves;
    var f := fields[i];
    StringsMarked(AllStrings(FunctionArguments), f.value, base + [Key(f.key)], Some(f.key), t);
    GetAt(fields, i);
    if base + [Key(f.key)] <= t.path {
      StepInto(Obj(fields), base, Key(f.key), t);
    }
  }

  /** A string below a child is the same string seen from the parent. */
  lemma StepInto(j: Json, base: Path, s: Segment, t: Target)
    requires base + [s] <= t.path
    ensures base <= t.path && Rest(base, t) == [s] + Rest(base + [s], t)
    ensures Child(j, s).Some? ==> (StringAt(j, Rest(base, t)) <==> StringAt(Child(j, s).value, Rest(base + [s], t)))
    ensures Child(j, s).None? ==> !StringAt(j, Rest(base, t))
  {
    var r := Rest(base + [s], t);
    assert t.path == base + [s] + r;
    assert t.path == base + ([s] + r);
    assert ([s] + r)[1..] == r;
  }

  // a whole item

  lemma ItemMarked(item: Json, base: Path, t: Target)
    requires ItemOk(item) && UniqueKeys(item)
    ensures t in ItemTargets(item, base) <==>
            Marks(item, base, ItemClass(TextOf(Get(item.fields, "type")).value, Rest(base, t)), t)
  {
    hide CheckItemFields, BodyOk, Bodies, BodyClass, LeafTargets, Leaves, StructuralTargets, AllBodyTargets;
    hide IsSkippedItemKey, ToolClass, UniqueKeys;
    var kind, fields := TextOf(Get(item.fields, "type")).value, item.fields;
    if kind == "additional_tools" {
      ToolsMarked(item, base, t);
    } else if IsStructuralKind(kind) {
      StructuralMarked(fields, base, t);
    } else {
      BodiesShape(kind);
      BodiesMarked(fields, base, Bodies(kind), t);
    }
  }

  /** The strings of the array in the `tools` field of `j`. */
  lemma ToolsMarked(j: Json, base: Path, t: Target)
    requires j.Obj? && UniqueKeys(j) && Get(j.fields, "tools").Some?
    ensures var s := Rest(base, t);
            t in LeafTargets(ToolStrings, Leaves(Get(j.fields, "tools").value, base + [Key("tools")], None)) <==>
            s != [] && s[0] == Key("tools") && Marks(j, base, ToolClass(NearestKey(s[1..], None)), t)
  {
    hide LeafTargets, Leaves, ToolClass;
    var tools, path := Get(j.fields, "tools").value, base + [Key("tools")];
    var i := GetFinds(j.fields, "tools");
    StringsMarked(ToolStrings, tools, path, None, t);
    if path <= t.path {
      StepInto(j, base, Key("tools"), t);
      assert Rest(base, t)[1..] == Rest(path, t);
    } else if base <= t.path && Rest(base, t) != [] {
      RestHead(base, t);
    }
  }

  // ----- the whole request: which targets are collected before the catch-all pass

  /** A string inside the value at `base` of `j` is a string of `j`. */
  lemma MarksInside(j: Json, base: Path, inner: Json, c: Class, t: Target)
    requires Locate(j, base) == Some(inner)
    ensures Marks(inner, base, c, t) <==> base <= t.path && Marks(j, [], c, t)
  {
    if base <= t.path {
      LocateConcat(j, base, t.path[|base|..]);
      var none: Path := [];
      assert base + t.path[|base|..] == t.path && t.path[|none|..] == t.path;
    }
  }

  lemma {:induction false} InputExact(items: seq<Json>, n: nat, t: Target)
    requires n <= |items| && forall i :: 0 <= i < n ==> ItemOk(items[i])
    ensures t in InputTargets(items, n) <==>
              exists i :: 0 <= i < n && t in ItemTargets(items[i], [Key("input"), Index(i)])
  {
    hide ItemTargets, ItemOk;
    if n > 0 {
      InputExact(items, n - 1, t);
    }
  }

  /** The target of a string at or below the given root field. */
  predicate Under(field: string, t: Target) { t.path != [] && t.path[0] == Key(field) }

  lemma InputItemAt(root: Json, items: seq<Json>, i: nat)
    requires root.Obj? && Get(root.fields, "input") == Some(Arr(items))
    ensures Locate(root, [Key("input"), Index(i)]) == if i < |items| then Some(items[i]) else None
  {
    assert [Key("input"), Index(i)] == [Key("input")] + ([Index(i)] + []);
    LocateStep(root, Key("input"), [Index(i)] + []);
    LocateStep(Arr(items), Index(i), []);
  }

  lemma ItemUnique(root: Json, items: seq<Json>, i: nat)
    requires root.Obj? && UniqueKeys(root) && Get(root.fields, "input") == Some(Arr(items)) && i < |items|
    ensures UniqueKeys(items[i])
  {
    var k := GetFinds(root.fields, "input");
  }

  lemma ItemInRoot(root: Json, items: seq<Json>, i: nat, t: Target)
    requires root.Obj? && UniqueKeys(root) && Get(root.fields, "input") == Some(Arr(items)) && i < |items|
    requires ItemOk(items[i])
    ensures t in ItemTargets(items[i], [Key("input"), Index(i)]) <==>
            [Key("input"), Index(i)] <= t.path && Marks(root, [], Classify(root, t.path), t)
  {
    hide ItemOk, ItemTargets, ItemClass, Locate, Marks, UniqueKeys, Get;
    var base := [Key("input"), Index(i)];
    InputItemAt(root, items, i);
    ItemUnique(root, items, i);
    ItemMarked(items[i], base, t);
    ItemIsTyped(items[i]);
    var c := ItemClass(TextOf(Get(items[i].fields, "type")).value, Rest(base, t));
    MarksInside(root, base, items[i], c, t);
    if base <= t.path {
      assert t.path[..2] == base;
      assert Classify(root, t.path) == c;
    } else {
      NotMarkedOutside(items[i], base, c, t);
    }
  }

  lemma ItemIsTyped(item: Json)
    requires ItemOk(item)
    ensures item.Obj? && IsString(Get(item.fields, "type"))
  {
  }

  lemma NotMarkedOutside(j: Json, base: Path, c: Class, t: Target)
    requires !(base <= t.path)
    ensures !Marks(j, base, c, t)
  {
  }

  lemma MarksAtRoot(root: Json, c: Class, t: Target)
    ensures Marks(root, [], c, t) <==> StringAt(root, t.path) && t == At(t.path, c) && c != STRUCTURAL
  {
    var none: Path := [];
    assert t.path[|none|..] == t.path;
  }

  lemma InputMarked(root: Json, items: seq<Json>, t: Target)
    requires root.Obj? && UniqueKeys(root) && Get(root.fields, "input") == Some(Arr(items))
    requires forall i :: 0 <= i < |items| ==> ItemOk(items[i])
    ensures t in InputTargets(items, |items|) <==> Under("input", t) && Marks(root, [], Classify(root, t.path), t)
  {
    hide ItemOk, ItemTargets, Classify, Marks, UniqueKeys, InputTargets, Get;
    InputExact(items, |items|, t);
    if t in InputTargets(items, |items|) {
      var i :| 0 <= i < |items| && t in ItemTargets(items[i], [Key("input"), Index(i)]);
      ItemInRoot(root, items, i, t);
    }
    if Under("input", t) && Marks(root, [], Classify(root, t.path), t) {
      var i := InputPath(root, items, t);
      ItemInRoot(root, items, i, t);
    }
  }

  /** When `input` is an array, every string under it is inside one of its items. */
  lemma InputPath(root: Json, items: seq<Json>, t: Target) returns (i: nat)
    requires root.Obj? && Get(root.fields, "input") == Some(Arr(items)) && Under("input", t)
    requires Marks(root, [], Classify(root, t.path), t)
    ensures i < |items| && [Key("input"), Index(i)] <= t.path
  {
    hide Classify;
    MarksAtRoot(root, Classify(root, t.path), t);
    assert t.path == [t.path[0]] + t.path[1..];
    LocateStep(root, t.path[0], t.path[1..]);
    i := t.path[1].index;
  }

  lemma {:induction false} MetadataExact(m: seq<Field>, n: nat, t: Target)
    requires n <= |m|
    ensures t in MetadataTargets(m, n) <==>
            exists i :: 0 <= i < n && t == At([Key("client_metadata"), Key(m[i].key)], Class(ClientMetadata, BlockOnly))
  {
    if n > 0 {
      MetadataExact(m, n - 1, t);
    }
  }

  lemma StringAtNested(fields: seq<Field>, outer: string, inner: string)
    ensures StringAt(Obj(fields), [Key(outer), Key(inner)]) <==>
            var v := Get(fields, outer); v.Some? && v.value.Obj? && IsString(Get(v.value.fields, inner))
  {
    assert [Key(outer), Key(inner)] == [Key(outer)] + ([Key(inner)] + []);
    LocateStep(Obj(fields), Key(outer), [Key(inner)] + []);
    match Get(fields, outer)
    case Some(v) => LocateStep(v, Key(inner), []);
    case None =>
  }

  lemma MetadataMarked(root: Json, m: seq<Field>, t: Target)
    requires root.Obj? && UniqueKeys(root) && Get(root.fields, "client_metadata") == Some(Obj(m))
    requires forall i :: 0 <= i < |m| ==> m[i].value.Str?
    ensures t in MetadataTargets(m, |m|) <==> Under("client_metadata", t) && Marks(root, [], Classify(root, t.path), t)
  {
    hide UniqueKeys, Locate, Classify, Marks, MetadataTargets, StringAt;
    MetadataExact(m, |m|, t);
    MarksAtRoot(root, Classify(root, t.path), t);
    if Under("client_metadata", t) {
      ClassifyMetadata(root, t);
      if |t.path| == 2 && t.path[1].Key? {
        assert t.path == [Key("client_metadata"), Key(t.path[1].key)];
        StringAtNested(root.fields, "client_metadata", t.path[1].key);
        MetadataUnique(root, m);
        MetadataKey(m, t.path[1].key);
      }
    }
  }

  lemma ClassifyMetadata(root: Json, t: Target)
    requires Under("client_metadata", t)
    ensures Classify(root, t.path)
         == if |t.path| == 2 && t.path[1].Key? then Class(ClientMetadata, BlockOnly) else STRUCTURAL
  {
  }

  lemma MetadataUnique(root: Json, m: seq<Field>)
    requires root.Obj? && UniqueKeys(root) && Get(root.fields, "client_metadata") == Some(Obj(m))
    ensures DistinctKeys(m)
  {
    var k := GetFinds(root.fields, "client_metadata");
    assert UniqueKeys(root.fields[k].value);
  }

  lemma MetadataKey(m: seq<Field>, key: string)
    requires DistinctKeys(m) && forall i :: 0 <= i < |m| ==> m[i].value.Str?
    ensures IsString(Get(m, key)) <==> exists i :: 0 <= i < |m| && m[i].key == key
  {
    if Get(m, key).Some? {
      var i := GetFinds(m, key);
    }
    if i :| 0 <= i < |m| && m[i].key == key {
      GetAt(m, i);
    }
  }

  /** A single string field of the root. */
  lemma FieldOfRootMarked(root: Json, field: string, c: Class, t: Target)
    requires root.Obj? && IsString(Get(root.fields, field)) && c != STRUCTURAL
    ensures t == At([Key(field)], c) <==> Under(field, t) && Marks(root, [], c, t)
  {
    var none: Path := [];
    assert t.path[|none|..] == t.path;
    StringAtField(root.fields, field);
    if Under(field, t) && Marks(root, [], c, t) {
      assert t.path == [t.path[0]] + t.path[1..];
      LocateStep(root, t.path[0], t.path[1..]);
      OnlyHere(Get(root.fields, field).value, t.path[1..]);
    }
  }

  /** A string has nothing below it. */
  lemma OnlyHere(j: Json, path: Path)
    requires j.Str? && Locate(j, path).Some?
    ensures path == []
  {
  }

  lemma NoFieldNoMark(root: Json, field: string, c: Class, t: Target)
    requires root.Obj? && Get(root.fields, field).None? && Under(field, t)
    ensures !Marks(root, [], c, t)
  {
    var none: Path := [];
    assert t.path[|none|..] == t.path == [t.path[0]] + t.path[1..];
    LocateStep(root, t.path[0], t.path[1..]);
  }

  lemma InstructionsPartMarked(root: Json, t: Target)
    requires Accepted(root)
    ensures t in InstructionsPart(root) <==> Under("instructions", t) && Marks(root, [], Classify(root, t.path), t)
  {
    hide CheckControls, ItemOk, UniqueKeys, Marks;
    AcceptedMeans(root);
    var c := Class(Instructions, Rewrite);
    if Get(root.fields, "instructions").Some? {
      FieldOfRootMarked(root, "instructions", c, t);
      if Under("instructions", t) {
        UnderInstructions(root, t);
      }
    } else if Under("instructions", t) {
      NoFieldNoMark(root, "instructions", Classify(root, t.path), t);
    }
  }

  lemma UnderInstructions(root: Json, t: Target)
    requires Under("instructions", t)
    ensures t.path == [Key("instructions")] ==> Classify(root, t.path) == Class(Instructions, Rewrite)
    ensures t.path != [Key("instructions")] ==> Classify(root, t.path) == STRUCTURAL
    ensures !Marks(root, [], STRUCTURAL, t)
    ensures t.path != [Key("instructions")] ==> t != At([Key("instructions")], Class(Instructions, Rewrite))
  {
  }

  lemma UnderInputString(root: Json, t: Target)
    requires root.Obj? && IsString(Get(root.fields, "input")) && Under("input", t)
    ensures Marks(root, [], Classify(root, t.path), t) <==> Marks(root, [], Class(MessageText, Rewrite), t)
  {
    hide ItemClass;
    var none: Path := [];
    assert t.path[|none|..] == t.path == [t.path[0]] + t.path[1..];
    LocateStep(root, t.path[0], t.path[1..]);
    if Locate(root, t.path).Some? {
      OnlyHere(Get(root.fields, "input").value, t.path[1..]);
    }
  }

  lemma InputPartMarked(root: Json, t: Target)
    requires Accepted(root)
    ensures t in InputPart(root) <==> Under("input", t) && Marks(root, [], Classify(root, t.path), t)
  {
    hide CheckControls, ItemOk, UniqueKeys, Marks, Classify, InputTargets;
    AcceptedMeans(root);
    match Get(root.fields, "input")
    case Some(Str(_)) =>
      FieldOfRootMarked(root, "input", Class(MessageText, Rewrite), t);
      if Under("input", t) {
        UnderInputString(root, t);
      }
    case Some(Arr(items)) => InputMarked(root, items, t);
  }

  lemma ToolsPartMarked(root: Json, t: Target)
    requires Accepted(root)
    ensures t in ToolsPart(root) <==> Under("tools", t) && Marks(root, [], Classify(root, t.path), t)
  {
    hide CheckControls, ItemOk, UniqueKeys, Marks, LeafTargets, Leaves, ToolClass;
    AcceptedMeans(root);
    var none: Path := [];
    assert none + [Key("tools")] == [Key("tools")];
    assert Rest(none, t) == t.path;
    if Get(root.fields, "tools").Some? {
      ToolsMarked(root, none, t);
    } else if Under("tools", t) {
      NoFieldNoMark(root, "tools", Classify(root, t.path), t);
    }
  }

  lemma MetadataPartMarked(root: Json, t: Target)
    requires Accepted(root)
    ensures t in MetadataPart(root) <==> Under("client_metadata", t) && Marks(root, [], Classify(root, t.path), t)
  {
    hide CheckControls, ItemOk, UniqueKeys, Marks, Classify;
    AcceptedMeans(root);
    match Get(root.fields, "client_metadata")
    case Some(Obj(m)) => MetadataMarked(root, m, t);
    case None =>
      if Under("client_metadata", t) {
        NoFieldNoMark(root, "client_metadata", Classify(root, t.path), t);
      }
  }

  lemma ExplicitHeads(root: Json, t: Target)
    requires root.Obj? && Marks(root, [], Classify(root, t.path), t)
    ensures Under("instructions", t) || Under("input", t) || Under("tools", t) || Under("client_metadata", t)
  {
  }

  /** The collectors' targets are exactly the strings whose position gives them a class of their own. */
  lemma ExplicitMarked(root: Json, t: Target)
    requires Accepted(root)
    ensures t in ExplicitTargets(root) <==> Marks(root, [], Classify(root, t.path), t)
  {
    hide Accepted, Marks, Classify, InstructionsPart, InputPart, ToolsPart, MetadataPart, ExplicitTargets;
    AcceptedIsObject(root);
    ExplicitParts(root);
    InstructionsPartMarked(root, t);
    InputPartMarked(root, t);
    ToolsPartMarked(root, t);
    MetadataPartMarked(root, t);
    if Marks(root, [], Classify(root, t.path), t) {
      ExplicitHeads(root, t);
    }
  }

  lemma AcceptedIsObject(root: Json)
    requires Accepted(root)
    ensures root.Obj? && UniqueKeys(root)
  {
    AcceptedMeans(root);
  }
}
