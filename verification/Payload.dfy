/**
 * The request adapter (src/payload.rs): collectors that turn an accepted request into scan targets. Each
 * collector is a method that walks the tree and pushes onto a growing vector, next to a function that says
 * what it pushes; the catch-all pass at the end adds a target for every string and every key not covered before.
 */
module Payload {
  import opened Domain
  import opened JsonTree
  import opened PayloadShape

  /** A literal target carries its text itself; any other target names a string by its path. */
  datatype Target = Target(path: Path, structural: Option<string>, fieldClass: FieldClass, mode: RewriteMode)

  function At(path: Path, c: Class): Target { Target(path, None, c.fieldClass, c.mode) }

  function StructuralLiteral(key: string): Target { Target([], Some(key), StructuralMetadata, BlockOnly) }

  // ----- what each collector pushes

  /** How one string leaf is turned into at most one target. */
  datatype Rule = ToolStrings | AllStrings(fieldClass: FieldClass)

  function LeafTarget(rule: Rule, l: Leaf): seq<Target> {
    match rule
    case ToolStrings => if ToolClass(l.key) == STRUCTURAL then [] else [At(l.path, ToolClass(l.key))]
    case AllStrings(c) => [At(l.path, Class(c, BlockOnly))]
  }

  function LeafTargets(rule: Rule, leaves: seq<Leaf>): seq<Target> {
    if leaves == [] then []
    else LeafTargets(rule, leaves[..|leaves| - 1]) + LeafTarget(rule, leaves[|leaves| - 1])
  }

  lemma {:induction false} LeafTargetsConcat(rule: Rule, a: seq<Leaf>, b: seq<Leaf>)
    ensures LeafTargets(rule, a + b) == LeafTargets(rule, a) + LeafTargets(rule, b)
  {
    hide LeafTarget;
    if b == [] {
      assert a + b == a;
    } else {
      var n := |b| - 1;
      LeafTargetsConcat(rule, a, b[..n]);
      var c := a + b;
      assert c[..|c| - 1] == a + b[..n] && c[|c| - 1] == b[n];
      var x, y, z := LeafTargets(rule, a), LeafTargets(rule, b[..n]), LeafTarget(rule, b[n]);
      assert (x + y) + z == x + (y + z);
    }
  }

  function PartTargets(parts: seq<Json>, path: Path, c: FieldClass, kinds: set<string>, n: nat): seq<Target>
    requires n <= |parts|
  {
    if n == 0 then []
    else
      PartTargets(parts, path, c, kinds, n - 1)
      + (if IsTextPart(parts[n - 1], kinds) then [At(path + [Index(n - 1), Key("text")], Class(c, Rewrite))] else [])
  }

  function BodyTargets(fields: seq<Field>, base: Path, b: Body): seq<Target> {
    match Get(fields, b.field)
    case Some(Str(_)) => [At(base + [Key(b.field)], Class(b.fieldClass, Rewrite))]
    case Some(Arr(parts)) =>
      if b.asParts.None? then []
      else PartTargets(parts, base + [Key(b.field)], b.fieldClass, b.asParts.value.kinds, |parts|)
    case _ => []
  }

  function AllBodyTargets(fields: seq<Field>, base: Path, bodies: seq<Body>, n: nat): seq<Target>
    requires n <= |bodies|
  {
    if n == 0 then [] else AllBodyTargets(fields, base, bodies, n - 1) + BodyTargets(fields, base, bodies[n - 1])
  }

  function StructuralTargets(fields: seq<Field>, base: Path, n: nat): seq<Target>
    requires n <= |fields|
  {
    if n == 0 then []
    else
      var f := fields[n - 1];
      StructuralTargets(fields, base, n - 1)
      + (if IsSkippedItemKey(f.key) then []
         else LeafTargets(AllStrings(FunctionArguments), Leaves(f.value, base + [Key(f.key)], Some(f.key))))
  }

  function ItemTargets(item: Json, base: Path): seq<Target> {
    if !item.Obj? || !IsString(Get(item.fields, "type")) then []
    else
      var kind := TextOf(Get(item.fields, "type")).value;
      if kind == "additional_tools" then
        (match Get(item.fields, "tools")
         case Some(tools) => LeafTargets(ToolStrings, Leaves(tools, base + [Key("tools")], None))
         case None => [])
      else if IsStructuralKind(kind) then StructuralTargets(item.fields, base, |item.fields|)
      else AllBodyTargets(item.fields, base, Bodies(kind), |Bodies(kind)|)
  }

  function InputTargets(items: seq<Json>, n: nat): seq<Target>
    requires n <= |items|
  {
    if n == 0 then [] else InputTargets(items, n - 1) + ItemTargets(items[n - 1], [Key("input"), Index(n - 1)])
  }

  function MetadataTargets(m: seq<Field>, n: nat): seq<Target>
    requires n <= |m|
  {
    if n == 0 then []
    else MetadataTargets(m, n - 1) + [At([Key("client_metadata"), Key(m[n - 1].key)], Class(ClientMetadata, BlockOnly))]
  }

  function InstructionsPart(root: Json): seq<Target>
    requires root.Obj?
  {
    if Get(root.fields, "instructions").Some? then [At([Key("instructions")], Class(Instructions, Rewrite))] else []
  }

  function InputPart(root: Json): seq<Target>
    requires root.Obj?
  {
    match Get(root.fields, "input")
    case Some(Str(_)) => [At([Key("input")], Class(MessageText, Rewrite))]
    case Some(Arr(items)) => InputTargets(items, |items|)
    case _ => []
  }

  function ToolsPart(root: Json): seq<Target>
    requires root.Obj?
  {
    match Get(root.fields, "tools")
    case Some(tools) => LeafTargets(ToolStrings, Leaves(tools, [Key("tools")], None))
    case None => []
  }

  function MetadataPart(root: Json): seq<Target>
    requires root.Obj?
  {
    match Get(root.fields, "client_metadata")
    case Some(Obj(m)) => MetadataTargets(m, |m|)
    case _ => []
  }

  /** The collectors, in the order in which `parse` runs them. */
  datatype Stage = InstructionsStage | InputStage | ToolsStage | MetadataStage

  const STAGES: seq<Stage> := [InstructionsStage, InputStage, ToolsStage, MetadataStage]

  function StageTargets(root: Json, s: Stage): seq<Target>
    requires root.Obj?
  {
    match s
    case InstructionsStage => InstructionsPart(root)
    case InputStage => InputPart(root)
    case ToolsStage => ToolsPart(root)
    case MetadataStage => MetadataPart(root)
  }

  function Collected(root: Json, stages: seq<Stage>): seq<Target>
    requires root.Obj?
  {
    if stages == [] then [] else Collected(root, stages[..|stages| - 1]) + StageTargets(root, stages[|stages| - 1])
  }

  /** The targets pushed before the catch-all pass. */
  function ExplicitTargets(root: Json): seq<Target> {
    if root.Obj? then Collected(root, STAGES) else []
  }

  lemma ExplicitParts(root: Json)
    requires root.Obj?
    ensures ExplicitTargets(root) == InstructionsPart(root) + InputPart(root) + ToolsPart(root) + MetadataPart(root)
  {
    hide InstructionsPart, InputPart, ToolsPart, MetadataPart;
    var a, b, c := STAGES[..1], STAGES[..2], STAGES[..3];
    assert a[..0] == [] && b[..1] == a && c[..2] == b;
    assert Collected(root, []) == [];
    assert Collected(root, a) == InstructionsPart(root);
    assert Collected(root, b) == Collected(root, a) + InputPart(root);
    assert Collected(root, c) == Collected(root, b) + ToolsPart(root);
  }

  predicate Tracked(targets: seq<Target>, path: Path) {
    exists t :: t in targets && t.path == path
  }

  /** The catch-all pass: a literal for every key, a structural target for every string not yet tracked. */
  function Untracked(j: Json, path: Path, targets: seq<Target>): seq<Target>
    decreases j, 0
  {
    match j
    case Str(_) => if Tracked(targets, path) then [] else [At(path, STRUCTURAL)]
    case Arr(items) => UntrackedItems(items, path, targets, |items|)
    case Obj(fields) => UntrackedFields(fields, path, targets, |fields|)
    case _ => []
  }

  function UntrackedItems(items: seq<Json>, path: Path, targets: seq<Target>, n: nat): seq<Target>
    requires n <= |items|
    decreases items, n
  {
    if n == 0 then []
    else UntrackedItems(items, path, targets, n - 1) + Untracked(items[n - 1], path + [Index(n - 1)], targets)
  }

  function UntrackedFields(fields: seq<Field>, path: Path, targets: seq<Target>, n: nat): seq<Target>
    requires n <= |fields|
    decreases fields, n
  {
    if n == 0 then []
    else
      var f := fields[n - 1];
      UntrackedFields(fields, path, targets, n - 1) + [StructuralLiteral(f.key)]
        + Untracked(f.value, path + [Key(f.key)], targets)
  }

  // ----- the collectors

  method CollectLeaves(value: Json, path: Path, key: Option<string>, rule: Rule,
                       targets: seq<Target>) returns (all: seq<Target>)
    ensures all == targets + LeafTargets(rule, Leaves(value, path, key))
    decreases value
  {
    hide LeafTargets, LeafTarget;
    all := targets;
    match value {
      case Str(_) =>
        LeafTargetsOfOne(rule, Leaf(path, key));
        all := all + LeafTarget(rule, Leaf(path, key));
      case Arr(items) =>
        LeafTargetsOfNone(rule, targets);
        for i := 0 to |items|
          invariant all == targets + LeafTargets(rule, ItemLeaves(items, path, key, i))
        {
          all := CollectLeaves(items[i], path + [Index(i)], key, rule, all);
          LeafTargetsAppend(rule, targets, ItemLeaves(items, path, key, i), Leaves(items[i], path + [Index(i)], key));
        }
      case Obj(fields) =>
        LeafTargetsOfNone(rule, targets);
        for i := 0 to |fields|
          invariant all == targets + LeafTargets(rule, FieldLeaves(fields, path, i))
        {
          var f := fields[i];
          all := CollectLeaves(f.value, path + [Key(f.key)], Some(f.key), rule, all);
          LeafTargetsAppend(rule, targets, FieldLeaves(fields, path, i),
                            Leaves(f.value, path + [Key(f.key)], Some(f.key)));
        }
      case _ => LeafTargetsOfNone(rule, targets);
    }
  }

  lemma LeafTargetsOfOne(rule: Rule, l: Leaf)
    ensures LeafTargets(rule, [l]) == LeafTarget(rule, l)
  {
    assert [l][..0] == [];
  }

  lemma LeafTargetsOfNone(rule: Rule, targets: seq<Target>)
    ensures targets + LeafTargets(rule, []) == targets
  {
  }

  lemma LeafTargetsAppend(rule: Rule, targets: seq<Target>, a: seq<Leaf>, b: seq<Leaf>)
    ensures targets + LeafTargets(rule, a) + LeafTargets(rule, b) == targets + LeafTargets(rule, a + b)
  {
    LeafTargetsConcat(rule, a, b);
  }

  /** The loop over a content array; stops at the first unsupported part. */
  method CollectParts(parts: seq<Json>, path: Path, c: FieldClass, rule: PartRule, targets: seq<Target>)
    returns (error: Check, all: seq<Target>)
    ensures error.None? <==> PartsOk(parts, rule)
    ensures error.None? ==> all == targets + PartTargets(parts, path, c, rule.kinds, |parts|)
  {
    all := targets;
    for i := 0 to |parts|
      invariant forall k :: 0 <= k < i ==> CheckPart(parts[k], rule).None?
      invariant all == targets + PartTargets(parts, path, c, rule.kinds, i)
    {
      error := CheckPart(parts[i], rule);
      if error.Some? {
        return;
      }
      if IsTextPart(parts[i], rule.kinds) {
        all := all + [At(path + [Index(i), Key("text")], Class(c, Rewrite))];
      }
    }
    error := None;
  }

  method CollectBody(fields: seq<Field>, base: Path, b: Body, targets: seq<Target>)
    returns (error: Check, all: seq<Target>)
    ensures error.None? <==> BodyOk(fields, b)
    ensures error.None? ==> all == targets + BodyTargets(fields, base, b)
  {
    all := targets;
    error := None;
    match Get(fields, b.field) {
      case None => error := if b.optional then None else Some(MissingField(b.field));
      case Some(Null) => error := if b.optional then None else Some(InvalidFieldType(b.field));
      case Some(Str(_)) =>
        if b.asString {
          all := all + [At(base + [Key(b.field)], Class(b.fieldClass, Rewrite))];
        } else {
          error := Some(InvalidFieldType(b.field));
        }
      case Some(Arr(parts)) =>
        if b.asParts.Some? {
          error, all := CollectParts(parts, base + [Key(b.field)], b.fieldClass, b.asParts.value, targets);
        } else {
          error := Some(InvalidFieldType(b.field));
        }
      case Some(_) => error := Some(InvalidFieldType(b.field));
    }
  }

  method CollectBodies(fields: seq<Field>, base: Path, bodies: seq<Body>, targets: seq<Target>)
    returns (error: Check, all: seq<Target>)
    ensures error.None? <==> forall k :: 0 <= k < |bodies| ==> BodyOk(fields, bodies[k])
    ensures error.None? ==> all == targets + AllBodyTargets(fields, base, bodies, |bodies|)
  {
    hide BodyTargets, BodyOk;
    all := targets;
    for i := 0 to |bodies|
      invariant forall k :: 0 <= k < i ==> BodyOk(fields, bodies[k])
      invariant all == targets + AllBodyTargets(fields, base, bodies, i)
    {
      error, all := CollectBody(fields, base, bodies[i], all);
      if error.Some? {
        return;
      }
    }
    error := None;
  }

  method CollectStructuralItem(fields: seq<Field>, base: Path, targets: seq<Target>) returns (all: seq<Target>)
    ensures all == targets + StructuralTargets(fields, base, |fields|)
  {
    hide LeafTargets, Leaves, IsSkippedItemKey;
    all := targets;
    for i := 0 to |fields|
      invariant all == targets + StructuralTargets(fields, base, i)
    {
      var f := fields[i];
      if !IsSkippedItemKey(f.key) {
        all := CollectLeaves(f.value, base + [Key(f.key)], Some(f.key), AllStrings(FunctionArguments), all);
      }
    }
  }

  method CollectInputItem(item: Json, base: Path, targets: seq<Target>) returns (error: Check, all: seq<Target>)
    ensures error.None? <==> ItemOk(item)
    ensures error.None? ==> all == targets + ItemTargets(item, base)
  {
    hide CheckItemFields, Bodies;
    all := targets;
    if !item.Obj? {
      return Some(InputItemMustBeObject), all;
    }
    var o := item.fields;
    if !IsString(Get(o, "type")) {
      return Some(MissingItemType), all;
    }
    var kind := TextOf(Get(o, "type")).value;
    error := CheckItemFields(kind, o);
    if error.Some? {
      return;
    }
    NoBodies(kind);
    if kind == "additional_tools" {
      match Get(o, "tools") {
        case None => error := Some(MissingField("tools"));
        case Some(Arr(tools)) => all := CollectLeaves(Arr(tools), base + [Key("tools")], None, ToolStrings, targets);
        case Some(_) => error := Some(InvalidFieldType("tools"));
      }
    } else if IsStructuralKind(kind) {
      all := CollectStructuralItem(o, base, targets);
    } else {
      error, all := CollectBodies(o, base, Bodies(kind), targets);
    }
  }

  lemma NoBodies(kind: string)
    ensures kind == "additional_tools" || IsStructuralKind(kind) ==> Bodies(kind) == []
  {
  }

  method CollectUntracked(j: Json, path: Path, targets: seq<Target>) returns (all: seq<Target>)
    requires UniqueKeys(j)
    ensures all == targets + Untracked(j, path, targets)
    decreases j
  {
    hide Tracked;
    all := targets;
    match j {
      case Str(_) =>
        if !Tracked(targets, path) {
          all := all + [At(path, STRUCTURAL)];
        }
      case Arr(items) =>
        for i := 0 to |items|
          invariant all == targets + UntrackedItems(items, path, targets, i)
        {
          ItemsLeaveRest(items, path, targets, i);
          UntrackedAgrees(items[i], path + [Index(i)], targets, all);
          all := CollectUntracked(items[i], path + [Index(i)], all);
        }
      case Obj(fields) =>
        for i := 0 to |fields|
          invariant all == targets + UntrackedFields(fields, path, targets, i)
        {
          var f := fields[i];
          FieldsLeaveRest(fields, path, targets, i);
          all := all + [StructuralLiteral(f.key)];
          assert all == targets + (UntrackedFields(fields, path, targets, i) + [StructuralLiteral(f.key)]);
          UntrackedAgrees(f.value, path + [Key(f.key)], targets, all);
          all := CollectUntracked(f.value, path + [Key(f.key)], all);
        }
      case _ =>
    }
  }

  // ----- why the catch-all pass may test against the growing vector

  ghost predicate Agree(a: seq<Target>, b: seq<Target>, path: Path) {
    forall q {:trigger Tracked(a, q)} {:trigger Tracked(b, q)} :: path <= q ==> (Tracked(a, q) <==> Tracked(b, q))
  }

  lemma AgreeBelow(a: seq<Target>, b: seq<Target>, path: Path, s: Segment)
    requires Agree(a, b, path)
    ensures Agree(a, b, path + [s])
  {
    hide Tracked;
    forall q | path + [s] <= q
      ensures Tracked(a, q) <==> Tracked(b, q)
    {
      assert path <= path + [s];
    }
  }

  lemma {:induction false} UntrackedAgrees(j: Json, path: Path, a: seq<Target>, b: seq<Target>)
    requires Agree(a, b, path)
    ensures Untracked(j, path, a) == Untracked(j, path, b)
    decreases j, 0
  {
    hide Tracked;
    match j
    case Str(_) => assert Tracked(a, path) <==> Tracked(b, path);
    case Arr(items) => ItemsAgree(items, path, a, b, |items|);
    case Obj(fields) => FieldsAgree(fields, path, a, b, |fields|);
    case _ =>
  }

  lemma {:induction false} ItemsAgree(items: seq<Json>, path: Path, a: seq<Target>, b: seq<Target>, n: nat)
    requires Agree(a, b, path) && n <= |items|
    ensures UntrackedItems(items, path, a, n) == UntrackedItems(items, path, b, n)
    decreases items, n
  {
    hide Agree;
    if n > 0 {
      ItemsAgree(items, path, a, b, n - 1);
      AgreeBelow(a, b, path, Index(n - 1));
      UntrackedAgrees(items[n - 1], path + [Index(n - 1)], a, b);
    }
  }

  lemma {:induction false} FieldsAgree(fields: seq<Field>, path: Path, a: seq<Target>, b: seq<Target>, n: nat)
    requires Agree(a, b, path) && n <= |fields|
    ensures UntrackedFields(fields, path, a, n) == UntrackedFields(fields, path, b, n)
    decreases fields, n
  {
    hide Agree;
    if n > 0 {
      FieldsAgree(fields, path, a, b, n - 1);
      AgreeBelow(a, b, path, Key(fields[n - 1].key));
      UntrackedAgrees(fields[n - 1].value, path + [Key(fields[n - 1].key)], a, b);
    }
  }

  /** A literal, or a structural target at or below `path`. */
  predicate CatchAll(t: Target, path: Path) {
    if t.structural.Some? then t == StructuralLiteral(t.structural.value)
      else path <= t.path && t == At(t.path, STRUCTURAL)
  }

  lemma {:induction false} UntrackedBelow(j: Json, path: Path, a: seq<Target>, t: Target)
    requires t in Untracked(j, path, a)
    ensures CatchAll(t, path)
    decreases j, 0
  {
    hide Tracked;
    match j
    case Arr(items) => var k := ItemsBelow(items, path, a, |items|, t);
    case Obj(fields) => FieldsBelow(fields, path, a, |fields|, t);
    case _ =>
  }

  lemma {:induction false} ItemsBelow(items: seq<Json>, path: Path, a: seq<Target>, n: nat, t: Target) returns (k: nat)
    requires n <= |items| && t in UntrackedItems(items, path, a, n)
    ensures k < n && CatchAll(t, path + [Index(k)]) && CatchAll(t, path)
    decreases items, n
  {
    if t in UntrackedItems(items, path, a, n - 1) {
      k := ItemsBelow(items, path, a, n - 1, t);
    } else {
      k := n - 1;
      UntrackedBelow(items[k], path + [Index(k)], a, t);
    }
  }

  lemma {:induction false} FieldsBelow(fields: seq<Field>, path: Path, a: seq<Target>, n: nat, t: Target)
    requires n <= |fields| && t in UntrackedFields(fields, path, a, n)
    ensures CatchAll(t, path)
    ensures t.structural.None? ==> exists k :: 0 <= k < n && path + [Key(fields[k].key)] <= t.path
    decreases fields, n
  {
    var f := fields[n - 1];
    if t in UntrackedFields(fields, path, a, n - 1) {
      FieldsBelow(fields, path, a, n - 1, t);
    } else if t != StructuralLiteral(f.key) {
      UntrackedBelow(f.value, path + [Key(f.key)], a, t);
    }
  }

  lemma ItemsLeaveRest(items: seq<Json>, path: Path, targets: seq<Target>, i: nat)
    requires i < |items|
    ensures Agree(targets, targets + UntrackedItems(items, path, targets, i), path + [Index(i)])
  {
    var added := UntrackedItems(items, path, targets, i);
    forall q | path + [Index(i)] <= q
      ensures Tracked(targets, q) <==> Tracked(targets + added, q)
    {
      forall t | t in added
        ensures t.path != q
      {
        var k := ItemsBelow(items, path, targets, i, t);
        assert q[|path|] == Index(i);
      }
      TrackedConcat(targets, added, q);
    }
  }

  lemma FieldsLeaveRest(fields: seq<Field>, path: Path, targets: seq<Target>, i: nat)
    requires i < |fields| && DistinctKeys(fields)
    ensures Agree(targets, targets + (UntrackedFields(fields, path, targets, i) + [StructuralLiteral(fields[i].key)]),
                  path + [Key(fields[i].key)])
  {
    var added := UntrackedFields(fields, path, targets, i) + [StructuralLiteral(fields[i].key)];
    forall q | path + [Key(fields[i].key)] <= q
      ensures Tracked(targets, q) <==> Tracked(targets + added, q)
    {
      forall t | t in added
        ensures t.path != q
      {
        if t in UntrackedFields(fields, path, targets, i) {
          FieldsBelow(fields, path, targets, i, t);
        }
        assert q[|path|] == Key(fields[i].key);
      }
      TrackedConcat(targets, added, q);
    }
  }

  lemma TrackedConcat(a: seq<Target>, b: seq<Target>, q: Path)
    requires forall t :: t in b ==> t.path != q
    ensures Tracked(a + b, q) <==> Tracked(a, q)
  {
    if Tracked(a, q) {
      var t :| t in a && t.path == q;
      assert t in a + b;
    }
  }

  // ----- the request

  /** All targets of a request, in the order in which they are collected. */
  function AllTargets(root: Json): seq<Target> {
    ExplicitTargets(root) + Untracked(root, [], ExplicitTargets(root))
  }

  method CollectInput(items: seq<Json>, targets: seq<Target>) returns (error: Check, all: seq<Target>)
    ensures error.None? <==> forall i :: 0 <= i < |items| ==> ItemOk(items[i])
    ensures error.None? ==> all == targets + InputTargets(items, |items|)
  {
    hide ItemOk, ItemTargets;
    all := targets;
    for i := 0 to |items|
      invariant forall k :: 0 <= k < i ==> ItemOk(items[k])
      invariant all == targets + InputTargets(items, i)
    {
      error, all := CollectInputItem(items[i], [Key("input"), Index(i)], all);
      if error.Some? {
        return;
      }
    }
    error := None;
  }

  method CollectMetadata(m: seq<Field>, targets: seq<Target>) returns (error: Check, all: seq<Target>)
    ensures error.None? <==> forall i :: 0 <= i < |m| ==> m[i].value.Str?
    ensures error.None? ==> all == targets + MetadataTargets(m, |m|)
  {
    all := targets;
    for i := 0 to |m|
      invariant forall k :: 0 <= k < i ==> m[k].value.Str?
      invariant all == targets + MetadataTargets(m, i)
    {
      if !m[i].value.Str? {
        return Some(InvalidFieldType("client_metadata value")), all;
      }
      all := all + [At([Key("client_metadata"), Key(m[i].key)], Class(ClientMetadata, BlockOnly))];
    }
    error := None;
  }

  /** The collecting part of `parse`, after the controls have been checked. */
  method CollectExplicit(root: Json) returns (error: Check, all: seq<Target>)
    requires root.Obj? && UniqueKeys(root) && CheckControls(root.fields).None?
    ensures error.None? <==> Accepted(root)
    ensures error.None? ==> all == ExplicitTargets(root)
  {
    hide CheckControls, ItemOk, UniqueKeys, Accepted, ExplicitTargets;
    AcceptedMeans(root);
    ExplicitParts(root);
    var f := root.fields;
    all := [];
    match Get(f, "instructions") {
      case None =>
      case Some(Str(_)) => all := [At([Key("instructions")], Class(Instructions, Rewrite))];
      case Some(_) => return Some(InvalidFieldType("instructions")), all;
    }
    match Get(f, "input") {
      case None => return Some(MissingField("input")), all;
      case Some(Str(_)) => all := all + [At([Key("input")], Class(MessageText, Rewrite))];
      case Some(Arr(items)) =>
        error, all := CollectInput(items, all);
        if error.Some? {
          return;
        }
      case Some(_) => return Some(InvalidFieldType("input")), all;
    }
    match Get(f, "tools") {
      case None => assert all + [] == all;
      case Some(Arr(tools)) => all := CollectLeaves(Arr(tools), [Key("tools")], None, ToolStrings, all);
      case Some(_) => return Some(InvalidFieldType("tools")), all;
    }
    match Get(f, "client_metadata") {
      case None => assert all + [] == all;
      case Some(Obj(m)) =>
        error, all := CollectMetadata(m, all);
        return;
      case Some(_) => return Some(InvalidFieldType("client_metadata")), all;
    }
    error := None;
  }
}
