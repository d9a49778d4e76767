/**
 * Exactly-once classification of an accepted request (src/payload.rs, `ValidatedRequest::parse`): every
 * string has exactly one path target, with the class its position calls for, every key has exactly one literal
 * target, and there are no others. The explicit collectors never push a path twice and the catch-all
 * pass adds the rest.
 */
module ExactlyOnce {
  import opened Domain
  import opened JsonTree
  import opened PayloadShape
  import opened Payload
  import opened Classification

  // ----- no collector pushes the same path twice

  predicate DistinctTargets(ts: seq<Target>) {
    forall i, j :: 0 <= i < j < |ts| ==> ts[i].path != ts[j].path
  }

  lemma DistinctJoin(a: seq<Target>, b: seq<Target>)
    requires DistinctTargets(a) && DistinctTargets(b)
    requires forall x, y :: x in a && y in b ==> x.path != y.path
    ensures DistinctTargets(a + b)
  {
    var c := a + b;
    forall i, j | 0 <= i < j < |c|
      ensures c[i].path != c[j].path
    {
      if i < |a| <= j {
        assert a[i] in a && b[j - |a|] in b;
      }
    }
  }

  lemma {:induction false} LeafTargetsDistinct(rule: Rule, leaves: seq<Leaf>)
    requires DistinctPaths(leaves)
    ensures DistinctTargets(LeafTargets(rule, leaves))
  {
    hide LeafTarget;
    if leaves != [] {
      var n := |leaves| - 1;
      var a, b := LeafTargets(rule, leaves[..n]), LeafTarget(rule, leaves[n]);
      LeafTargetsDistinct(rule, leaves[..n]);
      LeafTargetPath(rule, leaves[n]);
      forall x, y | x in a && y in b
        ensures x.path != y.path
      {
        LeafTargetsExact(rule, leaves[..n], x);
        var l :| l in leaves[..n] && x in LeafTarget(rule, l);
        LeafTargetPath(rule, l);
        var k :| 0 <= k < n && leaves[k] == l;
      }
      DistinctJoin(a, b);
    }
  }

  lemma LeafTargetPath(rule: Rule, l: Leaf)
    ensures |LeafTarget(rule, l)| <= 1 && forall t :: t in LeafTarget(rule, l) ==> t.path == l.path
  {
  }

  lemma {:induction false} PartTargetsDistinct(parts: seq<Json>, path: Path, c: FieldClass, kinds: set<string>, n: nat)
    requires n <= |parts|
    ensures DistinctTargets(PartTargets(parts, path, c, kinds, n))
  {
    hide IsTextPart;
    if n > 0 {
      var a := PartTargets(parts, path, c, kinds, n - 1);
      var last := At(path + [Index(n - 1), Key("text")], Class(c, Rewrite));
      PartTargetsDistinct(parts, path, c, kinds, n - 1);
      forall x | x in a
        ensures x.path != last.path
      {
        PartTargetsExact(parts, path, c, kinds, n - 1, x);
        var i :| 0 <= i < n - 1 && IsTextPart(parts[i], kinds)
          && x == At(path + [Index(i), Key("text")], Class(c, Rewrite));
        assert x.path == path + [Index(i), Key("text")] && last.path == path + [Index(n - 1), Key("text")];
        assert x.path[|path|] == Index(i) && last.path[|path|] == Index(n - 1);
      }
      DistinctJoin(a, [last]);
      assert a + [] == a;
    }
  }

  lemma BodyTargetsDistinct(fields: seq<Field>, base: Path, b: Body)
    ensures DistinctTargets(BodyTargets(fields, base, b))
  {
    match Get(fields, b.field)
    case Some(Arr(parts)) =>
      if b.asParts.Some? {
        PartTargetsDistinct(parts, base + [Key(b.field)], b.fieldClass, b.asParts.value.kinds, |parts|);
      }
    case _ =>
  }

  lemma {:induction false} AllBodyTargetsDistinct(fields: seq<Field>, base: Path, bodies: seq<Body>, n: nat)
    requires n <= |bodies| && DistinctBodies(bodies)
    requires forall k :: 0 <= k < |bodies| ==> BodyOk(fields, bodies[k]) && bodies[k].fieldClass != StructuralMetadata
    ensures DistinctTargets(AllBodyTargets(fields, base, bodies, n))
  {
    hide BodyTargets, BodyOk, DistinctTargets;
    if n == 0 {
      NoneDistinct();
    } else {
      var a, b := AllBodyTargets(fields, base, bodies, n - 1), BodyTargets(fields, base, bodies[n - 1]);
      AllBodyTargetsDistinct(fields, base, bodies, n - 1);
      BodyTargetsDistinct(fields, base, bodies[n - 1]);
      forall x, y | x in a && y in b
        ensures x.path != y.path
      {
        AllBodyTargetsExact(fields, base, bodies, n - 1, x);
        var k :| 0 <= k < n - 1 && x in BodyTargets(fields, base, bodies[k]);
        BodyMarked(fields, base, bodies[k], x);
        BodyMarked(fields, base, bodies[n - 1], y);
        assert Rest(base, x)[0] == Key(bodies[k].field) && Rest(base, y)[0] == Key(bodies[n - 1].field);
      }
      DistinctJoin(a, b);
    }
  }

  lemma NoneDistinct()
    ensures DistinctTargets([])
  {
  }

  lemma {:induction false} StructuralTargetsDistinct(fields: seq<Field>, base: Path, n: nat)
    requires n <= |fields| && UniqueKeys(Obj(fields))
    ensures DistinctTargets(StructuralTargets(fields, base, n))
  {
    hide LeafTargets, Leaves, IsSkippedItemKey, DistinctTargets;
    if n == 0 {
      NoneDistinct();
    } else {
      var f, rule := fields[n - 1], AllStrings(FunctionArguments);
      var a, leaves := StructuralTargets(fields, base, n - 1), Leaves(f.value, base + [Key(f.key)], Some(f.key));
      StructuralTargetsDistinct(fields, base, n - 1);
      LeavesDistinct(f.value, base + [Key(f.key)], Some(f.key));
      LeafTargetsDistinct(rule, leaves);
      forall x, y | x in a && y in LeafTargets(rule, leaves)
        ensures x.path != y.path
      {
        StructuralExact(fields, base, n - 1, x);
        var i :| 0 <= i < n - 1
          && x in LeafTargets(rule, Leaves(fields[i].value, base + [Key(fields[i].key)], Some(fields[i].key)));
        FieldMarked(fields, base, i, x);
        FieldMarked(fields, base, n - 1, y);
        assert x.path[|base|] == Key(fields[i].key) && y.path[|base|] == Key(f.key);
      }
      DistinctJoin(a, LeafTargets(rule, leaves));
      assert a + [] == a;
    }
  }

  lemma ItemTargetsDistinct(item: Json, base: Path)
    requires ItemOk(item) && UniqueKeys(item)
    ensures DistinctTargets(ItemTargets(item, base))
  {
    hide CheckItemFields, BodyOk, Bodies, LeafTargets, Leaves, StructuralTargets, AllBodyTargets, DistinctTargets;
    hide UniqueKeys;
    var kind := TextOf(Get(item.fields, "type")).value;
    if kind == "additional_tools" {
      ToolsDistinct(item, base);
    } else if IsStructuralKind(kind) {
      StructuralTargetsDistinct(item.fields, base, |item.fields|);
    } else {
      BodiesShape(kind);
      AllBodyTargetsDistinct(item.fields, base, Bodies(kind), |Bodies(kind)|);
    }
  }

  lemma ToolsDistinct(j: Json, base: Path)
    requires j.Obj? && UniqueKeys(j) && Get(j.fields, "tools").Some?
    ensures DistinctTargets(LeafTargets(ToolStrings, Leaves(Get(j.fields, "tools").value, base + [Key("tools")], None)))
  {
    var i := GetFinds(j.fields, "tools");
    LeavesDistinct(Get(j.fields, "tools").value, base + [Key("tools")], None);
    LeafTargetsDistinct(ToolStrings, Leaves(Get(j.fields, "tools").value, base + [Key("tools")], None));
  }

  lemma {:induction false} InputTargetsDistinct(root: Json, items: seq<Json>, n: nat)
    requires n <= |items| && forall i :: 0 <= i < |items| ==> ItemOk(items[i])
    requires root.Obj? && UniqueKeys(root) && Get(root.fields, "input") == Some(Arr(items))
    ensures DistinctTargets(InputTargets(items, n))
  {
    hide ItemOk, ItemTargets, DistinctTargets, UniqueKeys, Classify, Get;
    if n == 0 {
      NoneDistinct();
    } else {
      var a, b := InputTargets(items, n - 1), ItemTargets(items[n - 1], [Key("input"), Index(n - 1)]);
      InputTargetsDistinct(root, items, n - 1);
      ItemUnique(root, items, n - 1);
      ItemTargetsDistinct(items[n - 1], [Key("input"), Index(n - 1)]);
      forall x, y | x in a && y in b
        ensures x.path != y.path
      {
        InputExact(items, n - 1, x);
        var i :| 0 <= i < n - 1 && x in ItemTargets(items[i], [Key("input"), Index(i)]);
        ItemInRoot(root, items, i, x);
        ItemInRoot(root, items, n - 1, y);
        assert x.path[1] == Index(i) && y.path[1] == Index(n - 1);
      }
      DistinctJoin(a, b);
    }
  }

  lemma {:induction false} MetadataDistinct(m: seq<Field>, n: nat)
    requires n <= |m| && DistinctKeys(m)
    ensures DistinctTargets(MetadataTargets(m, n))
  {
    hide DistinctTargets;
    if n == 0 {
      NoneDistinct();
    } else {
      var a := MetadataTargets(m, n - 1);
      var last := At([Key("client_metadata"), Key(m[n - 1].key)], Class(ClientMetadata, BlockOnly));
      MetadataDistinct(m, n - 1);
      forall x | x in a
        ensures x.path != last.path
      {
        MetadataExact(m, n - 1, x);
        var i :| 0 <= i < n - 1 && x == At([Key("client_metadata"), Key(m[i].key)], Class(ClientMetadata, BlockOnly));
        assert x.path[1] == Key(m[i].key) && last.path[1] == Key(m[n - 1].key);
      }
      OneDistinct(last);
      DistinctJoin(a, [last]);
    }
  }

  lemma OneDistinct(t: Target)
    ensures DistinctTargets([t])
  {
  }

  lemma InputPartDistinct(root: Json)
    requires Accepted(root)
    ensures DistinctTargets(InputPart(root))
  {
    hide CheckControls, ItemOk, UniqueKeys, InputTargets, DistinctTargets;
    AcceptedMeans(root);
    match Get(root.fields, "input")
    case Some(Str(_)) => OneDistinct(At([Key("input")], Class(MessageText, Rewrite)));
    case Some(Arr(items)) => InputTargetsDistinct(root, items, |items|);
  }

  lemma ToolsPartDistinct(root: Json)
    requires Accepted(root)
    ensures DistinctTargets(ToolsPart(root))
  {
    hide CheckControls, ItemOk, UniqueKeys, LeafTargets, Leaves, DistinctTargets;
    AcceptedMeans(root);
    var none: Path := [];
    assert none + [Key("tools")] == [Key("tools")];
    if Get(root.fields, "tools").Some? {
      ToolsDistinct(root, none);
    } else {
      NoneDistinct();
    }
  }

  lemma MetadataPartDistinct(root: Json)
    requires Accepted(root)
    ensures DistinctTargets(MetadataPart(root))
  {
    hide CheckControls, ItemOk, UniqueKeys, DistinctTargets;
    AcceptedMeans(root);
    match Get(root.fields, "client_metadata")
    case Some(Obj(m)) =>
      MetadataUnique(root, m);
      MetadataDistinct(m, |m|);
    case None => NoneDistinct();
  }

  /** Parts of the explicit targets lie under different root fields. */
  lemma ExplicitDistinct(root: Json)
    requires Accepted(root)
    ensures DistinctTargets(ExplicitTargets(root))
  {
    hide Accepted, Marks, Classify, InputPart, ToolsPart, MetadataPart, ExplicitTargets, DistinctTargets;
    AcceptedIsObject(root);
    ExplicitParts(root);
    var a, b, c, d := InstructionsPart(root), InputPart(root), ToolsPart(root), MetadataPart(root);
    InstructionsPartDistinct(root);
    InputPartDistinct(root);
    ToolsPartDistinct(root);
    MetadataPartDistinct(root);
    forall t
      ensures (t in a ==> Under("instructions", t)) && (t in b ==> Under("input", t))
      ensures (t in c ==> Under("tools", t)) && (t in d ==> Under("client_metadata", t))
    {
      InstructionsPartMarked(root, t);
      InputPartMarked(root, t);
      ToolsPartMarked(root, t);
      MetadataPartMarked(root, t);
    }
    DistinctJoin(a, b);
    DistinctJoin(a + b, c);
    DistinctJoin(a + b + c, d);
  }

  lemma InstructionsPartDistinct(root: Json)
    requires root.Obj?
    ensures DistinctTargets(InstructionsPart(root))
  {
  }

  // ----- the catch-all pass, as paths and as literals

  /** The targets that name a string by path. */
  function Named(ts: seq<Target>): seq<Target> {
    if ts == [] then []
    else Named(ts[..|ts| - 1]) + (if ts[|ts| - 1].structural.None? then [ts[|ts| - 1]] else [])
  }

  function Literals(ts: seq<Target>): seq<string> {
    if ts == [] then []
    else Literals(ts[..|ts| - 1]) + (match ts[|ts| - 1].structural case Some(k) => [k] case None => [])
  }

  lemma LastOfConcat(a: seq<Target>, b: seq<Target>)
    requires b != []
    ensures var c := a + b; c != [] && c[|c| - 1] == b[|b| - 1] && c[..|c| - 1] == a + b[..|b| - 1]
  {
  }

  lemma {:induction false} NamedConcat(a: seq<Target>, b: seq<Target>)
    ensures Named(a + b) == Named(a) + Named(b)
  {
    if b == [] {
      assert a + b == a;
    } else {
      NamedConcat(a, b[..|b| - 1]);
      LastOfConcat(a, b);
    }
  }

  lemma {:induction false} LiteralsConcat(a: seq<Target>, b: seq<Target>)
    ensures Literals(a + b) == Literals(a) + Literals(b)
  {
    if b == [] {
      assert a + b == a;
    } else {
      LiteralsConcat(a, b[..|b| - 1]);
      LastOfConcat(a, b);
    }
  }

  lemma SplitConcat(a: seq<Target>, b: seq<Target>)
    ensures Named(a + b) == Named(a) + Named(b) && Literals(a + b) == Literals(a) + Literals(b)
  {
    NamedConcat(a, b);
    LiteralsConcat(a, b);
  }

  lemma {:induction false} NamedMember(ts: seq<Target>, t: Target)
    ensures t in Named(ts) <==> t in ts && t.structural.None?
  {
    if ts != [] {
      NamedMember(ts[..|ts| - 1], t);
      assert ts == ts[..|ts| - 1] + [ts[|ts| - 1]];
    }
  }

  lemma {:induction false} LiteralMember(ts: seq<Target>, t: Target)
    requires t in ts && t.structural.Some?
    ensures t.structural.value in Literals(ts)
  {
    if t != ts[|ts| - 1] {
      assert ts == ts[..|ts| - 1] + [ts[|ts| - 1]];
      LiteralMember(ts[..|ts| - 1], t);
    }
  }

  /** Targets at different positions name different strings. */
  lemma {:induction false} NamedApart(ts: seq<Target>, i: nat, j: nat)
    requires DistinctTargets(Named(ts)) && i < j < |ts| && ts[i].structural.None? && ts[j].structural.None?
    ensures ts[i].path != ts[j].path
  {
    var n := |ts| - 1;
    var rest := Named(ts[..n]);
    if j < n {
      assert Named(ts)[..|rest|] == rest;
      assert forall x, y :: 0 <= x < y < |rest| ==> rest[x] == Named(ts)[x] && rest[y] == Named(ts)[y];
      NamedApart(ts[..n], i, j);
    } else {
      NamedMember(ts[..n], ts[i]);
      assert ts[..n][i] == ts[i];
      var k :| 0 <= k < |rest| && rest[k] == ts[i];
      assert Named(ts)[k] == ts[i] && Named(ts)[|rest|] == ts[j];
    }
  }

  lemma {:induction false} SplitCounts(ts: seq<Target>)
    ensures |ts| == |Named(ts)| + |Literals(ts)|
  {
    if ts != [] {
      SplitCounts(ts[..|ts| - 1]);
    }
  }

  /** The leaves no target names yet. */
  function Missing(leaves: seq<Leaf>, targets: seq<Target>): seq<Target> {
    if leaves == [] then []
    else
      Missing(leaves[..|leaves| - 1], targets)
      + (if Tracked(targets, leaves[|leaves| - 1].path) then [] else [At(leaves[|leaves| - 1].path, STRUCTURAL)])
  }

  lemma {:induction false} MissingConcat(a: seq<Leaf>, b: seq<Leaf>, targets: seq<Target>)
    ensures Missing(a + b, targets) == Missing(a, targets) + Missing(b, targets)
  {
    hide Tracked;
    if b == [] {
      assert a + b == a;
    } else {
      var n := |b| - 1;
      MissingConcat(a, b[..n], targets);
      assert (a + b)[..|a + b| - 1] == a + b[..n];
    }
  }

  lemma {:induction false} UntrackedSplit(j: Json, path: Path, key: Option<string>, targets: seq<Target>)
    ensures Named(Untracked(j, path, targets)) == Missing(Leaves(j, path, key), targets)
    ensures Literals(Untracked(j, path, targets)) == Keys(j)
    decreases j, 0
  {
    hide Tracked;
    match j
    case Str(_) => OneLeafSplit(path, key, targets);
    case Arr(items) => ItemsSplit(items, path, key, targets, |items|);
    case Obj(fields) => FieldsSplit(fields, path, targets, |fields|);
    case _ =>
  }

  lemma OneLeafSplit(path: Path, key: Option<string>, targets: seq<Target>)
    ensures var ts := if Tracked(targets, path) then [] else [At(path, STRUCTURAL)];
            Named(ts) == Missing([Leaf(path, key)], targets) && Literals(ts) == []
  {
    hide Tracked;
    assert [Leaf(path, key)][..0] == [] && [At(path, STRUCTURAL)][..0] == [];
  }

  lemma {:induction false} ItemsSplit(items: seq<Json>, path: Path, key: Option<string>, targets: seq<Target>, n: nat)
    requires n <= |items|
    ensures Named(UntrackedItems(items, path, targets, n)) == Missing(ItemLeaves(items, path, key, n), targets)
    ensures Literals(UntrackedItems(items, path, targets, n)) == ItemKeys(items, n)
    decreases items, n
  {
    hide Missing, Named, Literals;
    if n == 0 {
      NothingSplit(targets);
    } else {
      var p := path + [Index(n - 1)];
      ItemsSplit(items, path, key, targets, n - 1);
      UntrackedSplit(items[n - 1], p, key, targets);
      SplitConcat(UntrackedItems(items, path, targets, n - 1), Untracked(items[n - 1], p, targets));
      MissingConcat(ItemLeaves(items, path, key, n - 1), Leaves(items[n - 1], p, key), targets);
    }
  }

  lemma NothingSplit(targets: seq<Target>)
    ensures Named([]) == [] && Literals([]) == [] && Missing([], targets) == []
  {
  }

  lemma LiteralSplit(key: string)
    ensures Named([StructuralLiteral(key)]) == [] && Literals([StructuralLiteral(key)]) == [key]
  {
    assert [StructuralLiteral(key)][..0] == [];
  }

  lemma {:induction false} FieldsSplit(fields: seq<Field>, path: Path, targets: seq<Target>, n: nat)
    requires n <= |fields|
    ensures Named(UntrackedFields(fields, path, targets, n)) == Missing(FieldLeaves(fields, path, n), targets)
    ensures Literals(UntrackedFields(fields, path, targets, n)) == FieldKeys(fields, n)
    decreases fields, n
  {
    hide Missing, Named, Literals, Leaves, Untracked, Keys;
    if n == 0 {
      NothingSplit(targets);
    } else {
      var f, p := fields[n - 1], path + [Key(fields[n - 1].key)];
      var before := UntrackedFields(fields, path, targets, n - 1);
      FieldsSplit(fields, path, targets, n - 1);
      UntrackedSplit(f.value, p, Some(f.key), targets);
      LiteralSplit(f.key);
      SplitConcat(before, [StructuralLiteral(f.key)]);
      SplitConcat(before + [StructuralLiteral(f.key)], Untracked(f.value, p, targets));
      MissingConcat(FieldLeaves(fields, path, n - 1), Leaves(f.value, p, Some(f.key)), targets);
      assert Named(before) + [] == Named(before);
    }
  }

  lemma {:induction false} MissingExact(leaves: seq<Leaf>, targets: seq<Target>, t: Target)
    ensures t in Missing(leaves, targets) <==>
            exists l :: l in leaves && !Tracked(targets, l.path) && t == At(l.path, STRUCTURAL)
  {
    hide Tracked;
    if leaves != [] {
      var n := |leaves| - 1;
      MissingExact(leaves[..n], targets, t);
      assert leaves == leaves[..n] + [leaves[n]];
    }
  }

  lemma {:induction false} MissingDistinct(leaves: seq<Leaf>, targets: seq<Target>)
    requires DistinctPaths(leaves)
    ensures DistinctTargets(Missing(leaves, targets))
  {
    hide Tracked, DistinctTargets;
    if leaves == [] {
      NoneDistinct();
    } else {
      var n := |leaves| - 1;
      var a, last := Missing(leaves[..n], targets), At(leaves[n].path, STRUCTURAL);
      MissingDistinct(leaves[..n], targets);
      forall x | x in a
        ensures x.path != last.path
      {
        MissingExact(leaves[..n], targets, x);
        var l :| l in leaves[..n] && x == At(l.path, STRUCTURAL);
        var k :| 0 <= k < n && leaves[k] == l;
      }
      OneDistinct(last);
      DistinctJoin(a, [last]);
      assert a + [] == a;
    }
  }

  // ----- the theorem

  lemma {:induction false} NamedAll(ts: seq<Target>)
    requires forall t :: t in ts ==> t.structural.None?
    ensures Named(ts) == ts && Literals(ts) == []
  {
    if ts != [] {
      var n := |ts| - 1;
      assert ts == ts[..n] + [ts[n]];
      NamedAll(ts[..n]);
    }
  }

  lemma NamedTargets(root: Json)
    requires Accepted(root)
    ensures Named(AllTargets(root)) == ExplicitTargets(root) + Missing(Leaves(root, [], None), ExplicitTargets(root))
    ensures Literals(AllTargets(root)) == Keys(root)
  {
    hide Accepted, Marks, Classify, ExplicitTargets, Untracked, Named, Literals, Missing, Leaves;
    var e := ExplicitTargets(root);
    forall t | t in e
      ensures t.structural.None?
    {
      ExplicitMarked(root, t);
      MarksAtRoot(root, Classify(root, t.path), t);
    }
    NamedAll(e);
    UntrackedSplit(root, [], None, e);
    SplitConcat(e, Untracked(root, [], e));
  }

  /**
   * Every path target names a string of the request and has the class its position calls for; every
   * string of the request has such a target.
   */
  lemma ClassifiedByPosition(root: Json, t: Target)
    requires Accepted(root)
    ensures t in Named(AllTargets(root)) <==> StringAt(root, t.path) && t == At(t.path, Classify(root, t.path))
  {
    hide Accepted, Classify, ExplicitTargets, AllTargets, Named, Leaves, StringAt;
    NamedTargets(root);
    AcceptedIsObject(root);
    var e, leaves := ExplicitTargets(root), Leaves(root, [], None);
    ExplicitMarked(root, t);
    MarksAtRoot(root, Classify(root, t.path), t);
    MissingExact(leaves, e, t);
    RootLeaf(root, t.path);
    TrackedIffMarked(root, t.path);
    if t in Missing(leaves, e) {
      var l :| l in leaves && !Tracked(e, l.path) && t == At(l.path, STRUCTURAL);
      LeavesExact(root, [], None, l);
      RootLeafPath(root, l);
    }
  }

  lemma RootLeafPath(root: Json, l: Leaf)
    requires IsLeaf(root, [], None, l)
    ensures StringAt(root, l.path)
  {
    var none: Path := [];
    assert l.path[|none|..] == l.path;
  }

  lemma RootLeaf(root: Json, p: Path)
    requires UniqueKeys(root)
    ensures StringAt(root, p) <==> Leaf(p, NearestKey(p, None)) in Leaves(root, [], None)
  {
    hide UniqueKeys, Leaves, StringAt;
    var none: Path := [];
    assert p[|none|..] == p;
    LeavesExact(root, [], None, Leaf(p, NearestKey(p, None)));
  }

  lemma TrackedIffMarked(root: Json, p: Path)
    requires Accepted(root)
    ensures Tracked(ExplicitTargets(root), p) <==> StringAt(root, p) && Classify(root, p) != STRUCTURAL
  {
    hide Accepted, Classify, ExplicitTargets, StringAt;
    var e, c := ExplicitTargets(root), Classify(root, p);
    ExplicitMarked(root, At(p, c));
    MarksAtRoot(root, c, At(p, c));
    if Tracked(e, p) {
      var t :| t in e && t.path == p;
      ExplicitMarked(root, t);
      MarksAtRoot(root, c, t);
    }
  }

  /** No two path targets of a request name the same string. */
  lemma NamedOnce(root: Json)
    requires Accepted(root)
    ensures DistinctTargets(Named(AllTargets(root)))
  {
    hide Accepted, ExplicitTargets, AllTargets, Named, Leaves, DistinctTargets, DistinctPaths, UniqueKeys;
    NamedTargets(root);
    AcceptedIsObject(root);
    var e, leaves := ExplicitTargets(root), Leaves(root, [], None);
    ExplicitDistinct(root);
    LeavesDistinct(root, [], None);
    MissingDistinct(leaves, e);
    forall x, y | x in e && y in Missing(leaves, e)
      ensures x.path != y.path
    {
      MissingExact(leaves, e, y);
      assert Tracked(e, x.path);
    }
    DistinctJoin(e, Missing(leaves, e));
  }

  /** The literals of a request are its keys, one per occurrence. */
  lemma KeysOnce(root: Json)
    requires Accepted(root)
    ensures Literals(AllTargets(root)) == Keys(root)
  {
    NamedTargets(root);
  }

  lemma {:induction false} PathSetSize(ts: seq<Target>)
    requires DistinctTargets(ts)
    ensures |(set t | t in ts :: t.path)| == |ts|
  {
    if ts != [] {
      var n := |ts| - 1;
      var a := ts[..n];
      PathSetSize(a);
      assert ts == a + [ts[n]];
      assert (set t | t in ts :: t.path) == (set t | t in a :: t.path) + {ts[n].path};
      assert ts[n].path !in (set t | t in a :: t.path);
    }
  }

  lemma {:induction false} LeafSetSize(leaves: seq<Leaf>)
    requires DistinctPaths(leaves)
    ensures |(set l | l in leaves :: l.path)| == |leaves|
  {
    if leaves != [] {
      var n := |leaves| - 1;
      var a := leaves[..n];
      LeafSetSize(a);
      assert leaves == a + [leaves[n]];
      assert (set l | l in leaves :: l.path) == (set l | l in a :: l.path) + {leaves[n].path};
      assert leaves[n].path !in (set l | l in a :: l.path);
    }
  }

  /** There are as many targets as strings and keys together. */
  lemma TargetCount(root: Json)
    requires Accepted(root)
    ensures |AllTargets(root)| == |Leaves(root, [], None)| + |Keys(root)|
  {
    hide Accepted, AllTargets, Named, Literals, Leaves, Keys, DistinctTargets, DistinctPaths, UniqueKeys, Classify;
    SplitCounts(AllTargets(root));
    KeysOnce(root);
    NamedOnce(root);
    AcceptedIsObject(root);
    var ts, leaves := Named(AllTargets(root)), Leaves(root, [], None);
    LeavesDistinct(root, [], None);
    PathSetSize(ts);
    LeafSetSize(leaves);
    var paths, leafPaths := set t | t in ts :: t.path, set l | l in leaves :: l.path;
    forall p
      ensures p in paths <==> p in leafPaths
    {
      SamePath(root, p);
    }
    assert paths == leafPaths;
  }

  lemma SamePath(root: Json, p: Path)
    requires Accepted(root)
    ensures (exists t :: t in Named(AllTargets(root)) && t.path == p) <==>
              (exists l :: l in Leaves(root, [], None) && l.path == p)
  {
    hide Accepted, AllTargets, Named, Leaves, UniqueKeys, Classify, StringAt;
    AcceptedIsObject(root);
    RootLeaf(root, p);
    ClassifiedByPosition(root, At(p, Classify(root, p)));
    if t :| t in Named(AllTargets(root)) && t.path == p {
      ClassifiedByPosition(root, t);
    }
    if l :| l in Leaves(root, [], None) && l.path == p {
      LeavesExact(root, [], None, l);
      RootLeafPath(root, l);
    }
  }
}
