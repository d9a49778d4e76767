/** JSON values as trees, paths into them, and the two ways of walking them (src/payload.rs). */
module JsonTree {
  import opened Domain

  datatype Json =
    | Null
    | Bool(b: bool)
    | Num(repr: string)
    | Str(text: string)
    | Arr(items: seq<Json>)
    | Obj(fields: seq<Field>)

  datatype Field = Field(key: string, value: Json)

  datatype Segment = Key(key: string) | Index(index: nat)

  type Path = seq<Segment>

  // ----- unique keys

  predicate DistinctKeys(fields: seq<Field>) {
    forall i, j :: 0 <= i < j < |fields| ==> fields[i].key != fields[j].key
  }

  /** No object anywhere in the value has two fields of the same name. */
  predicate UniqueKeys(j: Json) {
    match j
    case Arr(items) => forall i :: 0 <= i < |items| ==> UniqueKeys(items[i])
    case Obj(fields) => DistinctKeys(fields) && forall i :: 0 <= i < |fields| ==> UniqueKeys(fields[i].value)
    case _ => true
  }

  /** The map visitor: collects the keys seen and stops at the first repetition. */
  method VisitMap(fields: seq<Field>) returns (unique: bool)
    ensures unique <==> DistinctKeys(fields)
  {
    var keys: set<string> := {};
    for i := 0 to |fields|
      invariant DistinctKeys(fields[..i])
      invariant keys == set k | 0 <= k < i :: fields[k].key
    {
      if fields[i].key in keys {
        return false;
      }
      keys := keys + {fields[i].key};
    }
    assert fields[..|fields|] == fields;
    unique := true;
  }

  // ----- lookup

  function Get(fields: seq<Field>, key: string): Option<Json> {
    if fields == [] then None
    else if fields[0].key == key then Some(fields[0].value)
    else Get(fields[1..], key)
  }

  lemma {:induction false} GetAt(fields: seq<Field>, i: nat)
    requires DistinctKeys(fields) && i < |fields|
    ensures Get(fields, fields[i].key) == Some(fields[i].value)
  {
    if i > 0 {
      GetAt(fields[1..], i - 1);
    }
  }

  lemma {:induction false} GetFinds(fields: seq<Field>, key: string) returns (i: nat)
    requires Get(fields, key).Some?
    ensures i < |fields| && fields[i].key == key && Get(fields, key) == Some(fields[i].value)
  {
    if fields[0].key == key {
      i := 0;
    } else {
      var k := GetFinds(fields[1..], key);
      i := k + 1;
    }
  }

  /** One step down the tree. */
  function Child(j: Json, s: Segment): Option<Json> {
    match s
    case Key(k) => if j.Obj? then Get(j.fields, k) else None
    case Index(i) => if j.Arr? && i < |j.items| then Some(j.items[i]) else None
  }

  function Locate(j: Json, path: Path): Option<Json>
    decreases path
  {
    if path == [] then Some(j)
    else
      match Child(j, path[0])
      case Some(c) => Locate(c, path[1..])
      case None => None
  }

  lemma {:induction false} LocateConcat(j: Json, p: Path, q: Path)
    ensures Locate(j, p + q) == match Locate(j, p) case Some(c) => Locate(c, q) case None => None
    decreases |p|
  {
    if p == [] {
      assert p + q == q;
    } else {
      assert (p + q)[0] == p[0] && (p + q)[1..] == p[1..] + q;
      match Child(j, p[0])
      case Some(c) => LocateConcat(c, p[1..], q);
      case None =>
    }
  }

  predicate StringAt(j: Json, path: Path) {
    Locate(j, path).Some? && Locate(j, path).value.Str?
  }

  // ----- the string leaves of a value

  /** A string leaf: its path and the name of the nearest object field above it. */
  datatype Leaf = Leaf(path: Path, key: Option<string>)

  function Leaves(j: Json, path: Path, key: Option<string>): seq<Leaf>
    decreases j, 0
  {
    match j
    case Str(_) => [Leaf(path, key)]
    case Arr(items) => ItemLeaves(items, path, key, |items|)
    case Obj(fields) => FieldLeaves(fields, path, |fields|)
    case _ => []
  }

  function ItemLeaves(items: seq<Json>, path: Path, key: Option<string>, n: nat): seq<Leaf>
    requires n <= |items|
    decreases items, n
  {
    if n == 0 then [] else ItemLeaves(items, path, key, n - 1) + Leaves(items[n - 1], path + [Index(n - 1)], key)
  }

  function FieldLeaves(fields: seq<Field>, path: Path, n: nat): seq<Leaf>
    requires n <= |fields|
    decreases fields, n
  {
    if n == 0 then []
    else
      FieldLeaves(fields, path, n - 1)
      + Leaves(fields[n - 1].value, path + [Key(fields[n - 1].key)], Some(fields[n - 1].key))
  }

  /** The names of all fields of all objects in the value, one per occurrence. */
  function Keys(j: Json): seq<string>
    decreases j, 0
  {
    match j
    case Arr(items) => ItemKeys(items, |items|)
    case Obj(fields) => FieldKeys(fields, |fields|)
    case _ => []
  }

  function ItemKeys(items: seq<Json>, n: nat): seq<string>
    requires n <= |items|
    decreases items, n
  {
    if n == 0 then [] else ItemKeys(items, n - 1) + Keys(items[n - 1])
  }

  function FieldKeys(fields: seq<Field>, n: nat): seq<string>
    requires n <= |fields|
    decreases fields, n
  {
    if n == 0 then [] else FieldKeys(fields, n - 1) + [fields[n - 1].key] + Keys(fields[n - 1].value)
  }

  /** The nearest key above the end of `suffix`, `outer` if it has none. */
  function NearestKey(suffix: Path, outer: Option<string>): Option<string> {
    if suffix == [] then outer
    else NearestKey(suffix[1..], if suffix[0].Key? then Some(suffix[0].key) else outer)
  }

  /** That is the last key of the path. */
  lemma {:induction false} NearestIsLast(suffix: Path, outer: Option<string>, i: nat)
    requires i <= |suffix| && forall k :: i <= k < |suffix| ==> suffix[k].Index?
    requires i > 0 ==> suffix[i - 1].Key?
    ensures NearestKey(suffix, outer) == if i == 0 then outer else Some(suffix[i - 1].key)
  {
    if suffix != [] {
      var nearer := if suffix[0].Key? then Some(suffix[0].key) else outer;
      NearestIsLast(suffix[1..], nearer, if i == 0 then 0 else i - 1);
    }
  }

  /** The leaves are exactly the paths that lead to strings, each with its nearest key. */
  ghost predicate IsLeaf(j: Json, path: Path, key: Option<string>, l: Leaf) {
    && path <= l.path && StringAt(j, l.path[|path|..])
    && l.key == NearestKey(l.path[|path|..], key)
  }

  /** A leaf of a composite value is a leaf of one of its children. */
  lemma LeafStep(j: Json, path: Path, key: Option<string>, l: Leaf)
    requires !j.Str? && IsLeaf(j, path, key, l)
    ensures |l.path| > |path| && Child(j, l.path[|path|]).Some?
    ensures var s := l.path[|path|];
            IsLeaf(Child(j, s).value, path + [s], if s.Key? then Some(s.key) else key, l)
  {
    var suffix := l.path[|path|..];
    assert suffix != [];
    assert l.path[|path| + 1..] == suffix[1..];
    assert l.path[..|path| + 1] == path + [suffix[0]];
  }

  lemma LeafUnstep(j: Json, path: Path, key: Option<string>, s: Segment, l: Leaf)
    requires Child(j, s).Some? && IsLeaf(Child(j, s).value, path + [s], if s.Key? then Some(s.key) else key, l)
    ensures IsLeaf(j, path, key, l) && |l.path| > |path| && l.path[|path|] == s
  {
    var suffix := l.path[|path|..];
    assert suffix[0] == s && suffix[1..] == l.path[|path + [s]|..];
  }

  lemma {:induction false} LeavesExact(j: Json, path: Path, key: Option<string>, l: Leaf)
    requires UniqueKeys(j)
    ensures l in Leaves(j, path, key) <==> IsLeaf(j, path, key, l)
    decreases j, 0
  {
    match j
    case Str(_) => StringLeaf(j, path, key, l);
    case Arr(items) =>
      ItemLeavesExact(j, items, path, key, |items|, l);
      if IsLeaf(j, path, key, l) {
        LeafStep(j, path, key, l);
      }
    case Obj(fields) =>
      FieldLeavesExact(j, fields, path, key, |fields|, l);
      if IsLeaf(j, path, key, l) {
        LeafStep(j, path, key, l);
        var i := GetFinds(fields, l.path[|path|].key);
      }
    case _ => ScalarHasNoLeaf(j, path, key, l);
  }

  lemma ScalarHasNoLeaf(j: Json, path: Path, key: Option<string>, l: Leaf)
    requires j.Null? || j.Bool? || j.Num?
    ensures !IsLeaf(j, path, key, l)
  {
    if path <= l.path {
      var suffix := l.path[|path|..];
      assert suffix != [] ==> Child(j, suffix[0]).None?;
      assert !StringAt(j, suffix);
    }
  }

  lemma StringLeaf(j: Json, path: Path, key: Option<string>, l: Leaf)
    requires j.Str?
    ensures l == Leaf(path, key) <==> IsLeaf(j, path, key, l)
  {
    assert path[|path|..] == [];
    if path <= l.path {
      var suffix := l.path[|path|..];
      assert suffix == [] ==> l.path == path;
      assert suffix != [] ==> !StringAt(j, suffix);
    }
  }

  lemma {:induction false} ItemLeavesExact(j: Json, items: seq<Json>, path: Path, key: Option<string>, n: nat, l: Leaf)
    requires j == Arr(items) && UniqueKeys(j) && n <= |items|
    ensures l in ItemLeaves(items, path, key, n) <==>
            exists i :: 0 <= i < n && IsLeaf(items[i], path + [Index(i)], key, l)
    ensures l in ItemLeaves(items, path, key, n) ==> IsLeaf(j, path, key, l)
    decreases items, n
  {
    hide IsLeaf;
    if n > 0 {
      ItemLeavesExact(j, items, path, key, n - 1, l);
      LeavesExact(items[n - 1], path + [Index(n - 1)], key, l);
      if l in Leaves(items[n - 1], path + [Index(n - 1)], key) {
        LeafUnstep(j, path, key, Index(n - 1), l);
      }
    }
  }

  lemma {:induction false} FieldLeavesExact(j: Json, fields: seq<Field>, path: Path, key: Option<string>, n: nat,
                                            l: Leaf)
    requires j == Obj(fields) && UniqueKeys(j) && n <= |fields|
    ensures l in FieldLeaves(fields, path, n) <==>
            exists i :: 0 <= i < n && IsLeaf(fields[i].value, path + [Key(fields[i].key)], Some(fields[i].key), l)
    ensures l in FieldLeaves(fields, path, n) ==> IsLeaf(j, path, key, l)
    decreases fields, n
  {
    hide IsLeaf;
    if n > 0 {
      FieldLeavesExact(j, fields, path, key, n - 1, l);
      var f := fields[n - 1];
      LeavesExact(f.value, path + [Key(f.key)], Some(f.key), l);
      GetAt(fields, n - 1);
      if l in Leaves(f.value, path + [Key(f.key)], Some(f.key)) {
        LeafUnstep(j, path, key, Key(f.key), l);
      }
    }
  }

  // ----- every leaf is listed once

  predicate DistinctPaths(leaves: seq<Leaf>) {
    forall i, j :: 0 <= i < j < |leaves| ==> leaves[i].path != leaves[j].path
  }

  lemma DistinctConcat(a: seq<Leaf>, b: seq<Leaf>)
    requires DistinctPaths(a) && DistinctPaths(b)
    requires forall x, y :: x in a && y in b ==> x.path != y.path
    ensures DistinctPaths(a + b)
  {
    var c := a + b;
    forall i, j | 0 <= i < j < |c|
      ensures c[i].path != c[j].path
    {
      if i < |a| <= j {
        assert a[i] in a && b[j - |a|] in b;
      }
    }
  }

  lemma {:induction false} LeavesDistinct(j: Json, path: Path, key: Option<string>)
    requires UniqueKeys(j)
    ensures DistinctPaths(Leaves(j, path, key))
    decreases j, 0
  {
    match j
    case Arr(items) => ItemLeavesDistinct(j, items, path, key, |items|);
    case Obj(fields) => FieldLeavesDistinct(j, fields, path, key, |fields|);
    case _ =>
  }

  lemma {:induction false} ItemLeavesDistinct(j: Json, items: seq<Json>, path: Path, key: Option<string>, n: nat)
    requires j == Arr(items) && UniqueKeys(j) && n <= |items|
    ensures DistinctPaths(ItemLeaves(items, path, key, n))
    decreases items, n
  {
    hide DistinctPaths;
    if n == 0 {
      NoLeavesDistinct();
    } else {
      var a, b := ItemLeaves(items, path, key, n - 1), Leaves(items[n - 1], path + [Index(n - 1)], key);
      ItemLeavesDistinct(j, items, path, key, n - 1);
      LeavesDistinct(items[n - 1], path + [Index(n - 1)], key);
      forall x, y | x in a && y in b
        ensures x.path != y.path
      {
        ItemLeavesExact(j, items, path, key, n - 1, x);
        LeavesExact(items[n - 1], path + [Index(n - 1)], key, y);
        var i :| 0 <= i < n - 1 && IsLeaf(items[i], path + [Index(i)], key, x);
        assert x.path[|path|] == Index(i) && y.path[|path|] == Index(n - 1);
      }
      DistinctConcat(a, b);
    }
  }

  lemma NoLeavesDistinct()
    ensures DistinctPaths([])
  {
  }

  lemma {:induction false} FieldLeavesDistinct(j: Json, fields: seq<Field>, path: Path, key: Option<string>, n: nat)
    requires j == Obj(fields) && UniqueKeys(j) && n <= |fields|
    ensures DistinctPaths(FieldLeaves(fields, path, n))
    decreases fields, n
  {
    hide DistinctPaths;
    if n == 0 {
      NoLeavesDistinct();
    } else {
      var f := fields[n - 1];
      var a, b := FieldLeaves(fields, path, n - 1), Leaves(f.value, path + [Key(f.key)], Some(f.key));
      FieldLeavesDistinct(j, fields, path, key, n - 1);
      LeavesDistinct(f.value, path + [Key(f.key)], Some(f.key));
      forall x, y | x in a && y in b
        ensures x.path != y.path
      {
        FieldLeavesExact(j, fields, path, key, n - 1, x);
        LeavesExact(f.value, path + [Key(f.key)], Some(f.key), y);
        var i :| 0 <= i < n - 1 && IsLeaf(fields[i].value, path + [Key(fields[i].key)], Some(fields[i].key), x);
        assert x.path[|path|] == Key(fields[i].key) && y.path[|path|] == Key(f.key);
      }
      DistinctConcat(a, b);
    }
  }
}
