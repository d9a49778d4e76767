/**
 * The request object (src/payload.rs, `ValidatedRequest`): parsing it, reading its targets, and replacing
 * its strings one by one without disturbing anything else. Replacing keeps the shape of the value, which fixes
 * its string paths and keys, so the classification made when parsing stays exact however often strings are replaced.
 */
module Request {
  import opened Domain
  import opened JsonTree
  import opened PayloadShape
  import opened Payload
  import AcceptedShape
  import ExactlyOnce
  import Utf8

  /** Byte-level JSON reading and printing. */
  datatype Codec = Codec(parse: string -> Option<Json>, encode: Json -> Option<string>)

  /** Every string and every key of the value is valid UTF-8. */
  predicate ValidStrings(j: Json) {
    match j
    case Str(text) => Utf8.Valid(text)
    case Arr(items) => forall i :: 0 <= i < |items| ==> ValidStrings(items[i])
    case Obj(fields) => forall i :: 0 <= i < |fields| ==> Utf8.Valid(fields[i].key) && ValidStrings(fields[i].value)
    case _ => true
  }

  /** What is assumed of the JSON reader: the strings it produces are valid. */
  ghost predicate SoundCodec(codec: Codec) {
    forall body :: codec.parse(body).Some? ==> ValidStrings(codec.parse(body).value)
  }

  lemma {:induction false} ValidLocate(j: Json, path: Path)
    requires ValidStrings(j) && Locate(j, path).Some?
    ensures ValidStrings(Locate(j, path).value)
    decreases |path|
  {
    if path != [] {
      if path[0].Key? {
        var i := GetFinds(j.fields, path[0].key);
      }
      ValidLocate(Child(j, path[0]).value, path[1..]);
    }
  }

  lemma {:induction false} ValidKeys(j: Json, k: string)
    requires ValidStrings(j) && k in Keys(j)
    ensures Utf8.Valid(k)
    decreases j, 0
  {
    hide Utf8.Valid;
    match j
    case Arr(items) => ValidItemKeys(items, |items|, k);
    case Obj(fields) => ValidFieldKeys(fields, |fields|, k);
    case _ =>
  }

  lemma {:induction false} ValidItemKeys(items: seq<Json>, n: nat, k: string)
    requires n <= |items| && (forall i :: 0 <= i < |items| ==> ValidStrings(items[i])) && k in ItemKeys(items, n)
    ensures Utf8.Valid(k)
    decreases items, n
  {
    hide Utf8.Valid;
    if k in ItemKeys(items, n - 1) {
      ValidItemKeys(items, n - 1, k);
    } else {
      ValidKeys(items[n - 1], k);
    }
  }

  lemma {:induction false} ValidFieldKeys(fields: seq<Field>, n: nat, k: string)
    requires n <= |fields| && k in FieldKeys(fields, n)
    requires forall i :: 0 <= i < |fields| ==> Utf8.Valid(fields[i].key) && ValidStrings(fields[i].value)
    ensures Utf8.Valid(k)
    decreases fields, n
  {
    hide Utf8.Valid;
    if k in FieldKeys(fields, n - 1) {
      ValidFieldKeys(fields, n - 1, k);
    } else if k != fields[n - 1].key {
      ValidKeys(fields[n - 1].value, k);
    }
  }

  // ----- replacing the value at a path

  function SetAt(j: Json, path: Path, v: Json): Json
    requires Locate(j, path).Some?
    decreases |path|, 0
  {
    if path == [] then v
    else
      match path[0]
      case Key(k) => Obj(SetField(j.fields, k, path[1..], v))
      case Index(i) => Arr(j.items[i := SetAt(j.items[i], path[1..], v)])
  }

  function SetField(fields: seq<Field>, key: string, rest: Path, v: Json): seq<Field>
    requires Get(fields, key).Some? && Locate(Get(fields, key).value, rest).Some?
    decreases |rest|, 1 + |fields|
  {
    if fields[0].key == key then [Field(key, SetAt(fields[0].value, rest, v))] + fields[1..]
    else [fields[0]] + SetField(fields[1..], key, rest, v)
  }

  lemma {:induction false} GetSetField(fields: seq<Field>, key: string, rest: Path, v: Json, other: string)
    requires Get(fields, key).Some? && Locate(Get(fields, key).value, rest).Some?
    ensures Get(SetField(fields, key, rest, v), other)
         == if other == key then Some(SetAt(Get(fields, key).value, rest, v)) else Get(fields, other)
    decreases fields
  {
    if fields[0].key != key {
      GetSetField(fields[1..], key, rest, v, other);
    }
  }

  lemma ChildOfSet(j: Json, path: Path, v: Json, s: Segment)
    requires Locate(j, path).Some? && path != []
    ensures Child(SetAt(j, path, v), s)
         == if s == path[0] then Some(SetAt(Child(j, s).value, path[1..], v)) else Child(j, s)
  {
    match path[0]
    case Key(k) =>
      if s.Key? {
        GetSetField(j.fields, k, path[1..], v, s.key);
      }
    case Index(i) =>
  }

  /** The value written is read back, and no string elsewhere changes. */
  lemma {:induction false} SetThenLocate(j: Json, path: Path, text: string, q: Path)
    requires StringAt(j, path)
    ensures Locate(SetAt(j, path, Str(text)), path) == Some(Str(text))
    ensures q != path && StringAt(j, q) ==> Locate(SetAt(j, path, Str(text)), q) == Locate(j, q)
    decreases |path|
  {
    var r := SetAt(j, path, Str(text));
    if path != [] {
      var c := Child(j, path[0]).value;
      ChildOfSet(j, path, Str(text), path[0]);
      SetThenLocate(c, path[1..], text, if q != [] then q[1..] else []);
      if q != [] {
        ChildOfSet(j, path, Str(text), q[0]);
        if q[0] == path[0] {
          assert q == [q[0]] + q[1..] && path == [path[0]] + path[1..];
        }
      }
    }
  }

  // ----- values of the same shape

  /** Equal up to the text of strings: same nesting, keys, numbers, booleans and nulls, in the same order. */
  predicate SameShape(a: Json, b: Json)
    decreases a
  {
    match a
    case Str(_) => b.Str?
    case Arr(items) =>
      b.Arr? && |b.items| == |items| && forall i :: 0 <= i < |items| ==> SameShape(items[i], b.items[i])
    case Obj(fields) =>
      && b.Obj? && |b.fields| == |fields|
      && forall i :: 0 <= i < |fields| ==>
           fields[i].key == b.fields[i].key && SameShape(fields[i].value, b.fields[i].value)
    case _ => a == b
  }

  lemma {:induction false} ShapeReflexive(a: Json)
    ensures SameShape(a, a)
  {
    match a
    case Arr(items) =>
      forall i | 0 <= i < |items| ensures SameShape(items[i], items[i]) {
        ShapeReflexive(items[i]);
      }
    case Obj(fields) =>
      forall i | 0 <= i < |fields| ensures SameShape(fields[i].value, fields[i].value) {
        ShapeReflexive(fields[i].value);
      }
    case _ =>
  }

  lemma {:induction false} ShapeTransitive(a: Json, b: Json, c: Json)
    requires SameShape(a, b) && SameShape(b, c)
    ensures SameShape(a, c)
  {
    match a
    case Arr(items) =>
      forall i | 0 <= i < |items| ensures SameShape(items[i], c.items[i]) {
        ShapeTransitive(items[i], b.items[i], c.items[i]);
      }
    case Obj(fields) =>
      forall i | 0 <= i < |fields| ensures SameShape(fields[i].value, c.fields[i].value) {
        ShapeTransitive(fields[i].value, b.fields[i].value, c.fields[i].value);
      }
    case _ =>
  }

  lemma {:induction false} SetKeepsShape(j: Json, path: Path, text: string)
    requires StringAt(j, path)
    ensures SameShape(j, SetAt(j, path, Str(text)))
    decreases |path|, 0
  {
    if path != [] {
      match path[0]
      case Key(k) => SetFieldKeepsShape(j.fields, k, path[1..], text);
      case Index(i) =>
        SetKeepsShape(j.items[i], path[1..], text);
        forall m | 0 <= m < |j.items| && m != i ensures SameShape(j.items[m], j.items[m]) {
          ShapeReflexive(j.items[m]);
        }
    }
  }

  lemma {:induction false} SetFieldKeepsShape(fields: seq<Field>, key: string, rest: Path, text: string)
    requires Get(fields, key).Some? && StringAt(Get(fields, key).value, rest)
    ensures SameShape(Obj(fields), Obj(SetField(fields, key, rest, Str(text))))
    decreases |rest|, 1 + |fields|
  {
    var after := SetField(fields, key, rest, Str(text));
    assert fields == [fields[0]] + fields[1..] && after == [after[0]] + after[1..];
    if fields[0].key == key {
      SetKeepsShape(fields[0].value, rest, text);
      forall m | 1 <= m < |fields| ensures SameShape(fields[m].value, after[m].value) {
        ShapeReflexive(fields[m].value);
      }
    } else {
      ShapeReflexive(fields[0].value);
      SetFieldKeepsShape(fields[1..], key, rest, text);
      var tail, next := Obj(fields[1..]), Obj(after[1..]);
      forall m | 1 <= m < |fields| ensures fields[m].key == after[m].key && SameShape(fields[m].value, after[m].value) {
        assert SameShape(tail.fields[m - 1].value, next.fields[m - 1].value);
      }
    }
  }

  // ----- what the shape determines

  lemma {:induction false} ShapeGet(a: seq<Field>, b: seq<Field>, key: string)
    requires SameShape(Obj(a), Obj(b))
    ensures Get(a, key).Some? <==> Get(b, key).Some?
    ensures Get(a, key).Some? ==> SameShape(Get(a, key).value, Get(b, key).value)
  {
    if a != [] && a[0].key != key {
      var x, y := Obj(a), Obj(b);
      forall i | 0 <= i < |a[1..]|
        ensures a[1..][i].key == b[1..][i].key && SameShape(a[1..][i].value, b[1..][i].value)
      {
        assert x.fields[i + 1].key == y.fields[i + 1].key;
      }
      ShapeGet(a[1..], b[1..], key);
    }
  }

  lemma {:induction false} ShapeLocate(a: Json, b: Json, path: Path)
    requires SameShape(a, b)
    ensures Locate(a, path).Some? <==> Locate(b, path).Some?
    ensures Locate(a, path).Some? ==> SameShape(Locate(a, path).value, Locate(b, path).value)
    ensures StringAt(a, path) <==> StringAt(b, path)
    decreases |path|
  {
    if path != [] {
      if path[0].Key? && a.Obj? {
        ShapeGet(a.fields, b.fields, path[0].key);
      }
      if Child(a, path[0]).Some? {
        ShapeLocate(Child(a, path[0]).value, Child(b, path[0]).value, path[1..]);
      }
    }
  }

  lemma {:induction false} ShapeLeaves(a: Json, b: Json, path: Path, key: Option<string>)
    requires SameShape(a, b)
    ensures Leaves(a, path, key) == Leaves(b, path, key) && Keys(a) == Keys(b)
    decreases a, 0
  {
    match a
    case Arr(items) => ShapeItems(items, b.items, path, key, |items|);
    case Obj(fields) => ShapeFields(fields, b.fields, path, |fields|);
    case _ =>
  }

  lemma {:induction false} ShapeItems(a: seq<Json>, b: seq<Json>, path: Path, key: Option<string>, n: nat)
    requires n <= |a| == |b| && forall i :: 0 <= i < |a| ==> SameShape(a[i], b[i])
    ensures ItemLeaves(a, path, key, n) == ItemLeaves(b, path, key, n) && ItemKeys(a, n) == ItemKeys(b, n)
    decreases a, n
  {
    if n > 0 {
      ShapeItems(a, b, path, key, n - 1);
      ShapeLeaves(a[n - 1], b[n - 1], path + [Index(n - 1)], key);
    }
  }

  lemma {:induction false} ShapeFields(a: seq<Field>, b: seq<Field>, path: Path, n: nat)
    requires n <= |a| == |b| && forall i :: 0 <= i < |a| ==> a[i].key == b[i].key && SameShape(a[i].value, b[i].value)
    ensures FieldLeaves(a, path, n) == FieldLeaves(b, path, n) && FieldKeys(a, n) == FieldKeys(b, n)
    decreases a, n
  {
    if n > 0 {
      ShapeFields(a, b, path, n - 1);
      ShapeLeaves(a[n - 1].value, b[n - 1].value, path + [Key(a[n - 1].key)], Some(a[n - 1].key));
    }
  }

  /** Two values of the same shape with the same text at every string path are equal. */
  lemma {:induction false} ShapeAndText(a: Json, b: Json)
    requires SameShape(a, b) && UniqueKeys(a)
    requires forall p {:trigger Locate(a, p)} :: StringAt(a, p) ==> Locate(a, p) == Locate(b, p)
    ensures a == b
    decreases a
  {
    match a
    case Str(_) =>
      var here: Path := [];
      assert StringAt(a, here) && Locate(a, here) == Locate(b, here);
    case Arr(items) =>
      forall i | 0 <= i < |items| ensures items[i] == b.items[i] {
        BelowAgrees(a, b, Index(i), items[i], b.items[i]);
        ShapeAndText(items[i], b.items[i]);
      }
    case Obj(fields) =>
      forall i | 0 <= i < |fields| ensures fields[i] == b.fields[i] {
        GetAt(fields, i);
        assert DistinctKeys(b.fields);
        GetAt(b.fields, i);
        BelowAgrees(a, b, Key(fields[i].key), fields[i].value, b.fields[i].value);
        ShapeAndText(fields[i].value, b.fields[i].value);
      }
    case _ =>
  }

  lemma BelowAgrees(a: Json, b: Json, s: Segment, c: Json, d: Json)
    requires Child(a, s) == Some(c) && Child(b, s) == Some(d)
    requires forall p {:trigger Locate(a, p)} :: StringAt(a, p) ==> Locate(a, p) == Locate(b, p)
    ensures forall p {:trigger Locate(c, p)} :: StringAt(c, p) ==> Locate(c, p) == Locate(d, p)
  {
    forall p | StringAt(c, p)
      ensures Locate(c, p) == Locate(d, p)
    {
      var q := [s] + p;
      assert q[1..] == p;
      assert Locate(a, q) == Locate(c, p) && Locate(b, q) == Locate(d, p);
    }
  }

  // ----- reading and replacing targets

  /** What `text` returns for a target. */
  function ReadTarget(j: Json, t: Target): Result<string, TargetError> {
    if t.structural.Some? then Ok(t.structural.value)
    else
      match Locate(j, t.path)
      case None => Err(TargetMissing)
      case Some(Str(text)) => Ok(text)
      case Some(_) => Err(TargetChangedType)
  }

  /** What `replace_text` does to the request value. */
  function Replaced(j: Json, targets: seq<Target>, index: nat, text: string): Result<Json, TargetError> {
    if index >= |targets| then Err(TargetMissing)
    else if targets[index].structural.Some? then Err(TargetIsStructuralLiteral)
    else
      match Locate(j, targets[index].path)
      case None => Err(TargetMissing)
      case Some(Str(_)) => Ok(SetAt(j, targets[index].path, Str(text)))
      case Some(_) => Err(TargetChangedType)
  }

  /** Reading a target of an accepted request succeeds, whatever strings have been replaced since. */
  lemma TargetsReadable(root: Json, now: Json, t: Target)
    requires Accepted(root) && SameShape(root, now) && t in AllTargets(root)
    ensures ReadTarget(now, t).Ok?
    ensures t.structural.None? ==> StringAt(now, t.path) && t == At(t.path, Classify(root, t.path))
  {
    hide Accepted, AllTargets, SameShape, Classify;
    if t.structural.None? {
      ExactlyOnce.NamedMember(AllTargets(root), t);
      ExactlyOnce.ClassifiedByPosition(root, t);
      ShapeLocate(root, now, t.path);
    }
  }

  /** What is read is valid text. */
  lemma TargetsValid(root: Json, t: Target)
    requires Accepted(root) && ValidStrings(root) && t in AllTargets(root)
    ensures ReadTarget(root, t).Ok? && Utf8.Valid(ReadTarget(root, t).value)
  {
    hide Accepted, AllTargets, SameShape, Classify, Utf8.Valid;
    ShapeReflexive(root);
    TargetsReadable(root, root, t);
    if t.structural.Some? {
      ExactlyOnce.LiteralMember(AllTargets(root), t);
      ExactlyOnce.KeysOnce(root);
      ValidKeys(root, t.structural.value);
    } else {
      ValidLocate(root, t.path);
    }
  }

  /** A sequence of successful replacements, each a target number and a new text. */
  ghost predicate Replacements(root: Json, states: seq<Json>, steps: seq<(nat, string)>)
  {
    && |states| == |steps| + 1 && states[0] == root
    && forall i {:trigger states[i], steps[i]} :: 0 <= i < |steps| ==>
         Replaced(states[i], AllTargets(root), steps[i].0, steps[i].1) == Ok(states[i + 1])
  }

  lemma {:induction false} ReplacementsKeepShape(root: Json, states: seq<Json>, steps: seq<(nat, string)>, n: nat)
    requires Accepted(root) && Replacements(root, states, steps) && n <= |steps|
    ensures SameShape(root, states[n])
  {
    hide Accepted, AllTargets, SameShape;
    if n == 0 {
      ShapeReflexive(root);
    } else {
      ReplacementsKeepShape(root, states, steps, n - 1);
      assert Replaced(states[n - 1], AllTargets(root), steps[n - 1].0, steps[n - 1].1) == Ok(states[n]);
      var path := AllTargets(root)[steps[n - 1].0].path;
      SetKeepsShape(states[n - 1], path, steps[n - 1].1);
      ShapeTransitive(root, states[n - 1], states[n]);
    }
  }

  /**
   * The classification made when a request is parsed stays exact through any sequence of replacements:
   * its path targets name the strings of the current value, each once, its literals are the current
   * keys, and together they are as many as strings and keys.
   */
  lemma ClassificationSurvives(root: Json, states: seq<Json>, steps: seq<(nat, string)>, n: nat)
    requires Accepted(root) && Replacements(root, states, steps) && n <= |steps|
    ensures var now, ts := states[n], AllTargets(root);
            && (forall p {:trigger StringAt(now, p)} ::
                  StringAt(now, p) <==> exists t :: t in ExactlyOnce.Named(ts) && t.path == p)
            && ExactlyOnce.DistinctTargets(ExactlyOnce.Named(ts))
            && ExactlyOnce.Literals(ts) == Keys(now)
            && |ts| == |Leaves(now, [], None)| + |Keys(now)|
  {
    hide Accepted, AllTargets, SameShape, Classify, StringAt, ExactlyOnce.DistinctTargets, Leaves, Keys;
    var now, ts := states[n], AllTargets(root);
    ReplacementsKeepShape(root, states, steps, n);
    ShapeLeaves(root, now, [], None);
    ExactlyOnce.NamedOnce(root);
    ExactlyOnce.KeysOnce(root);
    ExactlyOnce.TargetCount(root);
    forall p
      ensures StringAt(now, p) <==> exists t :: t in ExactlyOnce.Named(ts) && t.path == p
    {
      ShapeLocate(root, now, p);
      ExactlyOnce.ClassifiedByPosition(root, At(p, Classify(root, p)));
      if t :| t in ExactlyOnce.Named(ts) && t.path == p {
        ExactlyOnce.ClassifiedByPosition(root, t);
      }
    }
  }

  /** The walk of `locate` down the tree, one segment at a time. */
  method Walk(root: Json, path: Path) returns (r: Result<Json, TargetError>)
    ensures match Locate(root, path) case Some(c) => r == Ok(c) case None => r == Err(TargetMissing)
  {
    var current := root;
    for i := 0 to |path|
      invariant Locate(root, path) == Locate(current, path[i..])
    {
      assert path[i..][0] == path[i] && path[i..][1..] == path[i + 1..];
      match Child(current, path[i])
      case None => return Err(TargetMissing);
      case Some(c) => current := c;
    }
    assert path[|path|..] == [];
    r := Ok(current);
  }

  /** The visitor over a whole value: no object in it repeats a key. */
  method VisitValue(j: Json) returns (unique: bool)
    ensures unique <==> UniqueKeys(j)
    decreases j
  {
    match j {
      case Arr(items) =>
        for i := 0 to |items|
          invariant forall k :: 0 <= k < i ==> UniqueKeys(items[k])
        {
          var ok := VisitValue(items[i]);
          if !ok {
            return false;
          }
        }
      case Obj(fields) =>
        var distinct := VisitMap(fields);
        if !distinct {
          return false;
        }
        for i := 0 to |fields|
          invariant forall k :: 0 <= k < i ==> UniqueKeys(fields[k].value)
        {
          var ok := VisitValue(fields[i].value);
          if !ok {
            return false;
          }
        }
      case _ =>
    }
    unique := true;
  }

  lemma AcceptedNeeds(root: Json)
    ensures Accepted(root) ==> root.Obj? && UniqueKeys(root) && CheckControls(root.fields).None?
    ensures Accepted(root) ==> AllTargets(root) == ExplicitTargets(root) + Untracked(root, [], ExplicitTargets(root))
  {
    AcceptedMeans(root);
  }

  class ValidatedRequest {
    var value: Json
    const targets: seq<Target>
    ghost const parsed: Json

    /** The targets are those of the request as parsed, and only string text has changed since. */
    ghost predicate Valid()
      reads this
    {
      Accepted(parsed) && targets == AllTargets(parsed) && SameShape(parsed, value)
    }

    constructor (root: Json, all: seq<Target>)
      requires Accepted(root) && all == AllTargets(root)
      ensures Valid() && value == parsed == root && targets == all
    {
      value := root;
      targets := all;
      parsed := root;
      new;
      ShapeReflexive(root);
    }

    static method Parse(codec: Codec, body: string) returns (r: Result<ValidatedRequest, PayloadError>)
      ensures r.Ok? <==> codec.parse(body).Some? && Accepted(codec.parse(body).value)
      ensures r.Ok? <==> codec.parse(body).Some? && AcceptedShape.RequestShape(codec.parse(body).value)
      ensures r.Ok? ==> fresh(r.value) && r.value.Valid()
      ensures r.Ok? ==> Some(r.value.value) == codec.parse(body) && r.value.parsed == r.value.value
    {
      hide Accepted, UniqueKeys, CheckControls, AllTargets, ExplicitTargets, AcceptedShape.RequestShape;
      match codec.parse(body)
      case None => return Err(InvalidJson);
      case Some(root) =>
        AcceptedNeeds(root);
        AcceptedShape.AcceptedExactly(root);
        var unique := VisitValue(root);
        if !unique {
          return Err(InvalidJson);
        }
        if !root.Obj? {
          return Err(RootMustBeObject);
        }
        var error := CheckControls(root.fields);
        if error.Some? {
          return Err(error.value);
        }
        var all: seq<Target>;
        error, all := CollectExplicit(root);
        if error.Some? {
          return Err(error.value);
        }
        all := CollectUntracked(root, [], all);
        var request := new ValidatedRequest(root, all);
        r := Ok(request);
    }

    method Text(t: Target) returns (r: Result<string, TargetError>)
      ensures r == ReadTarget(value, t)
    {
      if t.structural.Some? {
        return Ok(t.structural.value);
      }
      var located := Walk(value, t.path);
      match located
      case Err(e) => return Err(e);
      case Ok(Str(text)) => return Ok(text);
      case Ok(_) => return Err(TargetChangedType);
    }

    method ReplaceText(index: nat, replacement: string) returns (error: Option<TargetError>)
      requires Valid()
      modifies this`value
      ensures Valid()
      ensures match Replaced(old(value), targets, index, replacement)
              case Ok(after) => error == None && value == after
              case Err(e) => error == Some(e) && value == old(value)
    {
      hide Accepted, AllTargets, SameShape;
      if index >= |targets| {
        return Some(TargetMissing);
      }
      var t := targets[index];
      if t.structural.Some? {
        return Some(TargetIsStructuralLiteral);
      }
      var located := Walk(value, t.path);
      match located
      case Err(e) => return Some(e);
      case Ok(Str(_)) =>
        SetKeepsShape(value, t.path, replacement);
        ShapeTransitive(parsed, value, SetAt(value, t.path, Str(replacement)));
        value := SetAt(value, t.path, Str(replacement));
        return None;
      case Ok(_) => return Some(TargetChangedType);
    }

    method Serialize(codec: Codec) returns (r: Result<string, TargetError>)
      ensures match codec.encode(value) case Some(text) => r == Ok(text) case None => r == Err(SerializeFailed)
    {
      match codec.encode(value)
      case Some(text) => r := Ok(text);
      case None => r := Err(SerializeFailed);
    }
  }
}
