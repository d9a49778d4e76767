/** Every field of a request has its name examined, told by paths alone (`collect_untracked_strings`). */
module KeyPlaces {
  import opened Domain
  import opened JsonTree
  import Classification
  import ExactlyOnce
  import Payload
  import PayloadShape

  /** The paths of the fields of all objects in the value, in the order of `Keys`. */
  function Places(j: Json, base: Path): seq<Path>
    decreases j, 0
  {
    match j
    case Arr(items) => ItemPlaces(items, base, |items|)
    case Obj(fields) => FieldPlaces(fields, base, |fields|)
    case _ => []
  }

  function ItemPlaces(items: seq<Json>, base: Path, n: nat): seq<Path>
    requires n <= |items|
    decreases items, n
  {
    if n == 0 then [] else ItemPlaces(items, base, n - 1) + Places(items[n - 1], base + [Index(n - 1)])
  }

  function FieldPlaces(fields: seq<Field>, base: Path, n: nat): seq<Path>
    requires n <= |fields|
    decreases fields, n
  {
    if n == 0 then []
    else
      var place := base + [Key(fields[n - 1].key)];
      FieldPlaces(fields, base, n - 1) + [place] + Places(fields[n - 1].value, place)
  }

  /** The path leads to a field of some object. */
  predicate NamesField(j: Json, p: Path) {
    p != [] && p[|p| - 1].Key? && Locate(j, p).Some?
  }

  predicate Below(j: Json, base: Path, p: Path) {
    base <= p && NamesField(j, p[|base|..])
  }

  // ----- each place carries its key

  predicate Ends(ps: seq<Path>, keys: seq<string>) {
    && |ps| == |keys|
    && forall i :: 0 <= i < |ps| ==> ps[i] != [] && ps[i][|ps[i]| - 1] == Key(keys[i])
  }

  lemma {:induction false} PlacesNamed(j: Json, base: Path)
    ensures Ends(Places(j, base), Keys(j))
    decreases j, 0
  {
    match j
    case Arr(items) => ItemPlacesNamed(items, base, |items|);
    case Obj(fields) => FieldPlacesNamed(fields, base, |fields|);
    case _ =>
  }

  lemma {:induction false} ItemPlacesNamed(items: seq<Json>, base: Path, n: nat)
    requires n <= |items|
    ensures Ends(ItemPlaces(items, base, n), ItemKeys(items, n))
    decreases items, n
  {
    if n > 0 {
      ItemPlacesNamed(items, base, n - 1);
      PlacesNamed(items[n - 1], base + [Index(n - 1)]);
    }
  }

  lemma {:induction false} FieldPlacesNamed(fields: seq<Field>, base: Path, n: nat)
    requires n <= |fields|
    ensures Ends(FieldPlaces(fields, base, n), FieldKeys(fields, n))
    decreases fields, n
  {
    if n > 0 {
      FieldPlacesNamed(fields, base, n - 1);
      PlacesNamed(fields[n - 1].value, base + [Key(fields[n - 1].key)]);
    }
  }

  // ----- the places are those of the fields

  lemma NamesStep(j: Json, p: Path)
    requires p != []
    ensures NamesField(j, p) <==>
            && Child(j, p[0]).Some?
            && ((|p| == 1 && p[0].Key?) || NamesField(Child(j, p[0]).value, p[1..]))
  {
    match Child(j, p[0])
    case None =>
      assert Locate(j, p).None?;
    case Some(c) =>
      assert Locate(j, p) == Locate(c, p[1..]);
      if |p| == 1 {
        assert p[1..] == [] && Locate(c, []) == Some(c);
      } else {
        assert p[1..][|p[1..]| - 1] == p[|p| - 1];
      }
  }

  /** A field of a composite value is a field of its own, or of one of its children. */
  lemma BelowStep(j: Json, base: Path, p: Path)
    ensures Below(j, base, p) <==>
            && base <= p && |p| > |base| && Child(j, p[|base|]).Some?
            && (|| (p == base + [p[|base|]] && p[|base|].Key?)
                || Below(Child(j, p[|base|]).value, base + [p[|base|]], p))
  {
    hide NamesField;
    if base <= p && |p| > |base| {
      NamesStep(j, p[|base|..]);
      assert p[|base|..][1..] == p[|base| + 1..];
      assert base + [p[|base|]] == p[..|base| + 1];
    } else if base <= p {
      NothingNamed(j);
      assert p[|base|..] == [];
    }
  }

  lemma NothingNamed(j: Json)
    ensures !NamesField(j, [])
  {
  }

  lemma BelowExtends(j: Json, base: Path, s: Segment, p: Path)
    requires p == base + [s] || Below(j, base + [s], p)
    ensures base <= p && |p| > |base| && p[|base|] == s
  {
    assert (base + [s])[|base|] == s;
  }

  lemma {:induction false} PlacesExact(j: Json, base: Path, p: Path)
    requires UniqueKeys(j)
    ensures p in Places(j, base) <==> Below(j, base, p)
    decreases j, 0
  {
    hide Below;
    BelowStep(j, base, p);
    match j
    case Arr(items) =>
      ItemPlacesExact(items, base, |items|, p);
      forall i | 0 <= i < |items| && Below(items[i], base + [Index(i)], p)
        ensures base <= p && |p| > |base| && p[|base|] == Index(i)
      {
        BelowExtends(items[i], base, Index(i), p);
      }
    case Obj(fields) =>
      FieldPlacesExact(fields, base, |fields|, p);
      if Below(j, base, p) {
        var i := GetFinds(fields, p[|base|].key);
      }
      forall i | 0 <= i < |fields| && InField(fields[i], base, p)
        ensures Below(j, base, p)
      {
        GetAt(fields, i);
        BelowExtends(fields[i].value, base, Key(fields[i].key), p);
      }
    case _ =>
  }

  lemma {:induction false} ItemPlacesExact(items: seq<Json>, base: Path, n: nat, p: Path)
    requires UniqueKeys(Arr(items)) && n <= |items|
    ensures p in ItemPlaces(items, base, n) <==> exists i :: 0 <= i < n && Below(items[i], base + [Index(i)], p)
    decreases items, n
  {
    hide Below;
    if n > 0 {
      ItemPlacesExact(items, base, n - 1, p);
      PlacesExact(items[n - 1], base + [Index(n - 1)], p);
    }
  }

  predicate InField(f: Field, base: Path, p: Path) {
    p == base + [Key(f.key)] || Below(f.value, base + [Key(f.key)], p)
  }

  lemma {:induction false} FieldPlacesExact(fields: seq<Field>, base: Path, n: nat, p: Path)
    requires UniqueKeys(Obj(fields)) && n <= |fields|
    ensures p in FieldPlaces(fields, base, n) <==> exists i :: 0 <= i < n && InField(fields[i], base, p)
    decreases fields, n
  {
    hide Below;
    if n > 0 {
      FieldPlacesExact(fields, base, n - 1, p);
      PlacesExact(fields[n - 1].value, base + [Key(fields[n - 1].key)], p);
    }
  }

  // ----- no place is listed twice

  predicate Once(ps: seq<Path>) {
    forall i, k :: 0 <= i < k < |ps| ==> ps[i] != ps[k]
  }

  lemma OnceJoin(a: seq<Path>, b: seq<Path>)
    requires Once(a) && Once(b) && forall x, y :: x in a && y in b ==> x != y
    ensures Once(a + b)
  {
    var c := a + b;
    forall i, k | 0 <= i < k < |c|
      ensures c[i] != c[k]
    {
      if i < |a| <= k {
        assert a[i] in a && b[k - |a|] in b;
      }
    }
  }

  lemma {:induction false} PlacesOnce(j: Json, base: Path)
    requires UniqueKeys(j)
    ensures Once(Places(j, base))
    decreases j, 0
  {
    match j
    case Arr(items) => ItemPlacesOnce(items, base, |items|);
    case Obj(fields) => FieldPlacesOnce(fields, base, |fields|);
    case _ =>
  }

  lemma {:induction false} ItemPlacesOnce(items: seq<Json>, base: Path, n: nat)
    requires UniqueKeys(Arr(items)) && n <= |items|
    ensures Once(ItemPlaces(items, base, n))
    decreases items, n
  {
    hide Below;
    if n > 0 {
      var a, b := ItemPlaces(items, base, n - 1), Places(items[n - 1], base + [Index(n - 1)]);
      ItemPlacesOnce(items, base, n - 1);
      PlacesOnce(items[n - 1], base + [Index(n - 1)]);
      forall x, y | x in a && y in b
        ensures x != y
      {
        ItemPlacesExact(items, base, n - 1, x);
        PlacesExact(items[n - 1], base + [Index(n - 1)], y);
        var i :| 0 <= i < n - 1 && Below(items[i], base + [Index(i)], x);
        BelowExtends(items[i], base, Index(i), x);
        BelowExtends(items[n - 1], base, Index(n - 1), y);
      }
      OnceJoin(a, b);
    }
  }

  /** The places of one field and those below it. */
  function Own(f: Field, base: Path): seq<Path> {
    [base + [Key(f.key)]] + Places(f.value, base + [Key(f.key)])
  }

  /** They all start with it, and none is listed twice. */
  lemma {:induction false} OwnPlaces(f: Field, base: Path)
    requires UniqueKeys(f.value)
    ensures Once(Own(f, base)) && forall y :: y in Own(f, base) ==> |y| > |base| && y[|base|] == Key(f.key)
    decreases f, 1
  {
    hide Below;
    var place := base + [Key(f.key)];
    PlacesOnce(f.value, place);
    forall y | y in Places(f.value, place)
      ensures y != place && |y| > |base| && y[|base|] == Key(f.key)
    {
      PlacesExact(f.value, place, y);
      BelowStep(f.value, place, y);
      BelowExtends(f.value, base, Key(f.key), y);
    }
    OnceJoin([place], Places(f.value, place));
    assert place[|base|] == Key(f.key);
  }

  lemma EarlierPlaces(fields: seq<Field>, base: Path, n: nat, x: Path)
    requires UniqueKeys(Obj(fields)) && n <= |fields| && x in FieldPlaces(fields, base, n)
    ensures |x| > |base| && exists i :: 0 <= i < n && x[|base|] == Key(fields[i].key)
  {
    hide Below, UniqueKeys;
    FieldPlacesExact(fields, base, n, x);
    var i :| 0 <= i < n && InField(fields[i], base, x);
    BelowExtends(fields[i].value, base, Key(fields[i].key), x);
  }

  lemma Apart(fields: seq<Field>, base: Path, n: nat)
    requires UniqueKeys(Obj(fields)) && n < |fields|
    ensures Once(Own(fields[n], base))
    ensures forall x, y :: x in FieldPlaces(fields, base, n) && y in Own(fields[n], base) ==> x != y
    decreases fields, 0
  {
    hide Once, Places, FieldPlaces;
    OwnPlaces(fields[n], base);
    forall x, y | x in FieldPlaces(fields, base, n) && y in Own(fields[n], base)
      ensures x != y
    {
      EarlierPlaces(fields, base, n, x);
    }
  }

  lemma {:induction false} FieldPlacesOnce(fields: seq<Field>, base: Path, n: nat)
    requires UniqueKeys(Obj(fields)) && n <= |fields|
    ensures Once(FieldPlaces(fields, base, n))
    decreases fields, n
  {
    hide Once, Places, UniqueKeys;
    if n == 0 {
      NothingOnce();
    } else {
      FieldPlacesOnce(fields, base, n - 1);
      Apart(fields, base, n - 1);
      OnceJoin(FieldPlaces(fields, base, n - 1), Own(fields[n - 1], base));
      assert FieldPlaces(fields, base, n) == FieldPlaces(fields, base, n - 1) + Own(fields[n - 1], base);
    }
  }

  lemma NothingOnce()
    ensures Once([])
  {
  }

  // ----- the theorem

  /** The literal targets are the names of the fields of the request: of each field, at any depth, and of each once. */
  lemma EveryFieldOnce(root: Json) returns (places: seq<Path>)
    requires PayloadShape.Accepted(root)
    ensures Once(places) && forall p :: p in places <==> NamesField(root, p)
    ensures Ends(places, ExactlyOnce.Literals(Payload.AllTargets(root)))
  {
    hide PayloadShape.Accepted, Payload.AllTargets, ExactlyOnce.Literals, Ends, Once, NamesField;
    Classification.AcceptedIsObject(root);
    ExactlyOnce.KeysOnce(root);
    places := Places(root, []);
    PlacesOnce(root, []);
    PlacesNamed(root, []);
    forall p
      ensures p in places <==> NamesField(root, p)
    {
      PlacesExact(root, [], p);
      assert p[0..] == p;
    }
  }
}
