/**
 * The bounded search over decoded views and the scan built on it (src/detector.rs, `composed_views` and
 * `Scanner::scan`). The pattern detectors are an arbitrary function from a view to nonempty ranges in it.
 * The search is compared with reachability in the decode graph, the scan with all matches in all views reached.
 */
module Scan {
  import opened Domain
  import opened Views
  import Decoders
  import Sorting
  import Utf8

  const MAX_DECODE_LAYERS: nat := 2
  const MAX_REGULAR_VIEWS: nat := 8
  const MAX_SCAN_VIEWS: nat := 12

  /** A match inside a view, before it is traced back to the source. */
  datatype Match = Match(from: nat, to: nat, dataClass: DataClass, detector: DetectorId, confidence: Confidence)

  /** `detect(view, secretView)` stands for all pattern, term and key detectors together. */
  datatype Scanner = Scanner(nfkc: string -> string, detect: (View, bool) -> seq<Match>)

  /** What is assumed of the library parts: normalization yields text, matches are nonempty and in range. */
  ghost predicate SoundScanner(s: Scanner) {
    && ValidForm(s.nfkc)
    && forall v, secret, m :: m in s.detect(v, secret) ==> m.from < m.to <= |v.text|
  }

  // ----- the decode graph

  ghost predicate Child(nfkc: string -> string, u: View, v: View) {
    && |u.text| == |u.origins|
    && exists t :: (t == JsonEscapes || t == PercentEscapes) && ChildBy(nfkc, t, u, v)
  }

  ghost predicate ChildBy(nfkc: string -> string, t: Transform, u: View, v: View)
    requires |u.text| == |u.origins|
  {
    && Decoders.Decoded(t, u).Ok? && Decoders.Decoded(t, u).value.Some?
    && v == Decoders.Canonicalized(nfkc, Decoders.Decoded(t, u).value.value)
  }

  /** `v` is reached from `root` by at most `k` decode steps. */
  ghost predicate Reachable(nfkc: string -> string, root: View, v: View, k: nat)
    decreases k
  {
    || v == root
    || (k > 0 && exists u :: Reachable(nfkc, root, u, k - 1) && Child(nfkc, u, v))
  }

  /** The views in reach are the text itself, what it decodes to, and what that decodes to. */
  lemma ReachedExactly(nfkc: string -> string, root: View, v: View)
    ensures Reachable(nfkc, root, v, MAX_DECODE_LAYERS) <==>
            || v == root
            || Child(nfkc, root, v)
            || exists u :: Child(nfkc, root, u) && Child(nfkc, u, v)
  {
    hide Child;
    assert forall u :: Reachable(nfkc, root, u, 0) <==> u == root;
    assert forall u :: Reachable(nfkc, root, u, 1) <==> u == root || Child(nfkc, root, u) by {
      forall u
        ensures Reachable(nfkc, root, u, 1) <==> u == root || Child(nfkc, root, u)
      {
        assert Reachable(nfkc, root, root, 0);
      }
    }
    if u :| Child(nfkc, root, u) && Child(nfkc, u, v) {
      assert Reachable(nfkc, root, u, 1);
    }
    assert Reachable(nfkc, root, root, 1);
  }

  /** Percent decoding is the only step that can fail. */
  predicate Expands(v: View) {
    |v.text| == |v.origins| && Decoders.Decoded(PercentEscapes, v).Ok?
  }

  lemma {:induction false} ReachableWellMapped(source: string, nfkc: string -> string, root: View, v: View, k: nat)
    requires WellMapped(source, root) && ValidForm(nfkc) && Reachable(nfkc, root, v, k)
    ensures WellMapped(source, v)
    decreases k
  {
    if v != root {
      var u :| Reachable(nfkc, root, u, k - 1) && Child(nfkc, u, v);
      ReachableWellMapped(source, nfkc, root, u, k - 1);
      ChildWellMapped(source, nfkc, u, v);
    }
  }

  lemma ChildWellMapped(source: string, nfkc: string -> string, u: View, v: View)
    requires WellMapped(source, u) && ValidForm(nfkc) && Child(nfkc, u, v)
    ensures WellMapped(source, v)
  {
    var t :| (t == JsonEscapes || t == PercentEscapes) && ChildBy(nfkc, t, u, v);
    Decoders.DecodedWellMapped(source, t, u);
    Decoders.CanonicalizedWellMapped(source, nfkc, Decoders.Decoded(t, u).value.value);
  }

  // ----- the search

  datatype Item = Item(view: View, depth: nat)

  /** Views an item of this depth can still add to the result, itself included. */
  function Weight(depth: nat): nat {
    if depth == 0 then 7 else if depth == 1 then 3 else 1
  }

  function TotalWeight(queue: seq<Item>): nat {
    if queue == [] then 0 else Weight(queue[0].depth) + TotalWeight(queue[1..])
  }

  lemma {:induction false} TotalWeightAppend(queue: seq<Item>, item: Item)
    ensures TotalWeight(queue + [item]) == TotalWeight(queue) + Weight(item.depth)
  {
    if queue == [] {
      assert queue + [item] == [item];
    } else {
      TotalWeightAppend(queue[1..], item);
      assert (queue + [item])[1..] == queue[1..] + [item];
    }
  }

  /** `c` has been found, or is waiting to be, at the given depth at the latest. */
  ghost predicate Known(views: seq<View>, depthOf: map<View, nat>, queue: seq<Item>, c: View, depth: nat) {
    || (c in views && c in depthOf && depthOf[c] <= depth)
    || Item(c, depth) in queue
  }

  ghost predicate Expanded(nfkc: string -> string, views: seq<View>, depthOf: map<View, nat>, queue: seq<Item>, v: View)
    requires v in depthOf
  {
    && Expands(v)
    && forall c {:trigger Child(nfkc, v, c)} :: Child(nfkc, v, c) ==> Known(views, depthOf, queue, c, depthOf[v] + 1)
  }

  ghost predicate Reached(nfkc: string -> string, root: View, item: Item) {
    item.depth <= MAX_DECODE_LAYERS && Reachable(nfkc, root, item.view, item.depth)
  }

  /** Depths never decrease along the queue and span at most two layers. */
  ghost predicate Layered(queue: seq<Item>) {
    && (forall i, j :: 0 <= i <= j < |queue| ==> queue[i].depth <= queue[j].depth)
    && (forall i :: 0 <= i < |queue| ==> queue[i].depth <= queue[0].depth + 1)
  }

  ghost predicate AllReached(nfkc: string -> string, root: View, queue: seq<Item>) {
    forall q {:trigger Reached(nfkc, root, q)} :: q in queue ==> Reached(nfkc, root, q)
  }

  /** Every view already found is no deeper than what still waits. */
  ghost predicate Behind(depthOf: map<View, nat>, queue: seq<Item>) {
    queue != [] ==> forall v :: v in depthOf ==> depthOf[v] <= queue[0].depth
  }

  /** The invariant of the search loop. */
  ghost predicate SearchInvariant(nfkc: string -> string, root: View, views: seq<View>, depthOf: map<View, nat>,
                                  queue: seq<Item>)
  {
    && AllReached(nfkc, root, queue) && Layered(queue) && Behind(depthOf, queue)
    && Found(nfkc, root, views, depthOf)
    && AllExpanded(nfkc, views, depthOf, queue)
    && Sized(views, SizeLimit(root))
    && |views| + TotalWeight(queue) <= 7
    && Known(views, depthOf, queue, root, 0)
  }

  ghost predicate Found(nfkc: string -> string, root: View, views: seq<View>, depthOf: map<View, nat>) {
    && (forall i, j :: 0 <= i < j < |views| ==> views[i] != views[j])
    && forall v {:trigger v in depthOf} :: (v in views <==> v in depthOf)
         && (v in depthOf ==> depthOf[v] <= MAX_DECODE_LAYERS && Reachable(nfkc, root, v, depthOf[v]))
  }

  ghost predicate AllExpanded(nfkc: string -> string, views: seq<View>, depthOf: map<View, nat>, queue: seq<Item>) {
    forall v {:trigger Expanded(nfkc, views, depthOf, queue, v)} ::
      v in depthOf && depthOf[v] < MAX_DECODE_LAYERS ==> Expanded(nfkc, views, depthOf, queue, v)
  }

  ghost predicate Sized(views: seq<View>, limit: nat) {
    forall i :: 0 <= i < |views| ==> |views[i].text| <= limit
  }

  function SizeLimit(root: View): nat {
    if 4 * |root.origins| > 4 then 4 * |root.origins| else 4
  }

  /** The search has no reason to stop: every view it expands decodes, every view it visits is small enough. */
  ghost predicate Searchable(nfkc: string -> string, root: View) {
    && (forall v {:trigger Expands(v)} :: Reachable(nfkc, root, v, MAX_DECODE_LAYERS - 1) ==> Expands(v))
    && (forall v {:trigger Reachable(nfkc, root, v, MAX_DECODE_LAYERS)} ::
          Reachable(nfkc, root, v, MAX_DECODE_LAYERS) ==> |v.text| <= SizeLimit(root))
  }

  /** The views the search has to return: the reachable ones, each once. */
  ghost predicate ExactlyReachable(nfkc: string -> string, root: View, views: seq<View>) {
    && (forall i, j :: 0 <= i < j < |views| ==> views[i] != views[j])
    && (forall v {:trigger Reachable(nfkc, root, v, MAX_DECODE_LAYERS)} ::
          v in views <==> Reachable(nfkc, root, v, MAX_DECODE_LAYERS))
  }

  /** The decoded and canonicalized successors of one view, in the order the search queues them. */
  method Successors(ghost source: string, nfkc: string -> string, view: View)
    returns (r: Result<seq<View>, DetectorError>)
    requires WellMapped(source, view) && ValidForm(nfkc)
    ensures r.Ok? <==> Expands(view)
    ensures r.Err? ==> r.error == InvalidPercentEncoding
    ensures r.Ok? ==> |r.value| <= 2 && forall v :: v in r.value <==> Child(nfkc, view, v)
  {
    var children: seq<View> := [];
    var json := Decoders.DecodeJsonEscapes(source, view);
    if json.value.Some? {
      Decoders.DecodedWellMapped(source, JsonEscapes, view);
      var canonical := Decoders.Canonicalize(source, nfkc, json.value.value);
      children := children + [canonical.value];
      assert ChildBy(nfkc, JsonEscapes, view, canonical.value);
    }
    ghost var first := children;
    assert forall v :: v in first <==> ChildBy(nfkc, JsonEscapes, view, v);
    var percent := Decoders.DecodePercentEncoding(source, view);
    match percent
    case Err(e) => return Err(e);
    case Ok(decoded) =>
      if decoded.Some? {
        Decoders.DecodedWellMapped(source, PercentEscapes, view);
        var canonical := Decoders.Canonicalize(source, nfkc, decoded.value);
        children := children + [canonical.value];
        assert ChildBy(nfkc, PercentEscapes, view, canonical.value);
      }
      assert forall v :: v in children <==> v in first || ChildBy(nfkc, PercentEscapes, view, v);
      r := Ok(children);
  }

  method ComposedViews(ghost source: string, nfkc: string -> string, root: View)
    returns (r: Result<seq<View>, DetectorError>)
    requires WellMapped(source, root) && ValidForm(nfkc)
    ensures r.Ok? <==> Searchable(nfkc, root)
    ensures r.Ok? ==> ExactlyReachable(nfkc, root, r.value) && |r.value| <= 7
    ensures r.Err? ==> r.error == InvalidPercentEncoding || r.error == NormalizationLimit
  {
    hide SearchInvariant;
    var queue := [Item(root, 0)];
    var views: seq<View> := [];
    ghost var depthOf: map<View, nat> := map[];
    SearchStarts(nfkc, root);
    while queue != []
      invariant SearchInvariant(nfkc, root, views, depthOf, queue)
      decreases TotalWeight(queue)
    {
      var item := queue[0];
      FrontReached(nfkc, root, views, depthOf, queue);
      if item.view in views {
        SkipKeepsInvariant(nfkc, root, views, depthOf, queue);
        queue := queue[1..];
        continue;
      }
      if |item.view.text| > SizeLimit(root) {
        return Err(NormalizationLimit);
      }
      ReachableWellMapped(source, nfkc, root, item.view, MAX_DECODE_LAYERS);
      var expansion := Expansion(source, nfkc, item);
      match expansion
      case Err(e) =>
        return Err(e);
      case Ok(children) =>
        VisitKeepsInvariant(nfkc, root, views, depthOf, queue, children);
        views := views + [item.view];
        depthOf := depthOf[item.view := item.depth];
        queue := queue[1..] + Queued(children, item.depth + 1);
    }
    SearchComplete(nfkc, root, views, depthOf);
    r := Ok(views);
  }

  /** The successors of a queued view, none past the last decode layer. */
  method Expansion(ghost source: string, nfkc: string -> string, item: Item)
    returns (r: Result<seq<View>, DetectorError>)
    requires WellMapped(source, item.view) && ValidForm(nfkc)
    ensures item.depth >= MAX_DECODE_LAYERS ==> r == Ok([])
    ensures item.depth < MAX_DECODE_LAYERS ==> (r.Ok? <==> Expands(item.view))
    ensures item.depth < MAX_DECODE_LAYERS && r.Ok? ==> forall v :: v in r.value <==> Child(nfkc, item.view, v)
    ensures r.Err? ==> r.error == InvalidPercentEncoding
    ensures r.Ok? ==> |r.value| <= 2
  {
    if item.depth >= MAX_DECODE_LAYERS {
      return Ok([]);
    }
    r := Successors(source, nfkc, item.view);
  }

  function Queued(children: seq<View>, depth: nat): seq<Item> {
    seq(|children|, i requires 0 <= i < |children| => Item(children[i], depth))
  }

  // ----- why the search is right

  lemma {:induction false} ReachableAtMost(nfkc: string -> string, root: View, v: View, k: nat, n: nat)
    requires Reachable(nfkc, root, v, k) && k <= n
    ensures Reachable(nfkc, root, v, n)
    decreases k
  {
    if v != root {
      var u :| Reachable(nfkc, root, u, k - 1) && Child(nfkc, u, v);
      ReachableAtMost(nfkc, root, u, k - 1, n - 1);
    }
  }

  lemma SearchStarts(nfkc: string -> string, root: View)
    ensures SearchInvariant(nfkc, root, [], map[], [Item(root, 0)])
  {
    var queue := [Item(root, 0)];
    assert TotalWeight(queue[1..]) == 0;
    assert Item(root, 0) in queue;
  }

  /** The view at the front is within reach, and the guard on the number of views cannot fire. */
  lemma FrontReached(nfkc: string -> string, root: View, views: seq<View>, depthOf: map<View, nat>, queue: seq<Item>)
    requires queue != [] && SearchInvariant(nfkc, root, views, depthOf, queue)
    ensures |views| < MAX_REGULAR_VIEWS
    ensures Reached(nfkc, root, queue[0]) && Reachable(nfkc, root, queue[0].view, MAX_DECODE_LAYERS)
    ensures queue[0].depth < MAX_DECODE_LAYERS ==> Reachable(nfkc, root, queue[0].view, MAX_DECODE_LAYERS - 1)
  {
    assert Reached(nfkc, root, queue[0]);
    ReachableAtMost(nfkc, root, queue[0].view, queue[0].depth, MAX_DECODE_LAYERS);
    if queue[0].depth < MAX_DECODE_LAYERS {
      ReachableAtMost(nfkc, root, queue[0].view, queue[0].depth, MAX_DECODE_LAYERS - 1);
    }
  }

  lemma PopKeepsQueue(nfkc: string -> string, root: View, queue: seq<Item>)
    requires queue != [] && AllReached(nfkc, root, queue) && Layered(queue)
    ensures AllReached(nfkc, root, queue[1..]) && Layered(queue[1..])
    ensures forall i :: 0 <= i < |queue[1..]| ==> queue[0].depth <= queue[1..][i].depth <= queue[0].depth + 1
  {
    var rest := queue[1..];
    assert forall i :: 0 <= i < |rest| ==> rest[i] == queue[i + 1];
    forall q | q in rest
      ensures Reached(nfkc, root, q)
    {
      assert q in queue;
    }
  }

  lemma SkipKeepsInvariant(nfkc: string -> string, root: View, views: seq<View>, depthOf: map<View, nat>,
                           queue: seq<Item>)
    requires queue != [] && SearchInvariant(nfkc, root, views, depthOf, queue) && queue[0].view in views
    ensures SearchInvariant(nfkc, root, views, depthOf, queue[1..])
    ensures TotalWeight(queue[1..]) < TotalWeight(queue)
  {
    PopKeepsQueue(nfkc, root, queue);
    assert queue[0].view in depthOf;
    SkipKeepsExpanded(nfkc, views, depthOf, queue);
  }

  lemma KnownAfterSkip(views: seq<View>, depthOf: map<View, nat>, queue: seq<Item>, c: View, depth: nat)
    requires queue != [] && Known(views, depthOf, queue, c, depth)
    requires queue[0].view in views && queue[0].view in depthOf && depthOf[queue[0].view] <= queue[0].depth
    ensures Known(views, depthOf, queue[1..], c, depth)
  {
    if Item(c, depth) in queue && Item(c, depth) != queue[0] {
      assert queue == [queue[0]] + queue[1..];
    }
  }

  /** Dropping a view already seen loses nothing: it was first met at no greater depth. */
  lemma SkipKeepsExpanded(nfkc: string -> string, views: seq<View>, depthOf: map<View, nat>, queue: seq<Item>)
    requires queue != [] && AllExpanded(nfkc, views, depthOf, queue)
    requires queue[0].view in views && queue[0].view in depthOf && depthOf[queue[0].view] <= queue[0].depth
    ensures AllExpanded(nfkc, views, depthOf, queue[1..])
    ensures forall root :: Known(views, depthOf, queue, root, 0) ==> Known(views, depthOf, queue[1..], root, 0)
  {
    forall v | v in depthOf && depthOf[v] < MAX_DECODE_LAYERS
      ensures Expanded(nfkc, views, depthOf, queue[1..], v)
    {
      assert Expanded(nfkc, views, depthOf, queue, v);
      forall c | Child(nfkc, v, c)
        ensures Known(views, depthOf, queue[1..], c, depthOf[v] + 1)
      {
        KnownAfterSkip(views, depthOf, queue, c, depthOf[v] + 1);
      }
    }
    forall root | Known(views, depthOf, queue, root, 0)
      ensures Known(views, depthOf, queue[1..], root, 0)
    {
      KnownAfterSkip(views, depthOf, queue, root, 0);
    }
  }

  lemma KnownAfterVisit(views: seq<View>, depthOf: map<View, nat>, queue: seq<Item>, more: seq<Item>, c: View,
                        depth: nat)
    requires queue != [] && Known(views, depthOf, queue, c, depth) && queue[0].view !in depthOf
    ensures Known(views + [queue[0].view], depthOf[queue[0].view := queue[0].depth], queue[1..] + more, c, depth)
  {
    if Item(c, depth) in queue && Item(c, depth) != queue[0] {
      assert queue == [queue[0]] + queue[1..];
    }
  }

  lemma WeightOfChildren(rest: seq<Item>, children: seq<View>, depth: nat)
    requires |children| <= 2
    ensures TotalWeight(rest + Queued(children, depth)) == TotalWeight(rest) + |children| * Weight(depth)
  {
    var more := Queued(children, depth);
    if |children| == 0 {
      assert rest + more == rest;
    } else if |children| == 1 {
      assert more == [more[0]];
      TotalWeightAppend(rest, more[0]);
    } else {
      assert rest + more == (rest + [more[0]]) + [more[1]];
      TotalWeightAppend(rest, more[0]);
      TotalWeightAppend(rest + [more[0]], more[1]);
    }
  }

  lemma LayersAfterVisit(queue: seq<Item>, children: seq<View>)
    requires queue != [] && Layered(queue)
    ensures Layered(queue[1..] + Queued(children, queue[0].depth + 1))
    ensures forall q :: q in queue[1..] + Queued(children, queue[0].depth + 1) ==> queue[0].depth <= q.depth
  {
    var rest, more := queue[1..], Queued(children, queue[0].depth + 1);
    var all := rest + more;
    forall i | 0 <= i < |all|
      ensures queue[0].depth <= all[i].depth <= queue[0].depth + 1
      ensures i >= |rest| ==> all[i].depth == queue[0].depth + 1
      ensures i < |rest| ==> all[i] == queue[i + 1]
    {
      if i < |rest| {
        assert all[i] == queue[i + 1];
      } else {
        assert all[i] == more[i - |rest|];
      }
    }
  }

  lemma ReachedAfterVisit(nfkc: string -> string, root: View, queue: seq<Item>, children: seq<View>)
    requires queue != [] && AllReached(nfkc, root, queue)
    requires queue[0].depth == MAX_DECODE_LAYERS ==> children == []
    requires queue[0].depth < MAX_DECODE_LAYERS ==> forall c :: c in children <==> Child(nfkc, queue[0].view, c)
    ensures AllReached(nfkc, root, queue[1..] + Queued(children, queue[0].depth + 1))
  {
    var more := Queued(children, queue[0].depth + 1);
    assert Reached(nfkc, root, queue[0]);
    forall q | q in queue[1..] + more
      ensures Reached(nfkc, root, q)
    {
      if q in queue[1..] {
        assert q in queue;
      } else {
        var i :| 0 <= i < |more| && more[i] == q;
        assert q.view in children && Child(nfkc, queue[0].view, q.view);
      }
    }
  }

  lemma FoundAfterVisit(nfkc: string -> string, root: View, views: seq<View>, depthOf: map<View, nat>, item: Item)
    requires Found(nfkc, root, views, depthOf) && item.view !in views && item.depth <= MAX_DECODE_LAYERS
    requires Reachable(nfkc, root, item.view, item.depth)
    ensures Found(nfkc, root, views + [item.view], depthOf[item.view := item.depth])
  {
    var all, depths := views + [item.view], depthOf[item.view := item.depth];
    forall v
      ensures v in all <==> v in depths
      ensures v in depths ==> depths[v] <= MAX_DECODE_LAYERS && Reachable(nfkc, root, v, depths[v])
    {
      assert v in all <==> v in views || v == item.view;
      assert v in views <==> v in depthOf;
    }
  }

  lemma ExpandedAfterVisit(nfkc: string -> string, root: View, views: seq<View>, depthOf: map<View, nat>,
                           queue: seq<Item>, children: seq<View>)
    requires queue != [] && queue[0].view !in depthOf && AllExpanded(nfkc, views, depthOf, queue)
    requires queue[0].depth < MAX_DECODE_LAYERS ==>
               Expands(queue[0].view) && forall c :: c in children <==> Child(nfkc, queue[0].view, c)
    ensures AllExpanded(nfkc, views + [queue[0].view], depthOf[queue[0].view := queue[0].depth],
                        queue[1..] + Queued(children, queue[0].depth + 1))
  {
    hide Child, Expands;
    var item, more := queue[0], Queued(children, queue[0].depth + 1);
    var all, depths, next := views + [item.view], depthOf[item.view := item.depth], queue[1..] + more;
    forall v | v in depths && depths[v] < MAX_DECODE_LAYERS
      ensures Expanded(nfkc, all, depths, next, v)
    {
      forall c | Child(nfkc, v, c)
        ensures Known(all, depths, next, c, depths[v] + 1)
      {
        if v == item.view {
          var i :| 0 <= i < |children| && children[i] == c;
          assert more[i] == Item(c, item.depth + 1);
          assert Item(c, item.depth + 1) in next;
        } else {
          assert Expanded(nfkc, views, depthOf, queue, v);
          KnownAfterVisit(views, depthOf, queue, more, c, depthOf[v] + 1);
        }
      }
      if v != item.view {
        assert Expanded(nfkc, views, depthOf, queue, v);
      }
    }
  }

  lemma BehindAfterVisit(depthOf: map<View, nat>, queue: seq<Item>, children: seq<View>)
    requires queue != [] && Behind(depthOf, queue) && Layered(queue)
    ensures Behind(depthOf[queue[0].view := queue[0].depth], queue[1..] + Queued(children, queue[0].depth + 1))
  {
    hide Queued;
    var next := queue[1..] + Queued(children, queue[0].depth + 1);
    LayersAfterVisit(queue, children);
    if next != [] {
      assert next[0] in next;
    }
  }

  lemma WeightAfterVisit(queue: seq<Item>, children: seq<View>)
    requires queue != [] && |children| <= 2 && queue[0].depth <= MAX_DECODE_LAYERS
    requires queue[0].depth == MAX_DECODE_LAYERS ==> children == []
    ensures TotalWeight(queue[1..] + Queued(children, queue[0].depth + 1)) + 1 <= TotalWeight(queue)
  {
    WeightOfChildren(queue[1..], children, queue[0].depth + 1);
  }

  lemma FrontIsNew(views: seq<View>, depthOf: map<View, nat>, nfkc: string -> string, root: View, v: View)
    requires Found(nfkc, root, views, depthOf) && v !in views
    ensures v !in depthOf
  {
  }

  lemma VisitKeepsInvariant(nfkc: string -> string, root: View, views: seq<View>, depthOf: map<View, nat>,
                            queue: seq<Item>, children: seq<View>)
    requires queue != [] && SearchInvariant(nfkc, root, views, depthOf, queue)
    requires queue[0].view !in views && |queue[0].view.text| <= SizeLimit(root) && |children| <= 2
    requires queue[0].depth == MAX_DECODE_LAYERS ==> children == []
    requires queue[0].depth < MAX_DECODE_LAYERS ==>
               Expands(queue[0].view) && forall c :: c in children <==> Child(nfkc, queue[0].view, c)
    ensures SearchInvariant(nfkc, root, views + [queue[0].view], depthOf[queue[0].view := queue[0].depth],
                            queue[1..] + Queued(children, queue[0].depth + 1))
    ensures TotalWeight(queue[1..] + Queued(children, queue[0].depth + 1)) < TotalWeight(queue)
  {
    hide AllReached, Layered, Behind, Found, AllExpanded, Known, Queued, TotalWeight, Child, Reachable, Expands;
    var item := queue[0];
    FrontReached(nfkc, root, views, depthOf, queue);
    FrontIsNew(views, depthOf, nfkc, root, item.view);
    ReachedAfterVisit(nfkc, root, queue, children);
    LayersAfterVisit(queue, children);
    BehindAfterVisit(depthOf, queue, children);
    FoundAfterVisit(nfkc, root, views, depthOf, item);
    ExpandedAfterVisit(nfkc, root, views, depthOf, queue, children);
    KnownAfterVisit(views, depthOf, queue, Queued(children, item.depth + 1), root, 0);
    WeightAfterVisit(queue, children);
  }

  /** With an empty queue, every view within reach has been found at no more than its distance. */
  lemma {:induction false} ReachedIsFound(nfkc: string -> string, root: View, views: seq<View>,
                                          depthOf: map<View, nat>, v: View, k: nat)
    requires AllExpanded(nfkc, views, depthOf, []) && Known(views, depthOf, [], root, 0)
    requires k <= MAX_DECODE_LAYERS && Reachable(nfkc, root, v, k)
    ensures v in views && v in depthOf && depthOf[v] <= k
    decreases k
  {
    if v != root {
      var u :| Reachable(nfkc, root, u, k - 1) && Child(nfkc, u, v);
      ReachedIsFound(nfkc, root, views, depthOf, u, k - 1);
      assert Expanded(nfkc, views, depthOf, [], u);
    }
  }

  lemma SearchComplete(nfkc: string -> string, root: View, views: seq<View>, depthOf: map<View, nat>)
    requires SearchInvariant(nfkc, root, views, depthOf, [])
    ensures ExactlyReachable(nfkc, root, views) && Searchable(nfkc, root) && |views| <= 7
  {
    forall v
      ensures v in views <==> Reachable(nfkc, root, v, MAX_DECODE_LAYERS)
    {
      if v in views {
        assert v in depthOf;
        ReachableAtMost(nfkc, root, v, depthOf[v], MAX_DECODE_LAYERS);
      }
      if Reachable(nfkc, root, v, MAX_DECODE_LAYERS) {
        ReachedIsFound(nfkc, root, views, depthOf, v, MAX_DECODE_LAYERS);
      }
    }
    forall v | Reachable(nfkc, root, v, MAX_DECODE_LAYERS - 1)
      ensures Expands(v)
    {
      ReachedIsFound(nfkc, root, views, depthOf, v, MAX_DECODE_LAYERS - 1);
      assert Expanded(nfkc, views, depthOf, [], v);
    }
  }

  // ----- the scan

  /** `v` is `u` with its candidate separators collapsed. */
  ghost predicate Collapsed(u: View, v: View) {
    |u.text| == |u.origins| && Decoders.Decoded(Separators, u) == Ok(Some(v))
  }

  /** The views detection runs over: the reachable ones, and as secret views their collapsed forms. */
  ghost predicate Scanned(nfkc: string -> string, root: View, v: View, secret: bool) {
    if secret then exists u :: Reachable(nfkc, root, u, MAX_DECODE_LAYERS) && Collapsed(u, v)
    else Reachable(nfkc, root, v, MAX_DECODE_LAYERS)
  }

  datatype ScanView = ScanView(view: View, secret: bool)

  /** A match traced back to the source. */
  function Traced(v: View, m: Match): Finding
    requires m.from < m.to <= |v.text| == |v.origins|
  {
    Finding(m.dataClass, m.detector, m.confidence, PieceSource(v, m.from, m.to))
  }

  /** What deduplication treats as the same finding. */
  predicate SameFinding(f: Finding, g: Finding) {
    f.span == g.span && f.dataClass == g.dataClass && f.detector == g.detector
  }

  ghost predicate Represented(f: Finding, findings: seq<Finding>) {
    exists g :: g in findings && SameFinding(f, g)
  }

  ghost predicate MatchOf(s: Scanner, v: ScanView, m: Match) {
    && m in s.detect(v.view, v.secret) && |v.view.text| == |v.view.origins|
    && m.from < m.to <= |v.view.text|
  }

  ghost predicate FoundIn(s: Scanner, v: ScanView, f: Finding) {
    exists m :: MatchOf(s, v, m) && f == Traced(v.view, m)
  }

  /** Every match in every one of `views` is represented, and nothing else is. */
  ghost predicate ReportsViews(s: Scanner, views: seq<ScanView>, findings: seq<Finding>) {
    && (forall v, f {:trigger FoundIn(s, v, f)} :: v in views && FoundIn(s, v, f) ==> Represented(f, findings))
    && (forall f :: f in findings ==> exists v :: v in views && FoundIn(s, v, f))
  }

  /** The specification of a scan: no match in any decoded view is lost, none is invented, all are aligned. */
  ghost predicate Reports(s: Scanner, source: string, findings: seq<Finding>) {
    var root := Decoders.Normalized(s.nfkc, source);
    && (forall v: ScanView, f {:trigger FoundIn(s, v, f)} ::
          Scanned(s.nfkc, root, v.view, v.secret) && FoundIn(s, v, f) ==> Represented(f, findings))
    && (forall f :: f in findings ==> Aligned(source, f))
    && (forall f :: f in findings ==> exists v: ScanView :: Scanned(s.nfkc, root, v.view, v.secret) && FoundIn(s, v, f))
  }

  ghost predicate Aligned(source: string, f: Finding) {
    OnBoundaries(source, f.span)
  }

  predicate FindingOrder(f: Finding, g: Finding) {
    || f.span.start < g.span.start
    || (f.span.start == g.span.start && f.span.end < g.span.end)
    || (f.span == g.span && f.detector.Rank() <= g.detector.Rank())
  }

  /** How many scan views a list of regular views gives rise to. */
  function ViewCount(regular: seq<View>): nat {
    if regular == [] then 0
    else
      var last := regular[|regular| - 1];
      ViewCount(regular[..|regular| - 1]) + (if Changes(Separators, last.text, 0) then 2 else 1)
  }

  ghost predicate CollapsedFrom(regular: seq<View>, v: View) {
    exists u :: u in regular && Collapsed(u, v)
  }

  /** The scan views are the regular views and their collapsed forms. */
  ghost predicate Assembled(regular: seq<View>, views: seq<ScanView>) {
    forall v: ScanView {:trigger v in views} :: v in views <==>
      if v.secret then CollapsedFrom(regular, v.view) else v.view in regular
  }

  lemma AssembledStep(regular: seq<View>, views: seq<ScanView>, u: View, collapsed: Option<View>)
    requires Assembled(regular, views) && |u.text| == |u.origins| && Decoders.Decoded(Separators, u) == Ok(collapsed)
    ensures Assembled(regular + [u], views + [ScanView(u, false)]
                      + (if collapsed.Some? then [ScanView(collapsed.value, true)] else []))
  {
    hide Decoders.Decoded;
    var all := views + [ScanView(u, false)] + (if collapsed.Some? then [ScanView(collapsed.value, true)] else []);
    forall v: ScanView
      ensures v in all <==> if v.secret then CollapsedFrom(regular + [u], v.view) else v.view in regular + [u]
    {
      if v.secret {
        if v in all && v in views {
          assert CollapsedFrom(regular, v.view);
          var w :| w in regular && Collapsed(w, v.view);
          assert w in regular + [u];
        }
        if v in all && v !in views {
          assert u in regular + [u] && Collapsed(u, v.view);
        }
        if w :| w in regular + [u] && Collapsed(w, v.view) {
          assert w in regular ==> CollapsedFrom(regular, v.view) && v in views;
        }
      }
    }
  }

  method AssembleViews(ghost source: string, regular: seq<View>) returns (r: Result<seq<ScanView>, DetectorError>)
    requires forall u :: u in regular ==> WellMapped(source, u)
    ensures r.Ok? <==> ViewCount(regular) <= MAX_SCAN_VIEWS
    ensures r.Err? ==> r.error == NormalizationLimit
    ensures r.Ok? ==> Assembled(regular, r.value)
  {
    hide Assembled, MapOk, Utf8.Valid;
    var views: seq<ScanView> := [];
    AssembledNothing();
    for i := 0 to |regular|
      invariant |views| == ViewCount(regular[..i]) <= MAX_SCAN_VIEWS
      invariant Assembled(regular[..i], views)
    {
      var view := regular[i];
      assert regular[..i + 1][..i] == regular[..i] && regular[..i + 1] == regular[..i] + [view];
      ViewCountMonotone(regular, i + 1);
      if |views| >= MAX_SCAN_VIEWS {
        return Err(NormalizationLimit);
      }
      var collapsed := Decoders.CollapseCandidateSeparators(source, view);
      AssembledStep(regular[..i], views, view, collapsed.value);
      views := views + [ScanView(view, false)];
      if collapsed.value.Some? {
        if |views| >= MAX_SCAN_VIEWS {
          return Err(NormalizationLimit);
        }
        views := views + [ScanView(collapsed.value.value, true)];
      } else {
        assert views + [] == views;
      }
    }
    assert regular[..|regular|] == regular;
    r := Ok(views);
  }

  lemma AssembledNothing()
    ensures Assembled([], [])
  {
  }

  lemma {:induction false} ViewCountMonotone(regular: seq<View>, i: nat)
    requires i <= |regular|
    ensures ViewCount(regular[..i]) <= ViewCount(regular)
    decreases |regular|
  {
    if i == |regular| {
      assert regular[..i] == regular;
    } else {
      var shorter := regular[..|regular| - 1];
      ViewCountMonotone(shorter, i);
      assert shorter[..i] == regular[..i];
    }
  }

  /** One view's matches, traced to the source. */
  method FindingsIn(ghost source: string, s: Scanner, v: ScanView) returns (findings: seq<Finding>)
    requires SoundScanner(s) && WellMapped(source, v.view)
    ensures forall f :: f in findings <==> FoundIn(s, v, f)
    ensures forall f :: f in findings ==> Aligned(source, f)
  {
    hide Utf8.Valid, MapOk;
    var matches := s.detect(v.view, v.secret);
    findings := [];
    for i := 0 to |matches|
      invariant forall f :: f in findings <==> exists k :: 0 <= k < i && f == Traced(v.view, matches[k])
      invariant forall f :: f in findings ==> Aligned(source, f)
    {
      var m := matches[i];
      assert m in s.detect(v.view, v.secret);
      Decoders.CombinedInView(source, v.view, m.from, m.to);
      MatchAligned(source, v.view, m);
      var combined := CombinedSource(v.view.origins, m.from, m.to);
      findings := findings + [Finding(m.dataClass, m.detector, m.confidence, combined.value)];
    }
    forall f
      ensures f in findings <==> FoundIn(s, v, f)
    {
      if f in findings {
        var k :| 0 <= k < |matches| && f == Traced(v.view, matches[k]);
        assert MatchOf(s, v, matches[k]);
      }
      if FoundIn(s, v, f) {
        var m :| MatchOf(s, v, m) && f == Traced(v.view, m);
        var k :| 0 <= k < |matches| && matches[k] == m;
      }
    }
  }

  lemma MatchAligned(source: string, v: View, m: Match)
    requires WellMapped(source, v) && m.from < m.to <= |v.text|
    ensures Aligned(source, Traced(v, m))
  {
    hide Utf8.Valid;
    CombinedSourceCovers(source, v.origins, m.from, m.to);
    Decoders.CombinedInView(source, v, m.from, m.to);
  }

  lemma RepresentedLonger(f: Finding, findings: seq<Finding>, longer: seq<Finding>)
    requires Represented(f, findings) && findings <= longer
    ensures Represented(f, longer)
  {
    var g :| g in findings && SameFinding(f, g);
    assert g in longer;
  }

  /** `dedup_by`: drops a finding that equals the last one kept. */
  method Dedup(findings: seq<Finding>) returns (kept: seq<Finding>)
    ensures forall f :: f in kept ==> f in findings
    ensures forall f :: f in findings ==> Represented(f, kept)
    ensures forall i :: 0 < i < |kept| ==> !SameFinding(kept[i - 1], kept[i])
  {
    kept := [];
    for i := 0 to |findings|
      invariant forall f :: f in kept ==> f in findings
      invariant forall k :: 0 <= k < i ==> Represented(findings[k], kept)
      invariant forall j :: 0 < j < |kept| ==> !SameFinding(kept[j - 1], kept[j])
    {
      ghost var before := kept;
      if kept == [] || !SameFinding(findings[i], kept[|kept| - 1]) {
        kept := kept + [findings[i]];
      }
      assert kept[|kept| - 1] in kept;
      forall k | 0 <= k < i + 1
        ensures Represented(findings[k], kept)
      {
        if k < i {
          RepresentedLonger(findings[k], before, kept);
        }
      }
    }
  }

  // ----- which texts can be scanned

  /** The scan has no reason to refuse the text: the search gets through and finds at most twelve views. */
  ghost predicate Scannable(s: Scanner, source: string) {
    var root := Decoders.Normalized(s.nfkc, source);
    && Searchable(s.nfkc, root)
    && forall list {:trigger ExactlyReachable(s.nfkc, root, list)} ::
         ExactlyReachable(s.nfkc, root, list) ==> ViewCount(list) <= MAX_SCAN_VIEWS
  }

  function Members(list: seq<View>): set<View> {
    set v | v in list
  }

  function Splitting(list: seq<View>): set<View> {
    set v | v in list && Changes(Separators, v.text, 0)
  }

  lemma CountStep(list: seq<View>, last: View)
    requires last !in list
    ensures Splitting(list) <= Members(list)
    ensures |Members(list + [last])| == |Members(list)| + 1
    ensures |Splitting(list + [last])| == |Splitting(list)| + (if Changes(Separators, last.text, 0) then 1 else 0)
    ensures ViewCount(list + [last]) == ViewCount(list) + (if Changes(Separators, last.text, 0) then 2 else 1)
  {
    hide Changes;
    var longer := list + [last];
    assert longer[..|longer| - 1] == list;
    assert Members(longer) == Members(list) + {last};
    assert Splitting(longer) == Splitting(list) + (if Changes(Separators, last.text, 0) then {last} else {});
  }

  /** A list without duplicates gives rise to one scan view per member, and another if it has separators to drop. */
  lemma {:induction false} ViewCountIs(list: seq<View>)
    requires forall i, j :: 0 <= i < j < |list| ==> list[i] != list[j]
    ensures ViewCount(list) == |Members(list)| + |Splitting(list)|
  {
    if list == [] {
      assert Members(list) == {} && Splitting(list) == {};
    } else {
      hide *;
      var shorter, last := list[..|list| - 1], list[|list| - 1];
      ViewCountIs(shorter);
      assert list == shorter + [last] && last !in shorter;
      CountStep(shorter, last);
    }
  }

  /** However the search orders the views, they give rise to as many scan views. */
  lemma ViewCountOrderless(nfkc: string -> string, root: View, a: seq<View>, b: seq<View>)
    requires ExactlyReachable(nfkc, root, a) && ExactlyReachable(nfkc, root, b)
    ensures ViewCount(a) == ViewCount(b)
  {
    ViewCountIs(a);
    ViewCountIs(b);
    assert forall v :: v in a <==> Reachable(nfkc, root, v, MAX_DECODE_LAYERS);
    assert Members(a) == Members(b) && Splitting(a) == Splitting(b);
  }

  lemma ScannableIff(s: Scanner, source: string, list: seq<View>)
    requires ExactlyReachable(s.nfkc, Decoders.Normalized(s.nfkc, source), list)
    requires Searchable(s.nfkc, Decoders.Normalized(s.nfkc, source))
    ensures Scannable(s, source) <==> ViewCount(list) <= MAX_SCAN_VIEWS
  {
    hide ExactlyReachable, Searchable, ViewCount;
    var root := Decoders.Normalized(s.nfkc, source);
    forall other | ExactlyReachable(s.nfkc, root, other)
      ensures ViewCount(other) == ViewCount(list)
    {
      ViewCountOrderless(s.nfkc, root, other, list);
    }
  }

  method ScanSource(s: Scanner, source: string) returns (r: Result<seq<Finding>, DetectorError>)
    requires SoundScanner(s) && Utf8.Valid(source)
    ensures r.Ok? <==> Scannable(s, source)
    ensures r.Ok? ==> Reports(s, source, r.value)
    ensures r.Err? ==> r.error == InvalidPercentEncoding || r.error == NormalizationLimit
  {
    hide Utf8.Valid, ExactlyReachable, Searchable, ReportsViews, Reports, MapOk, ViewCount, Scannable;
    var normalized := Decoders.Normalize(s.nfkc, source);
    var root := normalized.value;
    var regular := ComposedViews(source, s.nfkc, root);
    match regular
    case Err(e) =>
      OnlySearchable(s, source);
      return Err(e);
    case Ok(list) =>
      ScannableIff(s, source, list);
      AllWellMapped(source, s.nfkc, root, list);
      var assembled := AssembleViews(source, list);
      match assembled
      case Err(e) => return Err(e);
      case Ok(views) =>
        ViewsAreScanned(source, s.nfkc, root, list, views);
        var findings := Collect(source, s, views);
        ScanReports(s, source, root, views, findings);
        r := Ok(findings);
  }

  lemma OnlySearchable(s: Scanner, source: string)
    ensures Scannable(s, source) ==> Searchable(s.nfkc, Decoders.Normalized(s.nfkc, source))
  {
  }

  lemma AllWellMapped(source: string, nfkc: string -> string, root: View, list: seq<View>)
    requires WellMapped(source, root) && ValidForm(nfkc) && ExactlyReachable(nfkc, root, list)
    ensures forall u :: u in list ==> WellMapped(source, u)
  {
    forall u | u in list
      ensures WellMapped(source, u)
    {
      assert Reachable(nfkc, root, u, MAX_DECODE_LAYERS);
      ReachableWellMapped(source, nfkc, root, u, MAX_DECODE_LAYERS);
    }
  }

  ghost predicate ExactlyScanned(nfkc: string -> string, root: View, views: seq<ScanView>) {
    forall v: ScanView {:trigger v in views} :: v in views <==> Scanned(nfkc, root, v.view, v.secret)
  }

  lemma ViewsAreScanned(source: string, nfkc: string -> string, root: View, list: seq<View>, views: seq<ScanView>)
    requires ExactlyReachable(nfkc, root, list)
    requires forall u :: u in list ==> WellMapped(source, u)
    requires Assembled(list, views)
    ensures ExactlyScanned(nfkc, root, views)
    ensures forall v: ScanView :: v in views ==> WellMapped(source, v.view)
  {
    hide Utf8.Valid, MapOk, Decoders.Decoded;
    forall v: ScanView
      ensures v in views <==> Scanned(nfkc, root, v.view, v.secret)
      ensures v in views ==> WellMapped(source, v.view)
    {
      if v.secret {
        if v in views {
          assert CollapsedFrom(list, v.view);
          var u :| u in list && Collapsed(u, v.view);
          assert Reachable(nfkc, root, u, MAX_DECODE_LAYERS);
          Decoders.DecodedWellMapped(source, Separators, u);
        }
        if Scanned(nfkc, root, v.view, v.secret) {
          var u :| Reachable(nfkc, root, u, MAX_DECODE_LAYERS) && Collapsed(u, v.view);
          assert u in list && CollapsedFrom(list, v.view);
        }
      } else {
        assert v.view in list <==> Reachable(nfkc, root, v.view, MAX_DECODE_LAYERS);
      }
    }
  }

  /** Runs the detectors over all views, then sorts and deduplicates. */
  method Collect(ghost source: string, s: Scanner, views: seq<ScanView>) returns (findings: seq<Finding>)
    requires SoundScanner(s) && forall v: ScanView :: v in views ==> WellMapped(source, v.view)
    ensures ReportsViews(s, views, findings)
    ensures forall f :: f in findings ==> Aligned(source, f)
  {
    hide Utf8.Valid, MapOk, FoundIn, Sorting.Sort, WellMapped, SoundScanner, Aligned;
    var all: seq<Finding> := [];
    for i := 0 to |views|
      invariant forall f :: f in all ==> Aligned(source, f)
      invariant forall k, f :: 0 <= k < i && FoundIn(s, views[k], f) ==> f in all
      invariant forall f :: f in all ==> exists k :: 0 <= k < i && FoundIn(s, views[k], f)
    {
      assert views[i] in views;
      var more := FindingsIn(source, s, views[i]);
      all := all + more;
    }
    var ordered := Sorting.Sort(FindingOrder, all);
    Sorting.SortSorts(FindingOrder, all);
    Sorting.SameMembers(ordered, all);
    findings := Dedup(ordered);
    forall f | f in findings
      ensures exists v :: v in views && FoundIn(s, v, f)
    {
      assert f in all;
      var k :| 0 <= k < |views| && FoundIn(s, views[k], f);
      assert views[k] in views;
    }
    forall v, f | v in views && FoundIn(s, v, f)
      ensures Represented(f, findings)
    {
      var k :| 0 <= k < |views| && views[k] == v;
      assert f in ordered;
    }
  }

  lemma ScanReports(s: Scanner, source: string, root: View, views: seq<ScanView>, findings: seq<Finding>)
    requires root == Decoders.Normalized(s.nfkc, source)
    requires ExactlyScanned(s.nfkc, root, views) && ReportsViews(s, views, findings)
    requires forall f :: f in findings ==> Aligned(source, f)
    ensures Reports(s, source, findings)
  {
    hide Scanned, FoundIn, Represented, Aligned;
    forall v: ScanView, f | Scanned(s.nfkc, root, v.view, v.secret) && FoundIn(s, v, f)
      ensures Represented(f, findings)
    {
      assert v in views;
    }
    forall f | f in findings
      ensures exists v: ScanView :: Scanned(s.nfkc, root, v.view, v.secret) && FoundIn(s, v, f)
    {
      var v :| v in views && FoundIn(s, v, f);
      assert Scanned(s.nfkc, root, v.view, v.secret);
    }
  }
}
