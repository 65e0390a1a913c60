/** What each bundling strategy makes of a sequence of `addEdge` calls on a new manager. */
module EdgeFacts {
  import opened Wrappers
  import opened Strings
  import opened Edges

  /** The state after adding `es` in order to a new manager with bundling `b`. */
  function Build(b: Bundling, es: seq<Edge>): Manager {
    AddAll(NewManager(Some(b)), es)
  }

  lemma BuildStep(b: Bundling, es: seq<Edge>)
    requires |es| > 0
    ensures Build(b, es) == AddEdge(Build(b, es[..|es| - 1]), es[|es| - 1])
    ensures Ids(es) == Ids(es[..|es| - 1]) + [es[|es| - 1].id]
  {
    IdsInit(es);
  }

  /** Bidirectional bookkeeping: stored ids, counters and `_count` all follow the added ids. */
  ghost predicate BiState(m: Manager, ids: seq<string>) {
    && (forall k :: k in m.edges <==> k in ids)
    && (forall k :: CounterOf(m, k) == Count(ids, k))
    && (m.bundling.count ==> forall k :: k in m.edges ==> m.edges[k].count == Some(Count(ids, k)))
  }

  lemma BiStep(m: Manager, ids: seq<string>, e: Edge)
    requires StrategyOfManager(m) == Bidirectional && BiState(m, ids)
    ensures BiState(AddEdge(m, e), ids + [e.id])
  {
    var m' := AddEdge(m, e);
    forall k ensures CounterOf(m', k) == Count(ids + [e.id], k) {
      CountAppend(ids, k, e.id);
    }
    forall k ensures k in m'.edges <==> k in ids + [e.id] {
    }
  }

  /**
   * Under `bidirectional` an edge is stored under exactly the id it was added with, `a-b` and
   * `b-a` apart; each id's counter, and the `_count` of its edge, is the number of times it was added.
   */
  lemma {:induction false} BidirectionalKeepsDirections(b: Bundling, es: seq<Edge>)
    requires StrategyOf(b.kind) == Bidirectional
    ensures var m := Build(b, es);
            && (forall k :: k in m.edges <==> k in Ids(es))
            && (forall k :: CounterOf(m, k) == Count(Ids(es), k))
            && (b.count ==> forall k :: k in m.edges ==> m.edges[k].count == Some(Count(Ids(es), k)))
  {
    if |es| == 0 {
      assert Ids(es) == [];
    } else {
      var init := es[..|es| - 1];
      BidirectionalKeepsDirections(b, init);
      BuildStep(b, es);
      BiStep(Build(b, init), Ids(init), es[|es| - 1]);
    }
  }

  /** A new manager with no settings bundles bidirectionally and counts. */
  lemma DefaultIsBidirectional(es: seq<Edge>)
    ensures var m := AddAll(NewManager(None), es);
            && StrategyOfManager(m) == Bidirectional && m.bundling.count
            && (forall k :: k in m.edges <==> k in Ids(es))
  {
    var b := UpdateSettings(None);
    assert NewManager(None) == NewManager(Some(b));
    BidirectionalKeepsDirections(b, es);
  }

  /** Allow bookkeeping: counters count base ids, and every stored id is a base id tagged with a used count. */
  ghost predicate AllowState(m: Manager, ids: seq<string>) {
    && (forall k :: CounterOf(m, k) == Count(ids, k))
    && (forall k :: k in m.edges ==> exists base, n: nat :: k == Tagged(base, n) && 1 <= n <= CounterOf(m, base))
    && |m.order| == |ids|
  }

  /** The next tagged id is not yet stored. */
  lemma AllowFresh(m: Manager, ids: seq<string>, id: string)
    requires StrategyOfManager(m) == Allow && AllowState(m, ids)
    ensures Tagged(id, CounterOf(m, id) + 1) !in m.edges
  {
    var c := CounterOf(m, id);
    if Tagged(id, c + 1) in m.edges {
      var base, n: nat :| Tagged(id, c + 1) == Tagged(base, n) && 1 <= n <= CounterOf(m, base);
      TaggedInjective(id, c + 1, base, n);
    }
  }

  lemma AllowStep(m: Manager, ids: seq<string>, e: Edge)
    requires StrategyOfManager(m) == Allow && AllowState(m, ids) && Valid(m)
    ensures AllowState(AddEdge(m, e), ids + [e.id])
    ensures NextId(m, e.id).1 !in m.edges
  {
    var m' := AddEdge(m, e);
    AllowFresh(m, ids, e.id);
    assert |m'.order| == |ids + [e.id]|;
    AllowCounters(m, ids, e);
    AllowTags(m, ids, e);
  }

  lemma AllowCounters(m: Manager, ids: seq<string>, e: Edge)
    requires StrategyOfManager(m) == Allow && forall k :: CounterOf(m, k) == Count(ids, k)
    ensures forall k :: CounterOf(AddEdge(m, e), k) == Count(ids + [e.id], k)
  {
    forall k ensures CounterOf(AddEdge(m, e), k) == Count(ids + [e.id], k) {
      CountAppend(ids, k, e.id);
    }
  }

  lemma AllowTags(m: Manager, ids: seq<string>, e: Edge)
    requires StrategyOfManager(m) == Allow && AllowState(m, ids)
    ensures forall k :: k in AddEdge(m, e).edges ==>
              exists base, n: nat :: k == Tagged(base, n) && 1 <= n <= CounterOf(AddEdge(m, e), base)
  {
    var m' := AddEdge(m, e);
    var c := CounterOf(m, e.id);
    var next := Tagged(e.id, c + 1);
    forall k | k in m'.edges
      ensures exists base, n: nat :: k == Tagged(base, n) && 1 <= n <= CounterOf(m', base)
    {
      if k == next {
        assert k == Tagged(e.id, c + 1) && CounterOf(m', e.id) == c + 1;
      } else {
        var base, n: nat :| k == Tagged(base, n) && 1 <= n <= CounterOf(m, base);
        assert CounterOf(m, base) <= CounterOf(m', base);
      }
    }
  }

  /**
   * Under `allow` every added edge is kept: the ids `id-1`, `id-2`, ... never collide, so the
   * manager holds as many edges as were added, and each base id's counter counts its additions.
   */
  lemma {:induction false} AllowKeepsEvery(b: Bundling, es: seq<Edge>)
    requires StrategyOf(b.kind) == Allow
    ensures var m := Build(b, es);
            && |GetEdges(m)| == |es|
            && (forall k :: CounterOf(m, k) == Count(Ids(es), k))
  {
    AllowBuild(b, es);
  }

  lemma {:induction false} AllowBuild(b: Bundling, es: seq<Edge>)
    requires StrategyOf(b.kind) == Allow
    ensures Valid(Build(b, es)) && AllowState(Build(b, es), Ids(es))
  {
    if |es| == 0 {
      NewManagerIsValid(Some(b));
      assert Ids(es) == [];
    } else {
      var init := es[..|es| - 1];
      AllowBuild(b, init);
      BuildStep(b, es);
      AllowStep(Build(b, init), Ids(init), es[|es| - 1]);
    }
  }

  /** No added id reads as another added id tagged with a counter value. */
  ghost predicate UntaggedIds(ids: seq<string>) {
    forall i, j, n: nat :: 0 <= i < |ids| && 0 <= j < |ids| ==> ids[i] != Tagged(ids[j], n)
  }

  /** Every stored edge has `_count` 1. */
  ghost predicate CountsOne(m: Manager) {
    forall k :: k in m.edges ==> m.edges[k].count == Some(1)
  }

  /**
   * Under `allow` with counting, every stored edge has `_count` 1: the counter is kept under the
   * id as added, while the `_count` is read under the tagged id, which no added id spells.
   */
  lemma {:induction false} AllowCountsOne(b: Bundling, es: seq<Edge>)
    requires StrategyOf(b.kind) == Allow && b.count && UntaggedIds(Ids(es))
    ensures CountsOne(Build(b, es))
  {
    if |es| > 0 {
      var n := |es|;
      var init, e := es[..n - 1], es[n - 1];
      BuildStep(b, es);
      UntaggedInit(Ids(es), Ids(init));
      AllowCountsOne(b, init);
      AllowBuild(b, init);
      var m := Build(b, init);
      var next := Tagged(e.id, CounterOf(m, e.id) + 1);
      assert next !in Ids(init) by {
        forall i | 0 <= i < n - 1 ensures Ids(init)[i] != next {
          assert Ids(init)[i] == Ids(es)[i] && e.id == Ids(es)[n - 1];
        }
      }
      assert CounterOf(m, next) == Count(Ids(init), next);
      AllowCountStep(m, e);
    }
  }

  lemma UntaggedInit(ids: seq<string>, init: seq<string>)
    requires UntaggedIds(ids) && |init| <= |ids| && init == ids[..|init|]
    ensures UntaggedIds(init)
  {
    forall i, j, c: nat | 0 <= i < |init| && 0 <= j < |init|
      ensures init[i] != Tagged(init[j], c)
    {
      assert init[i] == ids[i] && init[j] == ids[j];
    }
  }

  /** An addition whose tagged id has no counter of its own gets `_count` 1. */
  lemma AllowCountStep(m: Manager, e: Edge)
    requires StrategyOfManager(m) == Allow && m.bundling.count && CountsOne(m)
    requires CounterOf(m, Tagged(e.id, CounterOf(m, e.id) + 1)) == 0
    ensures CountsOne(AddEdge(m, e))
  {
    var next := NextId(m, e.id).1;
    assert |next| > |e.id|;
  }

  /** The number of additions an edge stored under `k` stands for: those of `k` and of its reverse. */
  function Bundled(ids: seq<string>, k: string): nat {
    Count(ids, k) + (if ReverseId(k) != k then Count(ids, ReverseId(k)) else 0)
  }

  /**
   * Unidirectional bookkeeping: counters and edges share their keys, no edge is stored in both
   * directions, every added id is stored in one of its directions, and the counter of a stored
   * id counts the additions in both directions.
   */
  ghost predicate UniState(m: Manager, ids: seq<string>) {
    && (forall k :: k in m.counters <==> k in m.edges)
    && (forall k :: k in m.edges ==> k in ids)
    && (forall k :: k in m.edges && ReverseId(k) != k ==> ReverseId(k) !in m.edges)
    && (forall i :: 0 <= i < |ids| ==> ids[i] in m.edges || ReverseId(ids[i]) in m.edges)
    && (forall k :: k in m.edges ==> CounterOf(m, k) == Bundled(ids, k))
  }

  /** Where the unidirectional `nextId` stores an id, given the bookkeeping. */
  lemma UniNext(m: Manager, ids: seq<string>, id: string)
    requires StrategyOfManager(m) == Unidirectional && UniState(m, ids)
    ensures var next := NextId(m, id).1;
            && (id in m.edges ==> next == id)
            && (id !in m.edges && ReverseId(id) in m.edges ==> next == ReverseId(id))
            && (id !in m.edges && ReverseId(id) !in m.edges ==> next == id && id !in ids && ReverseId(id) !in ids)
  {
    if id !in m.edges && ReverseId(id) !in m.edges {
      ReverseIdInvolution(id);
      forall i | 0 <= i < |ids|
        ensures ids[i] != id && ids[i] != ReverseId(id)
      {
        assert ids[i] in m.edges || ReverseId(ids[i]) in m.edges;
      }
    }
  }

  lemma UniCounterAt(m: Manager, ids: seq<string>, e: Edge, k: string)
    requires StrategyOfManager(m) == Unidirectional && UniState(m, ids)
    requires k in AddEdge(m, e).edges
    ensures CounterOf(AddEdge(m, e), k) == Bundled(ids + [e.id], k)
  {
    UniNext(m, ids, e.id);
    if k == NextId(m, e.id).1 {
      UniCounterNext(m, ids, e.id);
    } else {
      UniCounterOther(m, ids, e.id, k);
    }
  }

  /** The counter of the id an addition lands on grows by that addition. */
  lemma UniCounterNext(m: Manager, ids: seq<string>, id: string)
    requires StrategyOfManager(m) == Unidirectional && UniState(m, ids)
    ensures var (mc, next) := NextId(m, id);
            CounterOf(mc, next) == Bundled(ids + [id], next)
  {
    var next := NextId(m, id).1;
    UniNext(m, ids, id);
    ReverseIdInvolution(id);
    CountAppend(ids, id, id);
    CountAppend(ids, ReverseId(id), id);
    if id !in m.edges && ReverseId(id) in m.edges {
      assert Bundled(ids, next) == Count(ids, ReverseId(id)) + Count(ids, id);
    }
  }

  /** Every other stored id keeps its counter and its additions. */
  lemma UniCounterOther(m: Manager, ids: seq<string>, id: string, k: string)
    requires StrategyOfManager(m) == Unidirectional && UniState(m, ids)
    requires k in m.edges && k != NextId(m, id).1
    ensures CounterOf(NextId(m, id).0, k) == Bundled(ids + [id], k)
  {
    UniNext(m, ids, id);
    ReverseIdInvolution(k);
    CountAppend(ids, k, id);
    CountAppend(ids, ReverseId(k), id);
    assert id != k;
    if ReverseId(k) != k {
      assert id != ReverseId(k);
    }
  }

  lemma UniCounters(m: Manager, ids: seq<string>, e: Edge)
    requires StrategyOfManager(m) == Unidirectional && UniState(m, ids)
    ensures var m' := AddEdge(m, e);
            forall k :: k in m'.edges ==> CounterOf(m', k) == Bundled(ids + [e.id], k)
  {
    var m' := AddEdge(m, e);
    forall k | k in m'.edges ensures CounterOf(m', k) == Bundled(ids + [e.id], k) {
      UniCounterAt(m, ids, e, k);
    }
  }

  lemma UniKeys(m: Manager, ids: seq<string>, e: Edge)
    requires StrategyOfManager(m) == Unidirectional && UniState(m, ids)
    ensures var m' := AddEdge(m, e);
            && (forall k :: k in m'.counters <==> k in m'.edges)
            && (forall k :: k in m'.edges ==> k in ids + [e.id])
  {
    UniNext(m, ids, e.id);
  }

  lemma UniOneDirection(m: Manager, ids: seq<string>, e: Edge)
    requires StrategyOfManager(m) == Unidirectional && UniState(m, ids)
    ensures var m' := AddEdge(m, e);
            forall k :: k in m'.edges && ReverseId(k) != k ==> ReverseId(k) !in m'.edges
  {
    var m' := AddEdge(m, e);
    UniNext(m, ids, e.id);
    ReverseIdInvolution(e.id);
    forall k | k in m'.edges && ReverseId(k) != k ensures ReverseId(k) !in m'.edges {
      ReverseIdInvolution(k);
    }
  }

  lemma UniCovers(m: Manager, ids: seq<string>, e: Edge)
    requires StrategyOfManager(m) == Unidirectional && UniState(m, ids)
    ensures var m' := AddEdge(m, e);
            forall i :: 0 <= i < |ids| + 1 ==> (ids + [e.id])[i] in m'.edges || ReverseId((ids + [e.id])[i]) in m'.edges
  {
    var m' := AddEdge(m, e);
    var ids' := ids + [e.id];
    UniNext(m, ids, e.id);
    forall i | 0 <= i < |ids'| ensures ids'[i] in m'.edges || ReverseId(ids'[i]) in m'.edges {
      if i < |ids| {
        assert ids'[i] == ids[i];
      }
    }
  }

  lemma UniStep(m: Manager, ids: seq<string>, e: Edge)
    requires StrategyOfManager(m) == Unidirectional && UniState(m, ids)
    ensures UniState(AddEdge(m, e), ids + [e.id])
  {
    UniKeys(m, ids, e);
    UniOneDirection(m, ids, e);
    UniCovers(m, ids, e);
    UniCounters(m, ids, e);
  }

  /**
   * Under `unidirectional`, `a-b` and `b-a` share one edge: no edge is stored in both
   * directions, every added id is stored in one of them, and the edge's counter counts the
   * additions in both directions.
   */
  lemma {:induction false} UnidirectionalBundles(b: Bundling, es: seq<Edge>)
    requires StrategyOf(b.kind) == Unidirectional
    ensures UniState(Build(b, es), Ids(es))
  {
    if |es| == 0 {
      assert Ids(es) == [];
    } else {
      var init := es[..|es| - 1];
      UnidirectionalBundles(b, init);
      BuildStep(b, es);
      UniStep(Build(b, init), Ids(init), es[|es| - 1]);
    }
  }

  /** An edge with only an id, as the edge-manager tests add them. */
  function Plain(id: string): Edge {
    Edge(id, map[], None)
  }

  /** `Plain(x), Plain(x), Plain(y), Plain(z)`. */
  function Four(x: string, y: string, z: string): seq<Edge> {
    [Plain(x), Plain(x), Plain(y), Plain(z)]
  }

  lemma FourIds(x: string, y: string, z: string)
    ensures Ids(Four(x, y, z)) == [x, x, y, z]
  {
  }

  /** Bidirectional: three distinct ids give three edges. */
  lemma BiThree(m: Manager, x: string, y: string, z: string)
    requires forall k :: k in m.edges <==> k in [x, x, y, z]
    requires x != y && y != z && x != z
    ensures |m.edges| == 3
  {
    assert m.edges.Keys == {x, y, z};
  }

  /** Unidirectional: `x` and its reverse `y` share an edge, and `z` has its own. */
  lemma UniTwo(m: Manager, x: string, y: string, z: string)
    requires forall k :: k in m.edges ==> k == x || k == y || k == z
    requires (x in m.edges || y in m.edges) && !(x in m.edges && y in m.edges)
    requires z in m.edges && z != x && z != y
    ensures |m.edges| == 2
  {
    if x in m.edges {
      assert m.edges.Keys == {x, z};
    } else {
      assert m.edges.Keys == {y, z};
    }
  }

  /** The unidirectional bookkeeping for the ids `x, x, y, z`. */
  lemma UniFour(m: Manager, x: string, y: string, z: string)
    requires UniState(m, [x, x, y, z])
    requires y == ReverseId(x) && x != y
    requires z != x && z != y && ReverseId(z) != x && ReverseId(z) != y && ReverseId(z) != z
    ensures forall k :: k in m.edges ==> k == x || k == y || k == z
    ensures (x in m.edges || y in m.edges) && !(x in m.edges && y in m.edges)
    ensures z in m.edges
  {
    UniFourKeys(m, x, y, z);
    UniFourPair(m, x, y, z);
    UniFourLast(m, x, y, z);
  }

  lemma UniFourKeys(m: Manager, x: string, y: string, z: string)
    requires UniState(m, [x, x, y, z])
    ensures forall k :: k in m.edges ==> k == x || k == y || k == z
  {
    forall k | k in m.edges ensures k == x || k == y || k == z {
      assert k in [x, x, y, z];
    }
  }

  lemma UniFourPair(m: Manager, x: string, y: string, z: string)
    requires UniState(m, [x, x, y, z]) && y == ReverseId(x) && x != y
    ensures (x in m.edges || y in m.edges) && !(x in m.edges && y in m.edges)
  {
    var ids := [x, x, y, z];
    assert ids[0] == x;
  }

  lemma UniFourLast(m: Manager, x: string, y: string, z: string)
    requires UniState(m, [x, x, y, z])
    requires z != x && z != y && ReverseId(z) != x && ReverseId(z) != y && ReverseId(z) != z
    ensures z in m.edges
  {
    var ids := [x, x, y, z];
    assert ids[3] == z;
    assert ReverseId(z) !in ids;
  }

  lemma ReverseOneTwo(x: string)
    requires x == "1-2"
    ensures ReverseId(x) == "2-1"
  {
    assert x == "1" + "-" + "2";
    ReversePair("1", "2");
  }

  lemma ReverseThreeOne(x: string)
    requires x == "3-1"
    ensures ReverseId(x) == "1-3"
  {
    assert x == "3" + "-" + "1";
    ReversePair("3", "1");
  }

  /** Adding `1-2, 1-2, 2-1, 3-1` keeps three edges under `bidirectional`. */
  lemma BidirectionalExample(b: Bundling, x: string, y: string, z: string)
    requires StrategyOf(b.kind) == Bidirectional
    requires x == "1-2" && y == "2-1" && z == "3-1"
    ensures Valid(Build(b, Four(x, y, z))) && |GetEdges(Build(b, Four(x, y, z)))| == 3
  {
    FourIds(x, y, z);
    NewManagerIsValid(Some(b));
    BidirectionalKeepsDirections(b, Four(x, y, z));
    BiThree(Build(b, Four(x, y, z)), x, y, z);
  }

  /** ... four under `allow` ... */
  lemma AllowExample(b: Bundling, x: string, y: string, z: string)
    requires StrategyOf(b.kind) == Allow
    requires x == "1-2" && y == "2-1" && z == "3-1"
    ensures Valid(Build(b, Four(x, y, z))) && |GetEdges(Build(b, Four(x, y, z)))| == 4
  {
    NewManagerIsValid(Some(b));
    AllowKeepsEvery(b, Four(x, y, z));
  }

  /** ... every one of them with `_count` 1, as the counters are keyed by the ids as added. */
  lemma AllowExampleCounts(b: Bundling, x: string, y: string, z: string)
    requires StrategyOf(b.kind) == Allow && b.count
    requires x == "1-2" && y == "2-1" && z == "3-1"
    ensures forall k :: k in Build(b, Four(x, y, z)).edges ==> Build(b, Four(x, y, z)).edges[k].count == Some(1)
  {
    var ids := Ids(Four(x, y, z));
    FourIds(x, y, z);
    assert UntaggedIds(ids) by {
      forall i, j, c: nat | 0 <= i < 4 && 0 <= j < 4
        ensures ids[i] != Tagged(ids[j], c)
      {
        assert |ids[i]| == 3 && |Tagged(ids[j], c)| > 3;
      }
    }
    AllowCountsOne(b, Four(x, y, z));
  }

  /** ... and two under `unidirectional`, where `2-1` joins `1-2`. */
  lemma UnidirectionalExample(b: Bundling, x: string, y: string, z: string)
    requires StrategyOf(b.kind) == Unidirectional
    requires x == "1-2" && y == "2-1" && z == "3-1"
    ensures Valid(Build(b, Four(x, y, z))) && |GetEdges(Build(b, Four(x, y, z)))| == 2
  {
    FourIds(x, y, z);
    NewManagerIsValid(Some(b));
    UnidirectionalBundles(b, Four(x, y, z));
    ReverseOneTwo(x);
    ReverseThreeOne(z);
    UniFour(Build(b, Four(x, y, z)), x, y, z);
    UniTwo(Build(b, Four(x, y, z)), x, y, z);
  }

  /** Under `allow`, `nextId` tags an id with one more than the number of times it was added. */
  lemma AllowNextId(b: Bundling, es: seq<Edge>, id: string)
    requires StrategyOf(b.kind) == Allow
    ensures NextId(Build(b, es), id).1 == Tagged(id, Count(Ids(es), id) + 1)
  {
    AllowKeepsEvery(b, es);
  }

  /** `Plain(x), Plain(y), Plain(z)`. */
  function Three(x: string, y: string, z: string): seq<Edge> {
    [Plain(x), Plain(y), Plain(z)]
  }

  /** After adding `1-2, 2-1, 3-1` under `allow`, the next ids are `1-2-2`, `2-1-2` and `newId-1`. */
  lemma AllowNextExample(b: Bundling, x: string, y: string, z: string, w: string)
    requires StrategyOf(b.kind) == Allow
    requires x == "1-2" && y == "2-1" && z == "3-1" && w == "newId"
    ensures var m := Build(b, Three(x, y, z));
            NextId(m, x).1 == "1-2-2" && NextId(m, y).1 == "2-1-2" && NextId(m, w).1 == "newId-1"
  {
    AllowThreeNext(b, x, y, z, w);
    TaggedDigit(x, 2);
    assert Tagged(x, 2) == "1-2-2";
    TaggedDigit(y, 2);
    assert Tagged(y, 2) == "2-1-2";
    TaggedDigit(w, 1);
    assert Tagged(w, 1) == "newId-1";
  }

  /** Under `allow`, after three different ids, each is tagged `2` and a new id `1`. */
  lemma AllowThreeNext(b: Bundling, x: string, y: string, z: string, w: string)
    requires StrategyOf(b.kind) == Allow
    requires x != y && x != z && y != z && w != x && w != y && w != z
    ensures var m := Build(b, Three(x, y, z));
            NextId(m, x).1 == Tagged(x, 2) && NextId(m, y).1 == Tagged(y, 2) && NextId(m, w).1 == Tagged(w, 1)
  {
    var es := Three(x, y, z);
    assert Ids(es) == [x, y, z];
    AllowNextId(b, es, x);
    AllowNextId(b, es, y);
    AllowNextId(b, es, w);
    assert Count([x, y, z], x) == 1 && Count([x, y, z], y) == 1 && Count([x, y, z], w) == 0;
  }

  /** A one-digit tag is the id, a dash and the digit. */
  lemma TaggedDigit(a: string, d: nat)
    requires d < 10
    ensures Tagged(a, d) == a + ['-', DigitChar(d)]
  {
  }

  /**
   * After adding `1-2, 2-1, 3-1` under `unidirectional`, `nextId` keeps `1-2`, maps `2-1` onto
   * the stored `1-2`, and keeps an id never seen.
   */
  lemma UnidirectionalNextExample(b: Bundling, x: string, y: string, z: string, w: string)
    requires StrategyOf(b.kind) == Unidirectional
    requires x == "1-2" && y == "2-1" && z == "3-1" && w == "newId"
    ensures var m := Build(b, Three(x, y, z));
            NextId(m, x).1 == x && NextId(m, y).1 == x && NextId(m, w).1 == w
  {
    ReverseOneTwo(x);
    ReverseIdInvolution(x);
    ReverseThreeOne(z);
    assert ReverseId(w) == w by {
      assert Split(w, '-') == [w];
      assert Reverse([w]) == [w];
    }
    BuildThree(b, x, y, z);
    UniThreeNext(NewManager(Some(b)), x, y, z, w);
  }

  lemma BuildThree(b: Bundling, x: string, y: string, z: string)
    ensures Build(b, Three(x, y, z)) == AddEdge(AddEdge(AddEdge(NewManager(Some(b)), Plain(x)), Plain(y)), Plain(z))
  {
    var es, e2, e1 := Three(x, y, z), [Plain(x), Plain(y)], [Plain(x)];
    BuildStep(b, es);
    assert es[..2] == e2;
    BuildStep(b, e2);
    assert e2[..1] == e1;
    BuildStep(b, e1);
    assert e1[..0] == [];
  }

  /** Three unidirectional additions, the second the reverse of the first, then three `nextId` calls. */
  lemma UniThreeNext(m0: Manager, x: string, y: string, z: string, w: string)
    requires StrategyOfManager(m0) == Unidirectional && m0.counters == map[]
    requires ReverseId(x) == y && ReverseId(y) == x && ReverseId(z) != x && ReverseId(w) == w
    requires x != y && z != x && z != y && w != x && w != z
    ensures var m := AddEdge(AddEdge(AddEdge(m0, Plain(x)), Plain(y)), Plain(z));
            NextId(m, x).1 == x && NextId(m, y).1 == x && NextId(m, w).1 == w
  {
    UniAdd(m0, Plain(x));
    var m1 := AddEdge(m0, Plain(x));
    UniAdd(m1, Plain(y));
    var m2 := AddEdge(m1, Plain(y));
    UniAdd(m2, Plain(z));
    var m3 := AddEdge(m2, Plain(z));
    assert m3.counters.Keys == {x, z};
    UniAdd(m3, Plain(x));
    UniAdd(m3, Plain(y));
    UniAdd(m3, Plain(w));
  }

  /** A unidirectional addition gives a counter to the id it stores under, and to no other id. */
  lemma UniAdd(m: Manager, e: Edge)
    requires StrategyOfManager(m) == Unidirectional
    ensures var next := NextId(m, e.id).1;
            && AddEdge(m, e).counters.Keys == m.counters.Keys + {next}
            && StrategyOfManager(AddEdge(m, e)) == Unidirectional
            && (e.id in m.counters ==> next == e.id)
            && (e.id !in m.counters && ReverseId(e.id) in m.counters ==> next == ReverseId(e.id))
            && (e.id !in m.counters && ReverseId(e.id) !in m.counters ==> next == e.id)
  {
  }
}
