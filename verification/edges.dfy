/**
 * The edge manager of the bundled build: canonical edge ids under the `allow`, `unidirectional`
 * and `bidirectional` bundling strategies, per-id counters, and edges stored by id in order of
 * first insertion.
 */
module Edges {
  import opened Wrappers
  import opened Strings

  datatype Strategy = Unidirectional | Bidirectional | Allow

  /** The `bundlingStrategy` setting: its `type` text and whether edges carry a `_count`. */
  datatype Bundling = Bundling(kind: string, count: bool)

  /** The strategy a `type` text selects; any text other than the two names means `allow`. */
  function StrategyOf(kind: string): (s: Strategy)
    ensures s == Unidirectional <==> kind == "unidirectional"
    ensures s == Bidirectional <==> kind == "bidirectional"
  {
    if kind == "unidirectional" then Unidirectional
    else if kind == "bidirectional" then Bidirectional
    else Allow
  }

  /** `updateSettings`: a given `bundlingStrategy` replaces the default one as a whole. */
  function UpdateSettings(given: Option<Bundling>): (b: Bundling)
    ensures given.None? ==> StrategyOf(b.kind) == Bidirectional && b.count
    ensures given.Some? ==> b == given.value
  {
    given.GetOr(Bundling("bidirectional", true))
  }

  /**
   * An edge: its id, its other fields (such as `from` and `to`) and the `_count` field, which is
   * absent until the manager sets it.
   */
  datatype Edge = Edge(id: string, attrs: map<string, string>, count: Option<nat>)

  /** The manager's state: the settings, the edge map with its key order, and the id counters. */
  datatype Manager = Manager(bundling: Bundling, edges: map<string, Edge>, order: seq<string>,
                             counters: map<string, nat>)

  /** `new EdgeManager(settings)`. */
  function NewManager(given: Option<Bundling>): (m: Manager)
    ensures m.bundling == UpdateSettings(given)
    ensures m.edges == map[] && m.order == [] && m.counters == map[]
  {
    Manager(UpdateSettings(given), map[], [], map[])
  }

  function StrategyOfManager(m: Manager): Strategy {
    StrategyOf(m.bundling.kind)
  }

  /** The edge map and its key order agree, and every edge is stored under its own id. */
  ghost predicate Valid(m: Manager) {
    && (forall i, j :: 0 <= i < j < |m.order| ==> m.order[i] != m.order[j])
    && (forall k :: k in m.edges <==> k in m.order)
    && (forall k :: k in m.edges ==> m.edges[k].id == k)
  }

  lemma NewManagerIsValid(given: Option<Bundling>)
    ensures Valid(NewManager(given))
  {
  }

  /** `_reverseId`: the `-`-separated segments of the id in reverse order. */
  function ReverseId(id: string): string {
    Join(Reverse(Split(id, '-')), '-')
  }

  /** The segments of a reversed id are those of the id in reverse order. */
  lemma ReverseIdSegments(id: string)
    ensures Split(ReverseId(id), '-') == Reverse(Split(id, '-'))
  {
    var parts := Split(id, '-');
    var rev := Reverse(parts);
    assert forall k :: 0 <= k < |rev| ==> '-' !in rev[k] by {
      forall k | 0 <= k < |rev| ensures '-' !in rev[k] {
        assert rev[k] == parts[|parts| - 1 - k];
      }
    }
    SplitJoin(rev, '-');
  }

  /** Reversing twice gives the id back. */
  lemma ReverseIdInvolution(id: string)
    ensures ReverseId(ReverseId(id)) == id
  {
    ReverseIdSegments(id);
    ReverseReverse(Split(id, '-'));
    JoinSplit(id, '-');
  }

  /** `a-b` reverses to `b-a`. */
  lemma ReversePair(a: string, b: string)
    requires '-' !in a && '-' !in b
    ensures ReverseId(a + "-" + b) == b + "-" + a
  {
    assert a + "-" + b == a + ['-'] + b;
    SplitCons(a, '-', b);
    assert Split(a + "-" + b, '-') == [a, b];
    assert Reverse([a, b]) == [b, a];
    assert Join([b, a], '-') == b + ['-'] + a;
  }

  /** The counter of `id`, zero when it has none (the library's `get(id) || 0`). */
  function CounterOf(m: Manager, id: string): nat {
    if id in m.counters then m.counters[id] else 0
  }

  /** `getEdge`: exact lookup, falling back to the reversed id under `unidirectional` only. */
  function GetEdge(m: Manager, id: string): (e: Option<Edge>)
    ensures id in m.edges ==> e == Some(m.edges[id])
    ensures StrategyOfManager(m) != Unidirectional ==> (e.Some? <==> id in m.edges)
    ensures StrategyOfManager(m) == Unidirectional ==>
              (e.Some? <==> id in m.edges || ReverseId(id) in m.edges)
    ensures e.Some? && id !in m.edges ==> ReverseId(id) in m.edges && e.value == m.edges[ReverseId(id)]
  {
    if id in m.edges then Some(m.edges[id])
    else if StrategyOfManager(m) == Unidirectional && ReverseId(id) in m.edges then
      Some(m.edges[ReverseId(id)])
    else None
  }

  /** The id tagged with a counter value: `[id, n].join("-")`. */
  function Tagged(id: string, n: nat): string {
    id + "-" + NatToString(n)
  }

  /** Counting from the end of a tagged id, the dash sits right before the counter's digits. */
  lemma DashAt(a: string, m: nat, k: nat)
    requires k <= |NatToString(m)|
    ensures var s := Tagged(a, m); k < |s| && (s[|s| - 1 - k] == '-' <==> k == |NatToString(m)|)
  {
    var s, d := Tagged(a, m), NatToString(m);
    if k < |d| {
      assert s[|s| - 1 - k] == d[|d| - 1 - k];
    }
  }

  /** A tagged id determines both the id and the counter value. */
  lemma TaggedInjective(a: string, m: nat, b: string, n: nat)
    requires Tagged(a, m) == Tagged(b, n)
    ensures a == b && m == n
  {
    var s := Tagged(a, m);
    var dm, dn := NatToString(m), NatToString(n);
    var k := if |dm| <= |dn| then |dm| else |dn|;
    DashAt(a, m, k);
    DashAt(b, n, k);
    assert |dm| == |dn|;
    assert s[|s| - |dm|..] == dm && s[|s| - |dn|..] == dn;
    NatToStringInjective(m, n);
    assert s[..|a|] == a && s[..|b|] == b;
  }

  /** The counter key `nextId` moves: the chosen id, or under `allow` the id it was given. */
  function CounterKey(m: Manager, id: string, next: string): string {
    if StrategyOfManager(m) == Allow then id else next
  }

  /**
   * `nextId`: the id an edge is stored under, with one counter incremented by exactly one and
   * nothing else changed.
   */
  function NextId(m: Manager, id: string): (res: (Manager, string))
    ensures var (m', next) := res;
            && m'.bundling == m.bundling && m'.edges == m.edges && m'.order == m.order
            && m'.counters == m.counters[CounterKey(m, id, next) := CounterOf(m, CounterKey(m, id, next)) + 1]
    ensures StrategyOfManager(m) == Unidirectional ==>
              && (res.1 == id || res.1 == ReverseId(id))
              && (id in m.counters ==> res.1 == id)
              && (id !in m.counters && ReverseId(id) in m.counters ==> res.1 == ReverseId(id))
              && (id !in m.counters && ReverseId(id) !in m.counters ==> res.1 == id)
    ensures StrategyOfManager(m) == Bidirectional ==> res.1 == id
    ensures StrategyOfManager(m) == Allow ==> res.1 == Tagged(id, CounterOf(m, id) + 1)
  {
    match StrategyOfManager(m)
    case Unidirectional =>
      var rev := ReverseId(id);
      var safe := if id in m.counters then id else if rev in m.counters then rev else id;
      (m.(counters := m.counters[safe := CounterOf(m, safe) + 1]), safe)
    case Bidirectional =>
      (m.(counters := m.counters[id := CounterOf(m, id) + 1]), id)
    case Allow =>
      var n := CounterOf(m, id) + 1;
      (m.(counters := m.counters[id := n]), Tagged(id, n))
  }

  /** The `_count` an edge stored under `id` receives: its counter, or 1 when that is missing. */
  function CountFor(m: Manager, id: string): nat {
    if CounterOf(m, id) == 0 then 1 else CounterOf(m, id)
  }

  /**
   * `addEdge`: the edge, with its id rewritten to `nextId`'s result and, when counting is on, its
   * `_count` set, replaces whatever was stored under that id. A new id goes to the end of the
   * order; a replaced one keeps its place.
   */
  function AddEdge(m: Manager, e: Edge): (m': Manager)
    ensures var (mc, next) := NextId(m, e.id);
            && m'.counters == mc.counters && m'.bundling == m.bundling
            && next in m'.edges && m'.edges[next].id == next && m'.edges[next].attrs == e.attrs
            && m'.edges[next].count == (if m.bundling.count then Some(CountFor(mc, next)) else e.count)
            && (forall k :: k != next ==> (k in m'.edges <==> k in m.edges))
            && (forall k :: k != next && k in m.edges ==> m'.edges[k] == m.edges[k])
            && m'.order == (if next in m.edges then m.order else m.order + [next])
    ensures Valid(m) ==> Valid(m')
  {
    var (mc, next) := NextId(m, e.id);
    var stored := e.(id := next, count := if m.bundling.count then Some(CountFor(mc, next)) else e.count);
    var order := if next in m.edges then m.order else m.order + [next];
    Manager(m.bundling, m.edges[next := stored], order, mc.counters)
  }

  /** `getEdges`: the stored edges in the order their ids were first stored. */
  function GetEdges(m: Manager): (es: seq<Edge>)
    requires Valid(m)
    ensures |es| == |m.order| == |m.edges|
    ensures forall k :: 0 <= k < |m.order| ==> es[k] == m.edges[m.order[k]]
  {
    OrderCoversEdges(m);
    seq(|m.order|, k requires 0 <= k < |m.order| => m.edges[m.order[k]])
  }

  /** The edges `getEdges` returns are exactly the stored ones, each under its own id. */
  lemma GetEdgesExact(m: Manager)
    requires Valid(m)
    ensures |GetEdges(m)| == |m.edges|
    ensures forall x: Edge :: x in GetEdges(m) <==> x.id in m.edges && m.edges[x.id] == x
  {
    var es := GetEdges(m);
    forall x: Edge | x.id in m.edges && m.edges[x.id] == x ensures x in es {
      var k :| 0 <= k < |m.order| && m.order[k] == x.id;
      assert es[k] == x;
    }
  }

  /** The order lists each key of the edge map exactly once. */
  lemma OrderCoversEdges(m: Manager)
    requires Valid(m)
    ensures |m.order| == |m.edges|
  {
    DistinctCard(m.order);
    assert m.edges.Keys == set k | k in m.order;
  }

  lemma {:induction false} DistinctCard(s: seq<string>)
    requires forall i, j :: 0 <= i < j < |s| ==> s[i] != s[j]
    ensures |set k | k in s| == |s|
  {
    if |s| > 0 {
      var init := s[..|s| - 1];
      DistinctCard(init);
      assert (set k | k in s) == (set k | k in init) + {s[|s| - 1]};
      assert s[|s| - 1] !in init;
    }
  }

  /** Replacing an already stored edge keeps the position of every edge. */
  lemma ReplaceKeepsOrder(m: Manager, e: Edge)
    requires Valid(m) && NextId(m, e.id).1 in m.edges
    ensures AddEdge(m, e).order == m.order
    ensures |GetEdges(AddEdge(m, e))| == |GetEdges(m)|
  {
  }

  /** Adding the edges one after another. */
  function AddAll(m: Manager, es: seq<Edge>): (m': Manager)
    ensures m'.bundling == m.bundling
    ensures m.edges.Keys <= m'.edges.Keys
    ensures StrategyOfManager(m) == Bidirectional ==> forall k :: 0 <= k < |es| ==> es[k].id in m'.edges
    ensures Valid(m) ==> Valid(m')
  {
    if |es| == 0 then m
    else
      var init := AddAll(m, es[..|es| - 1]);
      assert forall k :: 0 <= k < |es| - 1 ==> es[..|es| - 1][k] == es[k];
      AddEdge(init, es[|es| - 1])
  }

  /** Adding the first edge and then the rest is adding them all. */
  lemma {:induction false} AddAllCons(m: Manager, e: Edge, es: seq<Edge>)
    ensures AddAll(m, [e] + es) == AddAll(AddEdge(m, e), es)
    decreases |es|
  {
    var all := [e] + es;
    if |es| == 0 {
      assert all[..0] == [];
      assert AddAll(m, all) == AddEdge(AddAll(m, []), e);
    } else {
      var n := |es|;
      var init := es[..n - 1];
      assert all[..|all| - 1] == [e] + init;
      assert all[|all| - 1] == es[n - 1];
      AddAllCons(m, e, init);
      assert AddAll(m, all) == AddEdge(AddAll(m, [e] + init), es[n - 1]);
    }
  }

  /** The ids of a list of edges. */
  function Ids(es: seq<Edge>): (ids: seq<string>)
    ensures |ids| == |es| && forall k :: 0 <= k < |es| ==> ids[k] == es[k].id
  {
    seq(|es|, k requires 0 <= k < |es| => es[k].id)
  }

  lemma IdsInit(es: seq<Edge>)
    requires |es| > 0
    ensures Ids(es) == Ids(es[..|es| - 1]) + [es[|es| - 1].id]
  {
  }
}
