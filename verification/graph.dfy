/**
 * What both transforms build from a SPARQL response: nodes kept in a map from id to node, in the
 * order their ids were first stored, next to an edge manager.
 */
module Graphs {
  import opened Wrappers
  import Edges

  /** A row of the response: each bound variable with the `value` of its binding. */
  type Row = map<string, string>

  /**
   * Why a transform stops. `UndefinedConditionPrefix` is the error a condition raises on its own
   * when it names a prefix the register does not know; `Crash` is any other exception, such as a
   * property read on `undefined`.
   */
  datatype Error = Crash | UndefinedConditionPrefix(name: string)

  /**
   * A node: its first-level fields (`id`, `group`, group and configured properties) and the
   * `properties` object, which is absent until a property is stored there. A field named
   * `properties` and the object are one slot of the library's node; the simple engine keeps at
   * most one of them (`Simple.OneSlot`).
   */
  datatype Node = Node(fields: map<string, string>, properties: Option<map<string, string>>)

  /** The node map with its key order, and the edge manager. */
  datatype Graph = Graph(nodes: map<string, Node>, order: seq<string>, edges: Edges.Manager)

  /** The state at the start of `transform`: no nodes and a manager with the default settings. */
  function NewGraph(): (g: Graph)
    ensures Valid(g) && g.nodes == map[] && g.order == []
    ensures g.edges == Edges.NewManager(None)
  {
    Edges.NewManagerIsValid(None);
    Graph(map[], [], Edges.NewManager(None))
  }

  /** The node map and its order agree, and the edge manager is well formed. */
  ghost predicate Valid(g: Graph) {
    && (forall i, j :: 0 <= i < j < |g.order| ==> g.order[i] != g.order[j])
    && (forall k :: k in g.nodes <==> k in g.order)
    && Edges.Valid(g.edges)
  }

  /**
   * `nodesMap.set(key, node)`: the node replaces whatever was stored under the key; a new key
   * goes to the end of the order and a known one keeps its place.
   */
  function SetNode(g: Graph, key: string, n: Node): (g': Graph)
    ensures g'.nodes == g.nodes[key := n] && g'.edges == g.edges
    ensures key in g.nodes ==> g'.order == g.order
    ensures key !in g.nodes ==> g'.order == g.order + [key]
    ensures Valid(g) ==> Valid(g')
  {
    Graph(g.nodes[key := n], if key in g.nodes then g.order else g.order + [key], g.edges)
  }

  /** `edgeManager.addEdge(e)`. */
  function AddEdge(g: Graph, e: Edges.Edge): (g': Graph)
    ensures g'.nodes == g.nodes && g'.order == g.order && g'.edges == Edges.AddEdge(g.edges, e)
    ensures Valid(g) ==> Valid(g')
  {
    g.(edges := Edges.AddEdge(g.edges, e))
  }

  /** `Array.from(nodesMap.values())`: the nodes in the order their ids were first stored. */
  function Nodes(g: Graph): (ns: seq<Node>)
    requires Valid(g)
    ensures |ns| == |g.order| == |g.nodes|
    ensures forall k :: 0 <= k < |g.order| ==> ns[k] == g.nodes[g.order[k]]
  {
    Edges.DistinctCard(g.order);
    assert g.nodes.Keys == set k | k in g.order;
    seq(|g.order|, k requires 0 <= k < |g.order| => g.nodes[g.order[k]])
  }

  /** The second graph only grew: every node key and edge id is still there, under the same settings. */
  ghost predicate Grows(g: Graph, g': Graph) {
    && g.nodes.Keys <= g'.nodes.Keys
    && g.edges.edges.Keys <= g'.edges.edges.Keys
    && g'.edges.bundling == g.edges.bundling
  }

  /** The JSON a transform returns. */
  datatype Json = Json(nodes: seq<Node>, edges: seq<Edges.Edge>)

  /**
   * `j` shows the graph: its nodes are the stored ones in the order their ids were first stored,
   * and its edges are exactly the stored edges, each under its own id.
   */
  ghost predicate Renders(j: Json, g: Graph) {
    && Valid(g)
    && |j.nodes| == |g.order| == |g.nodes|
    && (forall k :: 0 <= k < |g.order| ==> j.nodes[k] == g.nodes[g.order[k]])
    && |j.edges| == |g.edges.edges|
    && (forall x: Edges.Edge :: x in j.edges <==> x.id in g.edges.edges && g.edges.edges[x.id] == x)
  }

  /** `{ nodes, edges }` of a finished transform. */
  function ToJson(g: Graph): (j: Json)
    requires Valid(g)
    ensures j.nodes == Nodes(g) && j.edges == Edges.GetEdges(g.edges)
    ensures Renders(j, g)
  {
    Edges.GetEdgesExact(g.edges);
    Json(Nodes(g), Edges.GetEdges(g.edges))
  }
}
