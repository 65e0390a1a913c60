/**
 * `MrSparqlVerbose`: nodes and edges are built from explicit definitions. For every row each node
 * definition whose variable is bound and whose condition passes upserts a node, and then each
 * edge definition whose ends are bound and whose condition passes adds an edge.
 */
module Verbose {
  import opened Wrappers
  import opened Registers
  import opened Graphs
  import opened Engines
  import Edges

  /**
   * A property definition: a fixed `value` (the empty text when there is none) or else the value
   * bound to `variable`, stored under `name` when the condition passes.
   */
  datatype PropDef = PropDef(name: string, value: string, variable: string, condition: Option<Condition>)

  /** A node definition; `properties` is `None` when the definition has no array of them. */
  datatype NodeDef = NodeDef(variable: string, group: string, condition: Option<Condition>,
                             properties: Option<seq<PropDef>>)

  /**
   * An edge definition: the variables of its two ends, and the `variable` a prefix condition
   * reads.
   */
  datatype EdgeDef = EdgeDef(from: string, to: string, variable: string, condition: Option<Condition>,
                             properties: Option<seq<PropDef>>)

  /** The parts of a verbose configuration the transform reads; `groups` as for the simple one. */
  datatype Config = Config(nodes: seq<NodeDef>, edges: seq<EdgeDef>, groups: map<string, map<string, string>>)

  /** The definition's property, as it is set: its own value, or the value of its variable. */
  predicate HasValue(row: Row, d: PropDef) {
    d.value != "" || d.variable in row
  }

  function ValueOf(row: Row, d: PropDef): string
    requires HasValue(row, d)
  {
    if d.value != "" then d.value else row[d.variable]
  }

  /** The definition contributes its property to the row: its condition passes and it has a value. */
  predicate Contributes(reg: Register, row: Row, d: PropDef)
    requires Registers.Valid(reg)
  {
    PassesCondition(reg, d.variable, d.condition, row) == Ok(true) && HasValue(row, d)
  }

  /** No definition after `j` contributes a property of the same name. */
  predicate LastOfName(reg: Register, row: Row, defs: seq<PropDef>, j: nat)
    requires Registers.Valid(reg) && j < |defs|
  {
    forall j' :: j < j' < |defs| ==> defs[j'].name != defs[j].name || !Contributes(reg, row, defs[j'])
  }

  /** The keys of `m` are exactly the names some definition contributes. */
  ghost predicate CollectsNames(reg: Register, row: Row, defs: seq<PropDef>, m: map<string, string>)
    requires Registers.Valid(reg)
  {
    forall k :: k in m <==> exists j :: 0 <= j < |defs| && defs[j].name == k && Contributes(reg, row, defs[j])
  }

  /** Under each name `m` holds the value of the last definition contributing it. */
  ghost predicate CollectsValues(reg: Register, row: Row, defs: seq<PropDef>, m: map<string, string>)
    requires Registers.Valid(reg)
  {
    forall j :: 0 <= j < |defs| && Contributes(reg, row, defs[j]) && LastOfName(reg, row, defs, j) ==>
      defs[j].name in m && m[defs[j].name] == ValueOf(row, defs[j])
  }

  /**
   * `m` holds what the definitions collect: a key exactly for each name some definition
   * contributes, under it the value of the last definition contributing that name.
   */
  ghost predicate Collects(reg: Register, row: Row, defs: seq<PropDef>, m: map<string, string>)
    requires Registers.Valid(reg)
  {
    CollectsNames(reg, row, defs, m) && CollectsValues(reg, row, defs, m)
  }

  /**
   * `getProperties`: the properties of the contributing definitions, a later one overwriting an
   * earlier one of the same name. A condition that throws makes the whole call throw.
   */
  function GetProperties(reg: Register, defs: seq<PropDef>, row: Row): (r: Result<map<string, string>, Error>)
    requires Registers.Valid(reg)
    ensures r.Err? <==> exists j :: 0 <= j < |defs| && PassesCondition(reg, defs[j].variable, defs[j].condition, row).Err?
    ensures r.Ok? ==> Collects(reg, row, defs, r.value)
    decreases |defs|
  {
    if |defs| == 0 then Ok(map[])
    else
      var n := |defs|;
      var init := defs[..n - 1];
      var d := defs[n - 1];
      assert forall j :: 0 <= j < n - 1 ==> init[j] == defs[j];
      var props :- GetProperties(reg, init, row);
      var pass :- PassesCondition(reg, d.variable, d.condition, row);
      CollectsNamesStep(reg, row, defs, props);
      CollectsValuesStep(reg, row, defs, props);
      if pass && HasValue(row, d) then Ok(props[d.name := ValueOf(row, d)]) else Ok(props)
  }

  /** The names the definitions before the last collect, with the last one's if it contributes. */
  lemma CollectsNamesStep(reg: Register, row: Row, defs: seq<PropDef>, m: map<string, string>)
    requires Registers.Valid(reg) && |defs| > 0 && CollectsNames(reg, row, defs[..|defs| - 1], m)
    ensures var d := defs[|defs| - 1];
            CollectsNames(reg, row, defs, if Contributes(reg, row, d) then m[d.name := ValueOf(row, d)] else m)
  {
    var n := |defs|;
    var init := defs[..n - 1];
    var d := defs[n - 1];
    var m' := if Contributes(reg, row, d) then m[d.name := ValueOf(row, d)] else m;
    forall k
      ensures k in m' <==> exists j :: 0 <= j < n && defs[j].name == k && Contributes(reg, row, defs[j])
    {
      if k in m {
        var j :| 0 <= j < n - 1 && init[j].name == k && Contributes(reg, row, init[j]);
        assert init[j] == defs[j];
      } else if k in m' {
        assert defs[n - 1].name == k;
      } else {
        assert forall j :: 0 <= j < n - 1 ==> init[j] == defs[j];
      }
    }
  }

  /** The values the definitions before the last collect, overwritten by the last one's. */
  lemma CollectsValuesStep(reg: Register, row: Row, defs: seq<PropDef>, m: map<string, string>)
    requires Registers.Valid(reg) && |defs| > 0 && CollectsValues(reg, row, defs[..|defs| - 1], m)
    ensures var d := defs[|defs| - 1];
            CollectsValues(reg, row, defs, if Contributes(reg, row, d) then m[d.name := ValueOf(row, d)] else m)
  {
    var n := |defs|;
    var init := defs[..n - 1];
    var d := defs[n - 1];
    var m' := if Contributes(reg, row, d) then m[d.name := ValueOf(row, d)] else m;
    forall j | 0 <= j < n && Contributes(reg, row, defs[j]) && LastOfName(reg, row, defs, j)
      ensures defs[j].name in m' && m'[defs[j].name] == ValueOf(row, defs[j])
    {
      if j < n - 1 {
        assert init[j] == defs[j];
        assert LastOfName(reg, row, init, j) by {
          forall j' | j < j' < n - 1 ensures init[j'].name != init[j].name || !Contributes(reg, row, init[j']) {
            assert init[j'] == defs[j'];
          }
        }
        assert defs[j].name != d.name || !Contributes(reg, row, d);
      }
    }
  }

  /** The node stored under `key`, or a new node without fields. */
  function Existing(g: Graph, key: string): Node {
    if key in g.nodes then g.nodes[key] else Node(map[], None)
  }

  /** The definition accepts the row: its variable is bound and its condition passes. */
  predicate Accepts(reg: Register, row: Row, d: NodeDef)
    requires Registers.Valid(reg)
  {
    d.variable in row && PassesCondition(reg, d.variable, d.condition, row) == Ok(true)
  }

  /**
   * The definition makes `getNodes` throw: its variable is bound and its condition throws, or the
   * condition passes and the group is not configured or a property's condition throws.
   */
  predicate NodeFails(reg: Register, cfg: Config, row: Row, d: NodeDef)
    requires Registers.Valid(reg)
  {
    && d.variable in row
    && (|| PassesCondition(reg, d.variable, d.condition, row).Err?
        || (&& PassesCondition(reg, d.variable, d.condition, row) == Ok(true)
            && (d.group !in cfg.groups || GetProperties(reg, d.properties.GetOr([]), row).Err?)))
  }

  /**
   * One node definition of `getNodes`: a definition that accepts the row upserts the node of the
   * bound value, merging in order the group's properties, the definition's properties and then
   * `id` and `group`. An unconfigured group throws.
   */
  function NodeStep(g: Graph, reg: Register, cfg: Config, row: Row, d: NodeDef): (r: Result<Graph, Error>)
    requires Registers.Valid(reg)
    ensures d.variable !in row ==> r == Ok(g)
    ensures d.variable in row && PassesCondition(reg, d.variable, d.condition, row) == Ok(false) ==> r == Ok(g)
    ensures r.Err? <==> NodeFails(reg, cfg, row, d)
    ensures r.Ok? && r.value != g ==> Accepts(reg, row, d)
    ensures r.Ok? && Accepts(reg, row, d) ==>
              var key := row[d.variable];
              && d.group in cfg.groups
              && r.value.edges == g.edges
              && key in r.value.nodes
              && "id" in r.value.nodes[key].fields && r.value.nodes[key].fields["id"] == key
              && "group" in r.value.nodes[key].fields && r.value.nodes[key].fields["group"] == d.group
              && (forall k :: k != key ==>
                    && (k in r.value.nodes <==> k in g.nodes)
                    && (k in g.nodes ==> r.value.nodes[k] == g.nodes[k]))
    ensures Graphs.Valid(g) && r.Ok? ==> Graphs.Valid(r.value)
  {
    if d.variable !in row then Ok(g)
    else
      var pass :- PassesCondition(reg, d.variable, d.condition, row);
      if !pass then Ok(g)
      else
        var key := row[d.variable];
        if d.group !in cfg.groups then Err(Crash)
        else
          var props :- GetProperties(reg, d.properties.GetOr([]), row);
          var n := Existing(g, key);
          var fields := n.fields + cfg.groups[d.group] + props + map["id" := key, "group" := d.group];
          Ok(SetNode(g, key, n.(fields := fields)))
  }

  /**
   * `getNodes`: every node definition in order. It throws exactly when some definition throws;
   * otherwise the bound value of every accepting definition is a node key, no node is removed,
   * and every new node is keyed by a value the row binds.
   */
  function GetNodes(g: Graph, reg: Register, cfg: Config, row: Row, defs: seq<NodeDef>): (r: Result<Graph, Error>)
    requires Registers.Valid(reg)
    ensures r.Err? <==> exists j :: 0 <= j < |defs| && NodeFails(reg, cfg, row, defs[j])
    ensures r.Ok? ==> forall j :: 0 <= j < |defs| && Accepts(reg, row, defs[j]) ==> row[defs[j].variable] in r.value.nodes
    ensures r.Ok? ==> r.value.edges == g.edges
    ensures r.Ok? ==> g.nodes.Keys <= r.value.nodes.Keys <= g.nodes.Keys + row.Values
    ensures Graphs.Valid(g) && r.Ok? ==> Graphs.Valid(r.value)
    decreases |defs|
  {
    if |defs| == 0 then Ok(g)
    else
      assert forall j :: 0 < j < |defs| ==> defs[j] == defs[1..][j - 1];
      var g1 :- NodeStep(g, reg, cfg, row, defs[0]);
      GetNodes(g1, reg, cfg, row, defs[1..])
  }

  /** The edge definition accepts the row: both ends are bound and its condition passes. */
  predicate AcceptsEdge(reg: Register, row: Row, d: EdgeDef)
    requires Registers.Valid(reg)
  {
    d.from in row && d.to in row && PassesCondition(reg, d.variable, d.condition, row) == Ok(true)
  }

  /**
   * The edge of an accepting definition: `from`, `to` and `id` (`from-to`), each of which the
   * definition's properties may overwrite.
   */
  function DefinedEdge(row: Row, d: EdgeDef, props: map<string, string>): (e: Edges.Edge)
    requires d.from in row && d.to in row
    ensures e.id == if "id" in props then props["id"] else row[d.from] + "-" + row[d.to]
    ensures "id" !in e.attrs && "from" in e.attrs && "to" in e.attrs && e.count == None
    ensures e.attrs["from"] == (if "from" in props then props["from"] else row[d.from])
    ensures e.attrs["to"] == (if "to" in props then props["to"] else row[d.to])
    ensures forall k :: k in props && k != "id" ==> k in e.attrs && e.attrs[k] == props[k]
    ensures forall k :: k in e.attrs ==> k in props || k == "from" || k == "to"
  {
    var all := map["from" := row[d.from], "to" := row[d.to], "id" := row[d.from] + "-" + row[d.to]] + props;
    Edges.Edge(all["id"], all - {"id"}, None)
  }

  /**
   * The definition makes `getEdges` throw: both ends are bound and its condition throws, or it
   * passes and a property's condition throws.
   */
  predicate EdgeFails(reg: Register, row: Row, d: EdgeDef)
    requires Registers.Valid(reg)
  {
    && d.from in row && d.to in row
    && (|| PassesCondition(reg, d.variable, d.condition, row).Err?
        || (&& PassesCondition(reg, d.variable, d.condition, row) == Ok(true)
            && GetProperties(reg, d.properties.GetOr([]), row).Err?))
  }

  /** The definition defines an edge for the row: it accepts the row and its properties collect. */
  predicate Defines(reg: Register, row: Row, d: EdgeDef)
    requires Registers.Valid(reg)
  {
    AcceptsEdge(reg, row, d) && GetProperties(reg, d.properties.GetOr([]), row).Ok?
  }

  /** The edge a defining definition builds from its collected properties. */
  function EdgeOf(reg: Register, row: Row, d: EdgeDef): Edges.Edge
    requires Registers.Valid(reg) && Defines(reg, row, d)
  {
    DefinedEdge(row, d, GetProperties(reg, d.properties.GetOr([]), row).value)
  }

  /**
   * The edges the definitions define for the row, in order: one for each definition that accepts
   * the row and whose properties collect, and no other.
   */
  function DefinedEdges(reg: Register, row: Row, defs: seq<EdgeDef>): (es: seq<Edges.Edge>)
    requires Registers.Valid(reg)
    ensures |es| <= |defs|
    ensures forall j :: 0 <= j < |defs| && Defines(reg, row, defs[j]) ==> EdgeOf(reg, row, defs[j]) in es
    ensures forall x :: x in es ==> exists j :: 0 <= j < |defs| && Defines(reg, row, defs[j]) && x == EdgeOf(reg, row, defs[j])
    decreases |defs|
  {
    if |defs| == 0 then []
    else
      var rest := DefinedEdges(reg, row, defs[1..]);
      assert forall j :: 0 < j < |defs| ==> defs[j] == defs[1..][j - 1];
      if Defines(reg, row, defs[0]) then [EdgeOf(reg, row, defs[0])] + rest else rest
  }

  /** One edge definition of `getEdges`. */
  function EdgeStep(g: Graph, reg: Register, row: Row, d: EdgeDef): (r: Result<Graph, Error>)
    requires Registers.Valid(reg)
    ensures r.Err? <==> EdgeFails(reg, row, d)
    ensures d.from !in row || d.to !in row ==> r == Ok(g)
    ensures r.Ok? && r.value != g ==> AcceptsEdge(reg, row, d)
    ensures r.Ok? ==> r.value.nodes == g.nodes && r.value.order == g.order
    ensures r.Ok? && AcceptsEdge(reg, row, d) ==>
              && GetProperties(reg, d.properties.GetOr([]), row).Ok?
              && r.value.edges == Edges.AddEdge(g.edges, DefinedEdge(row, d, GetProperties(reg, d.properties.GetOr([]), row).value))
    ensures Graphs.Valid(g) && r.Ok? ==> Graphs.Valid(r.value)
  {
    if d.from !in row || d.to !in row then Ok(g)
    else
      var pass :- PassesCondition(reg, d.variable, d.condition, row);
      if !pass then Ok(g)
      else
        var props :- GetProperties(reg, d.properties.GetOr([]), row);
        Ok(AddEdge(g, DefinedEdge(row, d, props)))
  }

  /**
   * `getEdges`: every edge definition in order. It throws exactly when some definition throws;
   * otherwise the manager has added, in order, the edges the definitions define, and the nodes
   * are untouched.
   */
  function GetEdges(g: Graph, reg: Register, row: Row, defs: seq<EdgeDef>): (r: Result<Graph, Error>)
    requires Registers.Valid(reg)
    ensures r.Err? <==> exists j :: 0 <= j < |defs| && EdgeFails(reg, row, defs[j])
    ensures r.Ok? ==> r.value.edges == Edges.AddAll(g.edges, DefinedEdges(reg, row, defs))
    ensures r.Ok? ==> r.value.nodes == g.nodes && r.value.order == g.order
    ensures Graphs.Valid(g) && r.Ok? ==> Graphs.Valid(r.value)
    decreases |defs|
  {
    if |defs| == 0 then Ok(g)
    else
      assert forall j :: 0 < j < |defs| ==> defs[j] == defs[1..][j - 1];
      var g1 :- EdgeStep(g, reg, row, defs[0]);
      var r := GetEdges(g1, reg, row, defs[1..]);
      if r.Ok? && Defines(reg, row, defs[0]) then
        Edges.AddAllCons(g.edges, EdgeOf(reg, row, defs[0]), DefinedEdges(reg, row, defs[1..]));
        r
      else r
  }

  /** The rows in order, each through `getNodes` and then `getEdges`. */
  function ProcessRows(g: Graph, reg: Register, cfg: Config, rows: seq<Row>): (r: Result<Graph, Error>)
    requires Registers.Valid(reg)
    ensures r.Ok? ==> Grows(g, r.value)
    ensures Graphs.Valid(g) && r.Ok? ==> Graphs.Valid(r.value)
    decreases |rows|
  {
    if |rows| == 0 then Ok(g)
    else
      var g1 :- GetNodes(g, reg, cfg, rows[0], cfg.nodes);
      var g2 :- GetEdges(g1, reg, rows[0], cfg.edges);
      ProcessRows(g2, reg, cfg, rows[1..])
  }

  /** `transform`: a fresh graph built from the rows, returned as nodes and edges. */
  function Transform(reg: Register, cfg: Config, rows: seq<Row>): (r: Result<Json, Error>)
    requires Registers.Valid(reg)
    ensures r.Ok? <==> ProcessRows(NewGraph(), reg, cfg, rows).Ok?
    ensures r.Ok? ==>
              var g := ProcessRows(NewGraph(), reg, cfg, rows).value;
              g.edges.bundling == Edges.NewManager(None).bundling && Renders(r.value, g)
  {
    var g :- ProcessRows(NewGraph(), reg, cfg, rows);
    Ok(ToJson(g))
  }
}
