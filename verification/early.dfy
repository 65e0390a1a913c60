/**
 * The first version of the transform, `MrSparql` of `src/index.js`: nodes only. Its node map lives
 * in the instance and so carries over from one `transform` call to the next, and the object a call
 * returns is always empty, so the model returns the instance's new state instead.
 */
module Early {
  import opened Wrappers
  import opened Registers
  import opened Graphs
  import opened Engines
  import opened Verbose

  /** An instance: the register its constructor loads and the node map it keeps. */
  datatype Instance = Instance(reg: Register, graph: Graph)

  /** The constructor: the register of the configured prefix strings and an empty node map. */
  function New(prefixes: Option<seq<string>>): (r: Result<Instance, Error>)
    ensures r.Ok? <==> ConfigRegister(prefixes).Ok?
    ensures r.Ok? ==> r.value.reg == ConfigRegister(prefixes).value && r.value.graph.nodes == map[]
    ensures r.Ok? ==> Registers.Valid(r.value.reg) && Graphs.Valid(r.value.graph)
  {
    var reg :- ConfigRegister(prefixes);
    Ok(Instance(reg, NewGraph()))
  }

  /**
   * The property definitions in order, each written straight onto the node's fields when its
   * condition passes and its variable is bound; a definition's fixed `value` is ignored.
   */
  function WriteProps(reg: Register, fields: map<string, string>, defs: seq<PropDef>, row: Row): (r: Result<map<string, string>, Error>)
    requires Registers.Valid(reg)
    ensures r.Err? <==> exists j :: 0 <= j < |defs| && PassesCondition(reg, defs[j].variable, defs[j].condition, row).Err?
    ensures r.Ok? ==> fields.Keys <= r.value.Keys
    decreases |defs|
  {
    if |defs| == 0 then Ok(fields)
    else
      var n := |defs|;
      var d := defs[n - 1];
      assert forall j :: 0 <= j < n - 1 ==> defs[..n - 1][j] == defs[j];
      var f :- WriteProps(reg, fields, defs[..n - 1], row);
      var pass :- PassesCondition(reg, d.variable, d.condition, row);
      if pass && d.variable in row then Ok(f[d.name := row[d.variable]]) else Ok(f)
  }

  /**
   * One node definition of the early `getNodes`: like the verbose one, except that the group's
   * properties and `id` and `group` are merged first and the definition's properties written
   * after them, and a definition without a properties array throws.
   */
  function NodeStep(g: Graph, reg: Register, cfg: Config, row: Row, d: NodeDef): (r: Result<Graph, Error>)
    requires Registers.Valid(reg)
    ensures d.variable !in row ==> r == Ok(g)
    ensures d.variable in row && PassesCondition(reg, d.variable, d.condition, row) == Ok(false) ==> r == Ok(g)
    ensures Accepts(reg, row, d) && (d.group !in cfg.groups || d.properties.None?) ==> r == Err(Crash)
    ensures r.Err? <==> NodeFails(reg, cfg, row, d)
    ensures r.Ok? && r.value != g ==> Accepts(reg, row, d)
    ensures r.Ok? && Accepts(reg, row, d) ==>
              var key := row[d.variable];
              && r.value.edges == g.edges
              && key in r.value.nodes
              && "group" in r.value.nodes[key].fields
              && (forall k :: k != key ==>
                    && (k in r.value.nodes <==> k in g.nodes)
                    && (k in g.nodes ==> r.value.nodes[k] == g.nodes[k]))
    ensures Graphs.Valid(g) && r.Ok? ==> Graphs.Valid(r.value)
  {
    if d.variable !in row then Ok(g)
    else
      var pass :- PassesCondition(reg, d.variable, d.condition, row);
      if !pass then Ok(g)
      else
        var key := row[d.variable];
        if d.group !in cfg.groups || d.properties.None? then Err(Crash)
        else
          var n := Existing(g, key);
          var fields :- WriteProps(reg, n.fields + cfg.groups[d.group] + map["id" := key, "group" := d.group],
                                   d.properties.value, row);
          Ok(SetNode(g, key, n.(fields := fields)))
  }

  /**
   * The definition makes the early `getNodes` throw: its variable is bound and its condition
   * throws, or the condition passes and the group or the properties list is missing or a
   * property's condition throws.
   */
  predicate NodeFails(reg: Register, cfg: Config, row: Row, d: NodeDef)
    requires Registers.Valid(reg)
  {
    && d.variable in row
    && (|| PassesCondition(reg, d.variable, d.condition, row).Err?
        || (&& PassesCondition(reg, d.variable, d.condition, row) == Ok(true)
            && (|| d.group !in cfg.groups
                || d.properties.None?
                || exists j :: 0 <= j < |d.properties.value| &&
                     PassesCondition(reg, d.properties.value[j].variable, d.properties.value[j].condition, row).Err?)))
  }

  /**
   * The early `getNodes`: every node definition in order. It throws exactly when some definition
   * throws; otherwise the bound value of every accepting definition is a node key and no node is
   * removed.
   */
  function GetNodes(g: Graph, reg: Register, cfg: Config, row: Row, defs: seq<NodeDef>): (r: Result<Graph, Error>)
    requires Registers.Valid(reg)
    ensures r.Err? <==> exists j :: 0 <= j < |defs| && NodeFails(reg, cfg, row, defs[j])
    ensures r.Ok? ==> forall j :: 0 <= j < |defs| && Accepts(reg, row, defs[j]) ==> row[defs[j].variable] in r.value.nodes
    ensures r.Ok? ==> g.nodes.Keys <= r.value.nodes.Keys
    ensures r.Ok? ==> r.value.edges == g.edges
    ensures Graphs.Valid(g) && r.Ok? ==> Graphs.Valid(r.value)
    decreases |defs|
  {
    if |defs| == 0 then Ok(g)
    else
      assert forall j :: 0 < j < |defs| ==> defs[j] == defs[1..][j - 1];
      var g1 :- NodeStep(g, reg, cfg, row, defs[0]);
      GetNodes(g1, reg, cfg, row, defs[1..])
  }

  /**
   * The early `transform`: the rows in order through `getNodes`, on the node map the instance
   * already holds. No edge is ever built.
   */
  function Transform(inst: Instance, cfg: Config, rows: seq<Row>): (r: Result<Instance, Error>)
    requires Registers.Valid(inst.reg)
    ensures r.Ok? ==> r.value.reg == inst.reg && r.value.graph.edges == inst.graph.edges
    ensures r.Ok? ==> inst.graph.nodes.Keys <= r.value.graph.nodes.Keys
    ensures Graphs.Valid(inst.graph) && r.Ok? ==> Graphs.Valid(r.value.graph)
    decreases |rows|
  {
    if |rows| == 0 then Ok(inst)
    else
      var g1 :- GetNodes(inst.graph, inst.reg, cfg, rows[0], cfg.nodes);
      Transform(Instance(inst.reg, g1), cfg, rows[1..])
  }
}
