/** What the verbose transform makes of its definitions. */
module VerboseFacts {
  import opened Wrappers
  import opened Registers
  import opened Graphs
  import opened Engines
  import opened Verbose
  import Edges

  /**
   * The fields of an upserted node, as `Object.assign` leaves them: `id` and `group` last, then
   * the definition's properties, then the group's, and otherwise whatever the node already had.
   */
  lemma NodeFields(g: Graph, reg: Register, cfg: Config, row: Row, d: NodeDef, k: string)
    requires Registers.Valid(reg)
    ensures var r := NodeStep(g, reg, cfg, row, d);
            r.Ok? && Accepts(reg, row, d) ==>
              var key := row[d.variable];
              var props := GetProperties(reg, d.properties.GetOr([]), row);
              var old_ := Existing(g, key).fields;
              var f := r.value.nodes[key].fields;
              && props.Ok?
              && r.value.nodes[key].properties == Existing(g, key).properties
              && (k in f <==> k == "id" || k == "group" || k in props.value || k in cfg.groups[d.group] || k in old_)
              && (k in f ==>
                    f[k] == if k == "id" then key
                            else if k == "group" then d.group
                            else if k in props.value then props.value[k]
                            else if k in cfg.groups[d.group] then cfg.groups[d.group][k]
                            else old_[k])
  {
  }

  /**
   * An edge definition throws exactly when both ends are bound and its condition throws, or it
   * passes and a property's condition throws.
   */
  lemma EdgeStepFails(g: Graph, reg: Register, row: Row, d: EdgeDef)
    requires Registers.Valid(reg)
    ensures EdgeStep(g, reg, row, d).Err? <==>
              && d.from in row && d.to in row
              && (|| PassesCondition(reg, d.variable, d.condition, row).Err?
                  || (&& PassesCondition(reg, d.variable, d.condition, row) == Ok(true)
                      && GetProperties(reg, d.properties.GetOr([]), row).Err?))
  {
  }

  /**
   * With the manager's default strategy (bidirectional, counted) an accepted edge whose
   * properties set neither `id`, `from` nor `to` is stored under `from-to` with its two ends and
   * counts how often that id was added.
   */
  lemma EdgeStepStored(g: Graph, reg: Register, row: Row, d: EdgeDef)
    requires Registers.Valid(reg) && g.edges.bundling == Edges.NewManager(None).bundling
    ensures var r := EdgeStep(g, reg, row, d);
            var props := GetProperties(reg, d.properties.GetOr([]), row);
            r.Ok? && AcceptsEdge(reg, row, d) && "id" !in props.value && "from" !in props.value && "to" !in props.value ==>
              var id := row[d.from] + "-" + row[d.to];
              && id in r.value.edges.edges
              && r.value.edges.edges[id].attrs["from"] == row[d.from]
              && r.value.edges.edges[id].attrs["to"] == row[d.to]
              && r.value.edges.edges[id].count == Some(Edges.CounterOf(g.edges, id) + 1)
  {
    var r := EdgeStep(g, reg, row, d);
    if r.Ok? && AcceptsEdge(reg, row, d) {
      var id := row[d.from] + "-" + row[d.to];
      assert Edges.StrategyOfManager(g.edges) == Edges.Bidirectional;
      assert Edges.NextId(g.edges, id).1 == id;
    }
  }

  /**
   * Every stored node has an `id` field equal to its key, and a `group` field naming a group some
   * node definition uses and the configuration defines.
   */
  ghost predicate WellTagged(g: Graph, cfg: Config) {
    forall k :: k in g.nodes ==>
      && "id" in g.nodes[k].fields && g.nodes[k].fields["id"] == k
      && "group" in g.nodes[k].fields && g.nodes[k].fields["group"] in cfg.groups
      && exists j :: 0 <= j < |cfg.nodes| && cfg.nodes[j].group == g.nodes[k].fields["group"]
  }

  lemma NodeStepTags(g: Graph, reg: Register, cfg: Config, row: Row, j: nat)
    requires Registers.Valid(reg) && WellTagged(g, cfg) && j < |cfg.nodes|
    ensures var r := NodeStep(g, reg, cfg, row, cfg.nodes[j]);
            r.Ok? ==> WellTagged(r.value, cfg)
  {
    var d := cfg.nodes[j];
    var r := NodeStep(g, reg, cfg, row, d);
    if r.Ok? && r.value != g {
      var key := row[d.variable];
      forall k | k in r.value.nodes
        ensures exists j' :: 0 <= j' < |cfg.nodes| && cfg.nodes[j'].group == r.value.nodes[k].fields["group"]
      {
        if k == key {
          assert cfg.nodes[j].group == r.value.nodes[k].fields["group"];
        } else {
          assert r.value.nodes[k] == g.nodes[k];
        }
      }
    }
  }

  lemma {:induction false} GetNodesTags(g: Graph, reg: Register, cfg: Config, row: Row, i: nat)
    requires Registers.Valid(reg) && WellTagged(g, cfg) && i <= |cfg.nodes|
    ensures var r := GetNodes(g, reg, cfg, row, cfg.nodes[i..]);
            r.Ok? ==> WellTagged(r.value, cfg)
    decreases |cfg.nodes| - i
  {
    if i < |cfg.nodes| {
      var defs := cfg.nodes[i..];
      assert defs[0] == cfg.nodes[i] && defs[1..] == cfg.nodes[i + 1..];
      NodeStepTags(g, reg, cfg, row, i);
      var g1 := NodeStep(g, reg, cfg, row, cfg.nodes[i]);
      if g1.Ok? {
        GetNodesTags(g1.value, reg, cfg, row, i + 1);
      }
    }
  }

  lemma {:induction false} ProcessRowsTags(g: Graph, reg: Register, cfg: Config, rows: seq<Row>)
    requires Registers.Valid(reg) && WellTagged(g, cfg)
    ensures var r := ProcessRows(g, reg, cfg, rows);
            r.Ok? ==> WellTagged(r.value, cfg)
    decreases |rows|
  {
    if |rows| > 0 {
      assert cfg.nodes[0..] == cfg.nodes;
      GetNodesTags(g, reg, cfg, rows[0], 0);
      var g1 := GetNodes(g, reg, cfg, rows[0], cfg.nodes);
      if g1.Ok? {
        var g2 := GetEdges(g1.value, reg, rows[0], cfg.edges);
        if g2.Ok? {
          assert g2.value.nodes == g1.value.nodes;
          ProcessRowsTags(g2.value, reg, cfg, rows[1..]);
        }
      }
    }
  }

  /**
   * Nodes as a transform returns them: each has an `id`, no two have the same one, and each has
   * a `group` the configuration defines and some node definition names.
   */
  ghost predicate Tagged(ns: seq<Node>, cfg: Config) {
    && (forall i :: 0 <= i < |ns| ==>
          && "id" in ns[i].fields
          && "group" in ns[i].fields && ns[i].fields["group"] in cfg.groups
          && exists j :: 0 <= j < |cfg.nodes| && cfg.nodes[j].group == ns[i].fields["group"])
    && (forall i, i' :: 0 <= i < i' < |ns| ==> ns[i].fields["id"] != ns[i'].fields["id"])
  }

  /** The nodes of a well-tagged graph, in order, are tagged. */
  lemma JsonNodes(g: Graph, cfg: Config)
    requires Graphs.Valid(g) && WellTagged(g, cfg)
    ensures Tagged(ToJson(g).nodes, cfg)
  {
    var ns := ToJson(g).nodes;
    forall i | 0 <= i < |ns|
      ensures ns[i] == g.nodes[g.order[i]] && ns[i].fields["id"] == g.order[i]
    {
    }
  }

  /**
   * The nodes a verbose transform returns are tagged: each carries the id it was stored under,
   * no two carry the same id, and each belongs to a configured group that some node definition
   * names.
   */
  lemma TransformNodes(reg: Register, cfg: Config, rows: seq<Row>)
    requires Registers.Valid(reg)
    ensures var r := Transform(reg, cfg, rows);
            r.Ok? ==> Tagged(r.value.nodes, cfg)
  {
    ProcessRowsTags(NewGraph(), reg, cfg, rows);
    var p := ProcessRows(NewGraph(), reg, cfg, rows);
    if p.Ok? {
      JsonNodes(p.value, cfg);
    }
  }

  /**
   * What the graph holds of one row: the bound value of every accepting node definition is a
   * node key, and every accepting edge definition defines its edge, whose id is stored under
   * the bidirectional strategy.
   */
  ghost predicate RowIn(g: Graph, reg: Register, cfg: Config, row: Row)
    requires Registers.Valid(reg)
  {
    && (forall j :: 0 <= j < |cfg.nodes| && Accepts(reg, row, cfg.nodes[j]) ==> row[cfg.nodes[j].variable] in g.nodes)
    && (forall j :: 0 <= j < |cfg.edges| && AcceptsEdge(reg, row, cfg.edges[j]) ==>
          && Defines(reg, row, cfg.edges[j])
          && (Edges.StrategyOfManager(g.edges) == Edges.Bidirectional ==> EdgeOf(reg, row, cfg.edges[j]).id in g.edges.edges))
  }

  /** One row through `getNodes` and `getEdges` leaves the row in the graph. */
  lemma RowStored(g: Graph, reg: Register, cfg: Config, row: Row)
    requires Registers.Valid(reg)
    ensures var g1 := GetNodes(g, reg, cfg, row, cfg.nodes);
            g1.Ok? ==>
              var g2 := GetEdges(g1.value, reg, row, cfg.edges);
              g2.Ok? ==> Grows(g, g2.value) && RowIn(g2.value, reg, cfg, row)
  {
    var g1 := GetNodes(g, reg, cfg, row, cfg.nodes);
    if g1.Ok? {
      var g2 := GetEdges(g1.value, reg, row, cfg.edges);
      if g2.Ok? {
        var es := DefinedEdges(reg, row, cfg.edges);
        forall j | 0 <= j < |cfg.edges| && AcceptsEdge(reg, row, cfg.edges[j])
          ensures Defines(reg, row, cfg.edges[j])
          ensures Edges.StrategyOfManager(g2.value.edges) == Edges.Bidirectional ==> EdgeOf(reg, row, cfg.edges[j]).id in g2.value.edges.edges
        {
          assert !EdgeFails(reg, row, cfg.edges[j]);
          var k :| 0 <= k < |es| && es[k] == EdgeOf(reg, row, cfg.edges[j]);
        }
      }
    }
  }

  /** What the graph holds of one row stays there as the graph grows. */
  lemma RowInGrows(g: Graph, g': Graph, reg: Register, cfg: Config, row: Row)
    requires Registers.Valid(reg) && Grows(g, g') && RowIn(g, reg, cfg, row)
    ensures RowIn(g', reg, cfg, row)
  {
  }

  /**
   * After all rows, every row is in the graph: each accepting node definition's bound value is
   * a node key, and each accepting edge definition's edge id is stored under the bidirectional
   * strategy.
   */
  lemma {:induction false} ProcessRowsStores(g: Graph, reg: Register, cfg: Config, rows: seq<Row>)
    requires Registers.Valid(reg)
    ensures var r := ProcessRows(g, reg, cfg, rows);
            r.Ok? ==> forall i :: 0 <= i < |rows| ==> RowIn(r.value, reg, cfg, rows[i])
    decreases |rows|
  {
    var r := ProcessRows(g, reg, cfg, rows);
    if |rows| > 0 && r.Ok? {
      RowStored(g, reg, cfg, rows[0]);
      var g1 := GetNodes(g, reg, cfg, rows[0], cfg.nodes).value;
      var g2 := GetEdges(g1, reg, rows[0], cfg.edges).value;
      assert r == ProcessRows(g2, reg, cfg, rows[1..]);
      ProcessRowsStores(g2, reg, cfg, rows[1..]);
      RowInGrows(g2, r.value, reg, cfg, rows[0]);
      forall i | 0 < i < |rows| ensures RowIn(r.value, reg, cfg, rows[i]) {
        assert rows[i] == rows[1..][i - 1];
      }
    }
  }

  /** A node stored under `key` in a well-tagged graph is returned with `key` as its `id`. */
  lemma RenderedNode(g: Graph, cfg: Config, key: string)
    requires Graphs.Valid(g) && WellTagged(g, cfg) && key in g.nodes
    ensures exists n :: n in ToJson(g).nodes && "id" in n.fields && n.fields["id"] == key
  {
    var k :| 0 <= k < |g.order| && g.order[k] == key;
    assert ToJson(g).nodes[k] == g.nodes[key];
  }

  /** An edge stored under `id` is returned with that id. */
  lemma RenderedEdge(g: Graph, id: string)
    requires Graphs.Valid(g) && id in g.edges.edges
    ensures exists x :: x in ToJson(g).edges && x.id == id
  {
    assert g.edges.edges[id] in ToJson(g).edges;
  }

  /**
   * The returned JSON holds every row: for each accepting node definition a node whose `id` is
   * the bound value, and for each accepting edge definition an edge with its id, since
   * `transform` starts from the bidirectional default.
   */
  lemma TransformStores(reg: Register, cfg: Config, rows: seq<Row>, i: nat)
    requires Registers.Valid(reg) && i < |rows|
    ensures var r := Transform(reg, cfg, rows);
            r.Ok? ==>
              && (forall j :: 0 <= j < |cfg.nodes| && Accepts(reg, rows[i], cfg.nodes[j]) ==>
                    exists n :: n in r.value.nodes && "id" in n.fields && n.fields["id"] == rows[i][cfg.nodes[j].variable])
              && (forall j :: 0 <= j < |cfg.edges| && AcceptsEdge(reg, rows[i], cfg.edges[j]) ==> Defines(reg, rows[i], cfg.edges[j]))
              && (forall j :: 0 <= j < |cfg.edges| && Defines(reg, rows[i], cfg.edges[j]) ==>
                    exists x :: x in r.value.edges && x.id == EdgeOf(reg, rows[i], cfg.edges[j]).id)
  {
    var r := Transform(reg, cfg, rows);
    var p := ProcessRows(NewGraph(), reg, cfg, rows);
    if r.Ok? {
      var g := p.value;
      assert r.value == ToJson(g);
      ProcessRowsStores(NewGraph(), reg, cfg, rows);
      ProcessRowsTags(NewGraph(), reg, cfg, rows);
      assert RowIn(g, reg, cfg, rows[i]);
      assert Edges.StrategyOfManager(g.edges) == Edges.Bidirectional;
      forall j | 0 <= j < |cfg.nodes| && Accepts(reg, rows[i], cfg.nodes[j])
        ensures exists n :: n in r.value.nodes && "id" in n.fields && n.fields["id"] == rows[i][cfg.nodes[j].variable]
      {
        RenderedNode(g, cfg, rows[i][cfg.nodes[j].variable]);
      }
      forall j | 0 <= j < |cfg.edges| && Defines(reg, rows[i], cfg.edges[j])
        ensures exists x :: x in r.value.edges && x.id == EdgeOf(reg, rows[i], cfg.edges[j]).id
      {
        RenderedEdge(g, EdgeOf(reg, rows[i], cfg.edges[j]).id);
      }
    }
  }
}
