/** How the early transform relates to the verbose one, and what carrying its node map means. */
module EarlyFacts {
  import opened Wrappers
  import opened Registers
  import opened Graphs
  import opened Engines
  import Verbose
  import Early

  /** The definitions with their fixed values dropped, which is how the early version reads them. */
  function Blank(defs: seq<Verbose.PropDef>): (b: seq<Verbose.PropDef>)
    ensures |b| == |defs|
    ensures forall j :: 0 <= j < |defs| ==> b[j] == defs[j].(value := "")
  {
    seq(|defs|, j requires 0 <= j < |defs| => defs[j].(value := ""))
  }

  /**
   * Writing the properties one by one onto the fields is merging, over the fields, what the
   * verbose `getProperties` collects from the same definitions without their fixed values.
   */
  lemma {:induction false} WritePropsIsMerge(reg: Register, f: map<string, string>, defs: seq<Verbose.PropDef>, row: Row)
    requires Registers.Valid(reg)
    ensures Early.WriteProps(reg, f, defs, row) ==
              match Verbose.GetProperties(reg, Blank(defs), row)
              case Ok(p) => Ok(f + p)
              case Err(e) => Err(e)
    decreases |defs|
  {
    if |defs| == 0 {
      assert f + map[] == f;
    } else {
      var n := |defs|;
      var init := defs[..n - 1];
      BlankInit(defs);
      WritePropsIsMerge(reg, f, init, row);
      match Verbose.GetProperties(reg, Blank(init), row)
      case Err(_) =>
      case Ok(p) =>
        var d := defs[n - 1];
        var pass := PassesCondition(reg, d.variable, d.condition, row);
        if pass == Ok(true) && d.variable in row {
          MergeUpdate(f, p, d.name, row[d.variable]);
        }
    }
  }

  lemma BlankInit(defs: seq<Verbose.PropDef>)
    requires |defs| > 0
    ensures Blank(defs)[..|defs| - 1] == Blank(defs[..|defs| - 1])
    ensures Blank(defs)[|defs| - 1] == defs[|defs| - 1].(value := "")
  {
  }

  lemma MergeUpdate(f: map<string, string>, p: map<string, string>, k: string, v: string)
    ensures (f + p)[k := v] == f + p[k := v]
  {
  }

  /** None of the definitions sets a fixed value or writes `id` or `group`. */
  predicate Tame(defs: seq<Verbose.PropDef>) {
    forall j :: 0 <= j < |defs| ==> defs[j].value == "" && defs[j].name != "id" && defs[j].name != "group"
  }

  lemma TameKeys(reg: Register, defs: seq<Verbose.PropDef>, row: Row)
    requires Registers.Valid(reg) && Tame(defs) && Verbose.GetProperties(reg, defs, row).Ok?
    ensures "id" !in Verbose.GetProperties(reg, defs, row).value
    ensures "group" !in Verbose.GetProperties(reg, defs, row).value
  {
  }

  lemma Reorder(base: map<string, string>, key: string, group: string, p: map<string, string>)
    requires "id" !in p && "group" !in p
    ensures base + map["id" := key, "group" := group] + p == base + p + map["id" := key, "group" := group]
  {
  }

  /**
   * For a definition whose properties are tame the early and the verbose node step agree: the
   * later version only changed the order of the merge and added fixed values.
   */
  lemma EarlyMatchesVerbose(g: Graph, reg: Register, cfg: Verbose.Config, row: Row, d: Verbose.NodeDef)
    requires Registers.Valid(reg) && d.properties.Some? && Tame(d.properties.value)
    ensures Early.NodeStep(g, reg, cfg, row, d) == Verbose.NodeStep(g, reg, cfg, row, d)
  {
    var defs := d.properties.value;
    assert Blank(defs) == defs;
    if Verbose.Accepts(reg, row, d) && d.group in cfg.groups {
      var key := row[d.variable];
      var n := Verbose.Existing(g, key);
      var base := n.fields + cfg.groups[d.group];
      var tags := map["id" := key, "group" := d.group];
      WritePropsIsMerge(reg, base + tags, defs, row);
      var p := Verbose.GetProperties(reg, defs, row);
      if p.Ok? {
        TameKeys(reg, defs, row);
        Reorder(base, key, d.group, p.value);
      }
    }
  }

  /**
   * A property definition named `id` overwrites the id the early version has just set, so the
   * node can end up carrying an id other than its key; the verbose version keeps the key.
   */
  lemma EarlyIdOverride()
    ensures var d := Verbose.NodeDef("?s", "g", None, Some([Verbose.PropDef("id", "", "?x", None)]));
            var cfg := Verbose.Config([d], [], map["g" := map[]]);
            var row: Row := map["?s" := "a", "?x" := "b"];
            var early := Early.NodeStep(NewGraph(), Empty, cfg, row, d);
            var verbose := Verbose.NodeStep(NewGraph(), Empty, cfg, row, d);
            && early.Ok? && early.value.nodes["a"].fields["id"] == "b"
            && verbose.Ok? && verbose.value.nodes["a"].fields["id"] == "a"
  {
    assert Registers.Valid(Empty);
    var defs := [Verbose.PropDef("id", "", "?x", None)];
    assert defs[..0] == [];
  }

  /**
   * The node map carries over: transforming two batches of rows one after the other is
   * transforming them together.
   */
  lemma {:induction false} TransformCarriesOver(inst: Early.Instance, cfg: Verbose.Config, rows1: seq<Row>, rows2: seq<Row>)
    requires Registers.Valid(inst.reg)
    ensures Early.Transform(inst, cfg, rows1 + rows2) ==
              match Early.Transform(inst, cfg, rows1)
              case Ok(i1) => Early.Transform(i1, cfg, rows2)
              case Err(e) => Err(e)
    decreases |rows1|
  {
    if |rows1| == 0 {
      assert rows1 + rows2 == rows2;
    } else {
      assert (rows1 + rows2)[0] == rows1[0];
      assert (rows1 + rows2)[1..] == rows1[1..] + rows2;
      var g1 := Early.GetNodes(inst.graph, inst.reg, cfg, rows1[0], cfg.nodes);
      if g1.Ok? {
        TransformCarriesOver(Early.Instance(inst.reg, g1.value), cfg, rows1[1..], rows2);
      }
    }
  }
}
