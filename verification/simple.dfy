/**
 * `MrSparqlSimple`: the triples the scanner found in the query are resolved against each row of
 * the response; a triple whose predicate matches a configured edge becomes an edge between two
 * nodes, any other one a property of its subject's node.
 */
module Simple {
  import opened Wrappers
  import opened Prefixes
  import opened Registers
  import opened Scanner
  import opened Graphs
  import opened Engines
  import Edges

  /** One resolved position of a triple: the value, the variable name (or the literal text). */
  datatype Part = Part(value: string, variable: string, isVariable: bool)

  datatype Triple = Triple(subj: Part, pred: Part, obj: Part)

  /** A configured edge: the predicates it matches and the properties its edges carry. */
  datatype EdgeConfig = EdgeConfig(matches: seq<string>, properties: map<string, string>)

  /**
   * A rule of a node configuration, `name: { matches: { key: position, value } }`: a triple whose
   * `position` field matches `value` stores its object under `name` on the subject's node.
   */
  datatype Rule = Rule(name: string, position: string, value: string)

  /** A node configuration: the group and the rules, in the order a `for ... in` visits them. */
  datatype NodeConfig = NodeConfig(group: string, rules: seq<Rule>)

  /**
   * The parts of a simple configuration the transform reads; `groups` maps a group name to the
   * properties of the group, empty when the group has none.
   */
  datatype Config = Config(nodes: map<string, NodeConfig>, edges: seq<EdgeConfig>,
                           groups: map<string, map<string, string>>)

  /** A term naming a variable: its first character is `?`. */
  predicate IsVariableText(text: string) {
    |text| > 0 && text[0] == '?'
  }

  /**
   * The resolution of one term: a variable takes its value from the row (the empty text stands
   * for the `null` an unbound variable gets), a literal keeps its own text.
   */
  function ResolvePart(row: Row, text: string): (p: Part)
    ensures p.isVariable <==> IsVariableText(text)
    ensures p.isVariable ==> text == "?" + p.variable && (p.variable in row ==> p.value == row[p.variable])
    ensures !p.isVariable ==> p.value == text && p.variable == text
  {
    if IsVariableText(text) then
      var name := text[1..];
      Part(if name in row then row[name] else "", name, true)
    else Part(text, text, false)
  }

  /** The part passes validation: a literal, or a variable the row binds. */
  predicate IsBound(row: Row, p: Part) {
    !p.isVariable || p.variable in row
  }

  /** A scanned term that resolves in the row: a token, and a bound one if it names a variable. */
  predicate TermBound(row: Row, t: Term) {
    t.Word? && (IsVariableText(t.text) ==> t.text[1..] in row)
  }

  /**
   * One triple of `getProcessedTriples`: reading the first character of a missing term throws;
   * otherwise the triple is kept when every position is bound.
   */
  function ProcessTriple(row: Row, t: seq<Term>): (r: Result<Option<Triple>, Error>)
    requires |t| == 3
    ensures r.Err? <==> Missing in t
    ensures r.Ok? ==> (r.value.Some? <==> TermBound(row, t[0]) && TermBound(row, t[1]) && TermBound(row, t[2]))
    ensures r.Ok? && r.value.Some? ==>
              && r.value.value.subj == ResolvePart(row, t[0].text)
              && r.value.value.pred == ResolvePart(row, t[1].text)
              && r.value.value.obj == ResolvePart(row, t[2].text)
  {
    if Missing in t then Err(Crash)
    else
      assert t[0].Word? && t[1].Word? && t[2].Word?;
      var tr := Triple(ResolvePart(row, t[0].text), ResolvePart(row, t[1].text), ResolvePart(row, t[2].text));
      if IsBound(row, tr.subj) && IsBound(row, tr.pred) && IsBound(row, tr.obj) then Ok(Some(tr))
      else Ok(None)
  }

  /** The triples of a scan have three terms each. */
  predicate AllTriples(ts: seq<seq<Term>>) {
    forall k :: 0 <= k < |ts| ==> |ts[k]| == 3
  }

  /** Every position of a resolved triple is bound. */
  predicate TripleBound(row: Row, t: Triple) {
    IsBound(row, t.subj) && IsBound(row, t.pred) && IsBound(row, t.obj)
  }

  /**
   * `getProcessedTriples`: the triples that resolve in the row, in scan order; it throws when a
   * triple has a missing term.
   */
  function GetProcessedTriples(row: Row, ts: seq<seq<Term>>): (r: Result<seq<Triple>, Error>)
    requires AllTriples(ts)
    ensures r.Err? <==> exists k :: 0 <= k < |ts| && Missing in ts[k]
    ensures r.Ok? ==> |r.value| <= |ts| && forall j :: 0 <= j < |r.value| ==> TripleBound(row, r.value[j])
    decreases |ts|
  {
    if |ts| == 0 then Ok([])
    else
      match ProcessTriple(row, ts[0])
      case Err(e) => Err(e)
      case Ok(first) =>
        match GetProcessedTriples(row, ts[1..])
        case Err(e) =>
          assert exists k :: 0 <= k < |ts[1..]| && Missing in ts[1..][k];
          Err(e)
        case Ok(rest) =>
          assert forall k :: 0 <= k < |ts| ==> Missing !in ts[k] by {
            forall k | 0 <= k < |ts| ensures Missing !in ts[k] {
              if k > 0 {
                assert ts[k] == ts[1..][k - 1];
              }
            }
          }
          var kept := if first.Some? then [first.value] + rest else rest;
          assert forall j :: 0 <= j < |kept| ==> TripleBound(row, kept[j]) by {
            forall j | 0 <= j < |kept| ensures TripleBound(row, kept[j]) {
              if first.Some? && j > 0 {
                assert kept[j] == rest[j - 1];
              }
            }
          }
          Ok(kept)
  }

  /** The predicate of the triple matches some predicate of edge configuration `i`. */
  predicate MatchesEdge(reg: Register, cfg: Config, t: Triple, i: nat)
    requires Registers.Valid(reg) && i < |cfg.edges|
  {
    exists m :: m in cfg.edges[i].matches && IsUriMatch(reg, t.pred.value, m)
  }

  /** Edge configuration `i` makes a relationship of the triple. */
  predicate Relates(reg: Register, cfg: Config, t: Triple, i: nat)
    requires Registers.Valid(reg)
  {
    && i < |cfg.edges|
    && t.subj.variable in cfg.nodes && t.obj.variable in cfg.nodes
    && MatchesEdge(reg, cfg, t, i)
  }

  /** The first edge configuration from `i` on that relates the triple. */
  function FindFrom(reg: Register, cfg: Config, t: Triple, i: nat): (r: Option<nat>)
    requires Registers.Valid(reg)
    ensures r.Some? ==> i <= r.value && Relates(reg, cfg, t, r.value)
    ensures forall j :: i <= j && (r.Some? ==> j < r.value) ==> !Relates(reg, cfg, t, j)
    decreases |cfg.edges| - i
  {
    if i >= |cfg.edges| then None
    else if Relates(reg, cfg, t, i) then Some(i)
    else FindFrom(reg, cfg, t, i + 1)
  }

  /**
   * `findRelationship`: the position of the first edge configuration that relates the triple;
   * a relationship needs both the subject and the object variable configured as nodes.
   */
  function FindRelationship(reg: Register, cfg: Config, t: Triple): (r: Option<nat>)
    requires Registers.Valid(reg)
    ensures r.Some? ==> Relates(reg, cfg, t, r.value)
    ensures forall j: nat :: (r.Some? ==> j < r.value) ==> !Relates(reg, cfg, t, j)
  {
    FindFrom(reg, cfg, t, 0)
  }

  /** The properties a new node of a group starts with: the group's, then `id` and `group`. */
  function GroupNode(props: map<string, string>, id: string, group: string): (n: Node)
    ensures n.fields.Keys == props.Keys + {"id", "group"} && n.properties == None
    ensures n.fields["id"] == id && n.fields["group"] == group
    ensures forall k :: k in props && k != "id" && k != "group" ==> n.fields[k] == props[k]
  {
    Node(props["id" := id]["group" := group], None)
  }

  /**
   * One end of a relationship: a node not yet stored is created from its group; a node whose
   * group is not configured makes the transform throw.
   */
  function AddEndpoint(g: Graph, cfg: Config, p: Part): (r: Result<Graph, Error>)
    requires p.variable in cfg.nodes
    ensures p.value in g.nodes ==> r == Ok(g)
    ensures p.value !in g.nodes ==> (r.Err? <==> cfg.nodes[p.variable].group !in cfg.groups)
    ensures r.Ok? && p.value !in g.nodes ==>
              var group := cfg.nodes[p.variable].group;
              r.value == SetNode(g, p.value, GroupNode(cfg.groups[group], p.value, group))
    ensures SlotsShared(g) && r.Ok? ==> SlotsShared(r.value)
  {
    if p.value in g.nodes then Ok(g)
    else
      var group := cfg.nodes[p.variable].group;
      if group !in cfg.groups then Err(Crash)
      else Ok(SetNode(g, p.value, GroupNode(cfg.groups[group], p.value, group)))
  }

  /** The edge of a relationship: the configured properties, then `id`, `from` and `to`. */
  function RelationshipEdge(ec: EdgeConfig, t: Triple): (e: Edges.Edge)
    ensures e.id == t.subj.value + "-" + t.obj.value && e.count == None
    ensures e.attrs.Keys == (ec.properties.Keys - {"id"}) + {"from", "to"}
    ensures e.attrs["from"] == t.subj.value && e.attrs["to"] == t.obj.value
    ensures forall k :: k in ec.properties && k !in {"id", "from", "to"} ==> e.attrs[k] == ec.properties[k]
  {
    var id := t.subj.value + "-" + t.obj.value;
    Edges.Edge(id, (ec.properties - {"id"})["from" := t.subj.value]["to" := t.obj.value], None)
  }

  /** A relationship: both end nodes, subject first, then the edge between them. */
  function Relationship(g: Graph, cfg: Config, ec: EdgeConfig, t: Triple): (r: Result<Graph, Error>)
    requires t.subj.variable in cfg.nodes && t.obj.variable in cfg.nodes
    ensures r.Ok? ==> t.subj.value in r.value.nodes && t.obj.value in r.value.nodes
    ensures r.Ok? ==> g.nodes.Keys <= r.value.nodes.Keys
    ensures r.Ok? ==> r.value.edges == Edges.AddEdge(g.edges, RelationshipEdge(ec, t))
    ensures Graphs.Valid(g) && r.Ok? ==> Graphs.Valid(r.value)
    ensures SlotsShared(g) && r.Ok? ==> SlotsShared(r.value)
  {
    var g1 :- AddEndpoint(g, cfg, t.subj);
    var g2 :- AddEndpoint(g1, cfg, t.obj);
    Ok(AddEdge(g2, RelationshipEdge(ec, t)))
  }

  /** The value of the triple field a rule names; any name but the three positions throws. */
  function Field(t: Triple, position: string): (r: Option<string>)
    ensures r.Some? <==> position in {"subject", "predicate", "object"}
    ensures position == "subject" ==> r == Some(t.subj.value)
    ensures position == "predicate" ==> r == Some(t.pred.value)
    ensures position == "object" ==> r == Some(t.obj.value)
  {
    if position == "subject" then Some(t.subj.value)
    else if position == "predicate" then Some(t.pred.value)
    else if position == "object" then Some(t.obj.value)
    else None
  }

  /** The rule applies to the triple. */
  predicate RuleHolds(reg: Register, t: Triple, rule: Rule)
    requires Registers.Valid(reg)
  {
    Field(t, rule.position).Some? && IsUriMatch(reg, Field(t, rule.position).value, rule.value)
  }

  /** The scan of the rules stops at this rule: it applies, or reading its field throws. */
  predicate Stops(reg: Register, t: Triple, rule: Rule)
    requires Registers.Valid(reg)
  {
    Field(t, rule.position).None? || RuleHolds(reg, t, rule)
  }

  /** The scan of the rules passes the first `n` of them. */
  predicate NoneStops(reg: Register, t: Triple, rules: seq<Rule>, n: nat)
    requires Registers.Valid(reg) && n <= |rules|
  {
    forall i :: 0 <= i < n ==> !Stops(reg, t, rules[i])
  }

  /**
   * The first rule that applies to the triple, or `None`; a rule naming a field other than the
   * three positions throws when it is reached.
   */
  function FirstRule(reg: Register, t: Triple, rules: seq<Rule>): (r: Result<Option<nat>, Error>)
    requires Registers.Valid(reg)
    ensures r.Ok? && r.value.Some? ==>
              r.value.value < |rules| && RuleHolds(reg, t, rules[r.value.value]) && NoneStops(reg, t, rules, r.value.value)
    ensures r.Err? ==> exists j :: 0 <= j < |rules| && Field(t, rules[j].position).None? && NoneStops(reg, t, rules, j)
    ensures r == Ok(None) ==> NoneStops(reg, t, rules, |rules|)
    decreases |rules|
  {
    if |rules| == 0 then Ok(None)
    else if Field(t, rules[0].position).None? then
      assert NoneStops(reg, t, rules, 0);
      Err(Crash)
    else if RuleHolds(reg, t, rules[0]) then
      assert NoneStops(reg, t, rules, 0);
      Ok(Some(0))
    else
      match FirstRule(reg, t, rules[1..])
      case Err(e) =>
        ghost var j :| 0 <= j < |rules| - 1 && Field(t, rules[1..][j].position).None? && NoneStops(reg, t, rules[1..], j);
        NoneStopsShift(reg, t, rules, j);
        Err(e)
      case Ok(None) =>
        NoneStopsShift(reg, t, rules, |rules| - 1);
        Ok(None)
      case Ok(Some(j)) =>
        NoneStopsShift(reg, t, rules, j);
        Ok(Some(j + 1))
  }

  /** Passing the first rule and then `n` of the rest is passing `n + 1` rules. */
  lemma NoneStopsShift(reg: Register, t: Triple, rules: seq<Rule>, n: nat)
    requires Registers.Valid(reg) && 0 < |rules| && n < |rules|
    requires !Stops(reg, t, rules[0]) && NoneStops(reg, t, rules[1..], n)
    ensures NoneStops(reg, t, rules, n + 1) && rules[n + 1..] == rules[1..][n..]
    ensures n + 1 < |rules| ==> rules[n + 1] == rules[1..][n]
  {
    forall i | 0 < i < n + 1 ensures !Stops(reg, t, rules[i]) {
      assert rules[i] == rules[1..][i - 1];
    }
  }

  /** The properties object of a node, empty when it has none yet. */
  function PropertiesOf(n: Node): map<string, string> {
    n.properties.GetOr(map[])
  }

  /** The node a property of `id` is stored on: the stored one, or a new one with an empty `properties`. */
  function NodeOrNew(g: Graph, id: string): (n: Node)
    ensures id in g.nodes ==> n == g.nodes[id]
    ensures id !in g.nodes ==> n.fields == map["id" := id] && n.properties == Some(map[])
  {
    if id in g.nodes then g.nodes[id] else Node(map["id" := id], Some(map[]))
  }

  /** The rules of the subject's node configuration; none when the subject is not configured. */
  function RulesOf(cfg: Config, t: Triple): seq<Rule> {
    if t.subj.variable in cfg.nodes then cfg.nodes[t.subj.variable].rules else []
  }

  /**
   * The node's `properties` slot holds a non-empty text, put there by a group property or a rule
   * named `properties`. The first-level field and the `properties` object are one slot of the
   * node, so storing a property under that text throws.
   */
  predicate SlotHoldsText(n: Node) {
    "properties" in n.fields && n.fields["properties"] != ""
  }

  /** The `properties` slot holds a text or an object, never both. */
  predicate OneSlot(n: Node) {
    !("properties" in n.fields && n.properties.Some?)
  }

  /** Every node of the graph has one `properties` slot. */
  ghost predicate SlotsShared(g: Graph) {
    forall k :: k in g.nodes ==> OneSlot(g.nodes[k])
  }

  /**
   * A property triple: the object value goes to the field of the first applying rule, or else
   * under the predicate value in the node's `properties`; the node is stored again under the
   * subject value. A rule named `properties` replaces the object with the text. Without a rule,
   * an empty text in the slot is replaced by a new object, and a non-empty one throws.
   */
  function Property(g: Graph, reg: Register, cfg: Config, t: Triple): (r: Result<Graph, Error>)
    requires Registers.Valid(reg)
    ensures r.Err? <==> || FirstRule(reg, t, RulesOf(cfg, t)).Err?
                        || (FirstRule(reg, t, RulesOf(cfg, t)) == Ok(None) && SlotHoldsText(NodeOrNew(g, t.subj.value)))
    ensures FirstRule(reg, t, RulesOf(cfg, t)) == Ok(None) && SlotHoldsText(NodeOrNew(g, t.subj.value)) ==> r == Err(Crash)
    ensures r.Ok? ==>
              var id := t.subj.value;
              var n := NodeOrNew(g, id);
              var hit := FirstRule(reg, t, RulesOf(cfg, t)).value;
              && r.value.edges == g.edges
              && id in r.value.nodes
              && (forall k :: k != id ==> (k in r.value.nodes <==> k in g.nodes) &&
                                          (k in g.nodes ==> r.value.nodes[k] == g.nodes[k]))
              && (hit.Some? ==>
                    var name := RulesOf(cfg, t)[hit.value].name;
                    && r.value.nodes[id].fields == n.fields[name := t.obj.value]
                    && r.value.nodes[id].properties == (if name == "properties" then None else n.properties))
              && (hit.None? ==>
                    && r.value.nodes[id].fields == n.fields - {"properties"}
                    && r.value.nodes[id].properties == Some(PropertiesOf(n)[t.pred.value := t.obj.value]))
    ensures r.Ok? && OneSlot(NodeOrNew(g, t.subj.value)) ==> OneSlot(r.value.nodes[t.subj.value])
    ensures Graphs.Valid(g) && r.Ok? ==> Graphs.Valid(r.value)
    ensures SlotsShared(g) && r.Ok? ==> SlotsShared(r.value)
  {
    var id := t.subj.value;
    var n := NodeOrNew(g, id);
    var hit :- FirstRule(reg, t, RulesOf(cfg, t));
    match hit
    case Some(j) =>
      var name := RulesOf(cfg, t)[j].name;
      var n' := if name == "properties" then Node(n.fields[name := t.obj.value], None)
                else n.(fields := n.fields[name := t.obj.value]);
      Ok(SetNode(g, id, n'))
    case None =>
      if SlotHoldsText(n) then Err(Crash)
      else Ok(SetNode(g, id, Node(n.fields - {"properties"}, Some(PropertiesOf(n)[t.pred.value := t.obj.value]))))
  }

  /**
   * A triple that resolves to a relationship is in the graph: both end values are node keys and,
   * under the bidirectional strategy, the edge `subject-object` is stored.
   */
  ghost predicate RelationshipIn(g: Graph, reg: Register, cfg: Config, t: Triple)
    requires Registers.Valid(reg)
  {
    FindRelationship(reg, cfg, t).Some? ==>
      && t.subj.value in g.nodes && t.obj.value in g.nodes
      && (Edges.StrategyOfManager(g.edges) == Edges.Bidirectional ==> t.subj.value + "-" + t.obj.value in g.edges.edges)
  }

  /** What a graph holds of a triple stays there as the graph grows. */
  lemma RelationshipInGrows(g: Graph, g': Graph, reg: Register, cfg: Config, t: Triple)
    requires Registers.Valid(reg) && Grows(g, g') && RelationshipIn(g, reg, cfg, t)
    ensures RelationshipIn(g', reg, cfg, t)
  {
  }

  /** One resolved triple of a row: a relationship or a property. */
  function Item(g: Graph, reg: Register, cfg: Config, t: Triple): (r: Result<Graph, Error>)
    requires Registers.Valid(reg)
    ensures r.Ok? ==> Grows(g, r.value) && RelationshipIn(r.value, reg, cfg, t)
    ensures Graphs.Valid(g) && r.Ok? ==> Graphs.Valid(r.value)
    ensures SlotsShared(g) && r.Ok? ==> SlotsShared(r.value)
  {
    match FindRelationship(reg, cfg, t)
    case Some(i) =>
      var r := Relationship(g, cfg, cfg.edges[i], t);
      if r.Ok? then
        var id := t.subj.value + "-" + t.obj.value;
        assert Edges.StrategyOfManager(g.edges) == Edges.Bidirectional ==> Edges.NextId(g.edges, id).1 == id;
        r
      else r
    case None => Property(g, reg, cfg, t)
  }

  /** The resolved triples of a row, in order; every relationship among them ends up in the graph. */
  function Items(g: Graph, reg: Register, cfg: Config, ts: seq<Triple>): (r: Result<Graph, Error>)
    requires Registers.Valid(reg)
    ensures r.Ok? ==> Grows(g, r.value)
    ensures r.Ok? ==> forall k :: 0 <= k < |ts| ==> RelationshipIn(r.value, reg, cfg, ts[k])
    ensures Graphs.Valid(g) && r.Ok? ==> Graphs.Valid(r.value)
    ensures SlotsShared(g) && r.Ok? ==> SlotsShared(r.value)
    decreases |ts|
  {
    if |ts| == 0 then Ok(g)
    else
      var g1 :- Item(g, reg, cfg, ts[0]);
      var r := Items(g1, reg, cfg, ts[1..]);
      if r.Ok? then
        RelationshipInGrows(g1, r.value, reg, cfg, ts[0]);
        assert forall k :: 0 < k < |ts| ==> ts[k] == ts[1..][k - 1];
        r
      else r
  }

  /** Every triple the row resolves is in the graph, as far as it is a relationship. */
  ghost predicate RowIn(g: Graph, reg: Register, cfg: Config, query: seq<seq<Term>>, row: Row)
    requires Registers.Valid(reg) && AllTriples(query)
  {
    && GetProcessedTriples(row, query).Ok?
    && forall k :: 0 <= k < |GetProcessedTriples(row, query).value| ==>
         RelationshipIn(g, reg, cfg, GetProcessedTriples(row, query).value[k])
  }

  /** `getItems` of one row. */
  function GetItems(g: Graph, reg: Register, cfg: Config, query: seq<seq<Term>>, row: Row): (r: Result<Graph, Error>)
    requires Registers.Valid(reg) && AllTriples(query)
    ensures r.Err? ==> GetProcessedTriples(row, query).Err? || Items(g, reg, cfg, GetProcessedTriples(row, query).value).Err?
    ensures r.Ok? ==> Grows(g, r.value) && RowIn(r.value, reg, cfg, query, row)
    ensures Graphs.Valid(g) && r.Ok? ==> Graphs.Valid(r.value)
    ensures SlotsShared(g) && r.Ok? ==> SlotsShared(r.value)
  {
    var ts :- GetProcessedTriples(row, query);
    Items(g, reg, cfg, ts)
  }

  /** `processRows`: every row, in order. */
  function ProcessRows(g: Graph, reg: Register, cfg: Config, query: seq<seq<Term>>, rows: seq<Row>): (r: Result<Graph, Error>)
    requires Registers.Valid(reg) && AllTriples(query)
    ensures r.Ok? ==> Grows(g, r.value)
    ensures r.Ok? ==> forall i :: 0 <= i < |rows| ==> GetProcessedTriples(rows[i], query).Ok?
    ensures Graphs.Valid(g) && r.Ok? ==> Graphs.Valid(r.value)
    ensures SlotsShared(g) && r.Ok? ==> SlotsShared(r.value)
    decreases |rows|
  {
    if |rows| == 0 then Ok(g)
    else
      var g1 :- GetItems(g, reg, cfg, query, rows[0]);
      var r := ProcessRows(g1, reg, cfg, query, rows[1..]);
      assert r.Ok? ==> forall i :: 0 < i < |rows| ==> rows[i] == rows[1..][i - 1];
      r
  }

  /** The engine's state: the register and the triples of its query. */
  datatype Engine = Engine(reg: Register, query: seq<seq<Term>>)

  /**
   * The constructor: the configured prefix strings are loaded, then the query is scanned and its
   * prefixes loaded after them. A prefix string that does not parse, or a scan that fails,
   * throws.
   */
  function NewEngine(prefixes: Option<seq<string>>, query: string): (r: Result<Engine, Error>)
    ensures r.Ok? <==> ConfigRegister(prefixes).Ok? && Parse(query).Some?
    ensures r.Ok? ==>
              && Registers.Valid(r.value.reg)
              && r.value.query == Parse(query).value.triples
              && r.value.reg.loaded == ConfigRegister(prefixes).value.loaded + Parse(query).value.prefixes
  {
    var base :- ConfigRegister(prefixes);
    match Parse(query)
    case None => Err(Crash)
    case Some(out) => Ok(Engine(LoadSeq(base, out.prefixes), out.triples))
  }

  /** `transform`: a fresh graph built from the rows, returned as nodes and edges. */
  function Transform(e: Engine, cfg: Config, rows: seq<Row>): (r: Result<Json, Error>)
    requires Registers.Valid(e.reg) && AllTriples(e.query)
    ensures r.Ok? <==> ProcessRows(NewGraph(), e.reg, cfg, e.query, rows).Ok?
    ensures r.Ok? ==>
              var g := ProcessRows(NewGraph(), e.reg, cfg, e.query, rows).value;
              g.edges.bundling == Edges.NewManager(None).bundling && Renders(r.value, g)
    ensures r.Ok? ==> SlotsShared(ProcessRows(NewGraph(), e.reg, cfg, e.query, rows).value)
  {
    var g :- ProcessRows(NewGraph(), e.reg, cfg, e.query, rows);
    Ok(ToJson(g))
  }
}
