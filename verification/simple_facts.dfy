/** What the simple transform makes of the triples of one row. */
module SimpleFacts {
  import opened Wrappers
  import opened Registers
  import opened Scanner
  import opened Graphs
  import opened Simple
  import Edges

  /** The triples resolved from one scanned triple: none, or the one it resolves to. */
  lemma {:induction false} ProcessedSingle(row: Row, t: seq<Term>)
    requires |t| == 3
    ensures GetProcessedTriples(row, [t]) == match ProcessTriple(row, t)
      case Err(e) => Err(e)
      case Ok(None) => Ok([])
      case Ok(Some(tr)) => Ok([tr])
  {
    assert [t][1..] == [];
    assert [t][0] == t;
    assert GetProcessedTriples(row, []) == Ok([]);
    match ProcessTriple(row, t)
    case Err(_) =>
    case Ok(None) =>
    case Ok(Some(tr)) =>
      assert [tr] + [] == [tr];
  }

  /** A missing term makes the resolution throw, and it is the only reason it throws. */
  lemma ProcessTripleError(row: Row, t: seq<Term>)
    requires |t| == 3
    ensures ProcessTriple(row, t).Err? ==> ProcessTriple(row, t) == Err(Crash)
  {
  }

  /** The triples of two resolutions one after the other, or `Crash` when either throws. */
  function Concat(x: Result<seq<Triple>, Error>, y: Result<seq<Triple>, Error>): Result<seq<Triple>, Error> {
    if x.Ok? && y.Ok? then Ok(x.value + y.value) else Err(Crash)
  }

  /**
   * Resolution distributes over concatenation: the triples kept from `a + b` are those kept from
   * `a` followed by those kept from `b`, so survivors stay in scan order.
   */
  lemma {:induction false} ProcessedAppend(row: Row, a: seq<seq<Term>>, b: seq<seq<Term>>)
    requires AllTriples(a) && AllTriples(b)
    ensures AllTriples(a + b)
    ensures GetProcessedTriples(row, a + b) == Concat(GetProcessedTriples(row, a), GetProcessedTriples(row, b))
    decreases |a|
  {
    AllTriplesAppend(a, b);
    if |a| == 0 {
      assert a + b == b;
      ErrIsCrash(row, b);
      if GetProcessedTriples(row, b).Ok? {
        assert [] + GetProcessedTriples(row, b).value == GetProcessedTriples(row, b).value;
      }
    } else {
      assert (a + b)[1..] == a[1..] + b;
      ProcessedAppend(row, a[1..], b);
      AppendStep(row, a, b);
    }
  }

  lemma AllTriplesAppend(a: seq<seq<Term>>, b: seq<seq<Term>>)
    requires AllTriples(a) && AllTriples(b)
    ensures AllTriples(a + b)
  {
    forall k | 0 <= k < |a + b| ensures |(a + b)[k]| == 3 {
      if k >= |a| {
        assert (a + b)[k] == b[k - |a|];
      }
    }
  }

  /** The step of `ProcessedAppend`: from the rest of `a` to all of it. */
  lemma AppendStep(row: Row, a: seq<seq<Term>>, b: seq<seq<Term>>)
    requires |a| > 0 && AllTriples(a) && AllTriples(b) && AllTriples(a + b)
    requires GetProcessedTriples(row, a[1..] + b) == Concat(GetProcessedTriples(row, a[1..]), GetProcessedTriples(row, b))
    ensures GetProcessedTriples(row, a + b) == Concat(GetProcessedTriples(row, a), GetProcessedTriples(row, b))
  {
    assert (a + b)[0] == a[0];
    assert (a + b)[1..] == a[1..] + b;
    GetUnfold(row, a);
    GetUnfold(row, a + b);
    ProcessTripleError(row, a[0]);
    ErrIsCrash(row, a[1..]);
    ConsConcat(ProcessTriple(row, a[0]), GetProcessedTriples(row, a[1..]), GetProcessedTriples(row, b));
  }

  /** One resolved triple in front of the rest, as `getProcessedTriples` puts it. */
  function Cons(first: Result<Option<Triple>, Error>, rest: Result<seq<Triple>, Error>): Result<seq<Triple>, Error> {
    match first
    case Err(e) => Err(e)
    case Ok(f) =>
      match rest
      case Err(e) => Err(e)
      case Ok(r) => Ok(if f.Some? then [f.value] + r else r)
  }

  lemma GetUnfold(row: Row, ts: seq<seq<Term>>)
    requires |ts| > 0 && AllTriples(ts)
    ensures GetProcessedTriples(row, ts) == Cons(ProcessTriple(row, ts[0]), GetProcessedTriples(row, ts[1..]))
  {
  }

  lemma ConsConcat(first: Result<Option<Triple>, Error>, rest: Result<seq<Triple>, Error>, rb: Result<seq<Triple>, Error>)
    requires first.Err? ==> first == Err(Crash)
    requires rest.Err? ==> rest == Err(Crash)
    ensures Cons(first, Concat(rest, rb)) == Concat(Cons(first, rest), rb)
  {
    if first.Ok? && first.value.Some? && rest.Ok? && rb.Ok? {
      assert [first.value.value] + (rest.value + rb.value) == ([first.value.value] + rest.value) + rb.value;
    }
  }

  /** Resolution only ever throws `Crash`. */
  lemma {:induction false} ErrIsCrash(row: Row, ts: seq<seq<Term>>)
    requires AllTriples(ts)
    ensures GetProcessedTriples(row, ts).Err? ==> GetProcessedTriples(row, ts) == Err(Crash)
    decreases |ts|
  {
    if |ts| > 0 {
      ProcessTripleError(row, ts[0]);
      ErrIsCrash(row, ts[1..]);
    }
  }

  /**
   * One end of a relationship: when it succeeds the node is stored, every node already stored is
   * untouched, and a new node is the group's with `id` and `group`, added at the end of the order.
   */
  lemma EndpointNodes(g: Graph, cfg: Config, p: Part)
    requires p.variable in cfg.nodes
    ensures var r := AddEndpoint(g, cfg, p);
            r.Ok? ==>
              && p.value in r.value.nodes
              && (forall k :: k in g.nodes ==> k in r.value.nodes && r.value.nodes[k] == g.nodes[k])
              && (forall k :: k in r.value.nodes && k !in g.nodes ==> k == p.value)
              && (p.value !in g.nodes ==>
                    var group := cfg.nodes[p.variable].group;
                    group in cfg.groups && r.value.nodes[p.value] == GroupNode(cfg.groups[group], p.value, group))
              && |r.value.order| <= |g.order| + 1 && g.order <= r.value.order
              && r.value.edges == g.edges
  {
  }

  /**
   * A relationship stores both end nodes, leaves every node it finds untouched, creates a missing
   * one from its group with `id` and `group` set, and then adds the edge `subject-object`.
   */
  lemma RelationshipNodes(g: Graph, cfg: Config, ec: EdgeConfig, t: Triple)
    requires t.subj.variable in cfg.nodes && t.obj.variable in cfg.nodes
    ensures var r := Relationship(g, cfg, ec, t);
            r.Ok? ==>
              && t.subj.value in r.value.nodes && t.obj.value in r.value.nodes
              && (forall k :: k in g.nodes ==> k in r.value.nodes && r.value.nodes[k] == g.nodes[k])
              && (forall k :: k in r.value.nodes && k !in g.nodes ==> k == t.subj.value || k == t.obj.value)
              && (forall k :: k in r.value.nodes && k !in g.nodes ==>
                    var v := if k == t.subj.value then t.subj.variable else t.obj.variable;
                    var group := cfg.nodes[v].group;
                    group in cfg.groups && r.value.nodes[k] == GroupNode(cfg.groups[group], k, group))
              && |r.value.order| <= |g.order| + 2 && g.order <= r.value.order
              && r.value.edges == Edges.AddEdge(g.edges, RelationshipEdge(ec, t))
  {
    var r := Relationship(g, cfg, ec, t);
    if r.Ok? {
      EndpointNodes(g, cfg, t.subj);
      var g1 := AddEndpoint(g, cfg, t.subj).value;
      EndpointNodes(g1, cfg, t.obj);
      var g2 := AddEndpoint(g1, cfg, t.obj).value;
      assert r.value == AddEdge(g2, RelationshipEdge(ec, t));
    }
  }

  /** A relationship throws exactly when a node it has to create belongs to an unconfigured group. */
  lemma RelationshipFails(g: Graph, cfg: Config, ec: EdgeConfig, t: Triple)
    requires t.subj.variable in cfg.nodes && t.obj.variable in cfg.nodes
    ensures Relationship(g, cfg, ec, t).Err? <==>
              || (t.subj.value !in g.nodes && cfg.nodes[t.subj.variable].group !in cfg.groups)
              || (t.obj.value !in g.nodes && t.obj.value != t.subj.value &&
                  cfg.nodes[t.obj.variable].group !in cfg.groups)
              || (t.obj.value !in g.nodes && t.obj.value == t.subj.value &&
                  cfg.nodes[t.subj.variable].group !in cfg.groups)
  {
  }

  /**
   * With the manager's default strategy (bidirectional, counted) the edge of a relationship is
   * stored under `subject-object`, carries `from` and `to`, and counts how often that id was added.
   */
  lemma RelationshipEdgeStored(m: Edges.Manager, ec: EdgeConfig, t: Triple)
    requires m.bundling == Edges.NewManager(None).bundling
    ensures var id := t.subj.value + "-" + t.obj.value;
            var m' := Edges.AddEdge(m, RelationshipEdge(ec, t));
            && id in m'.edges
            && m'.edges[id].attrs["from"] == t.subj.value && m'.edges[id].attrs["to"] == t.obj.value
            && m'.edges[id].count == Some(Edges.CounterOf(m, id) + 1)
  {
    var id := t.subj.value + "-" + t.obj.value;
    assert Edges.StrategyOfManager(m) == Edges.Bidirectional;
    assert Edges.NextId(m, id).1 == id;
  }

  /** Where a property triple stores the object value on the subject's node. */
  lemma PropertyStores(g: Graph, reg: Register, cfg: Config, t: Triple)
    requires Registers.Valid(reg)
    ensures var r := Property(g, reg, cfg, t);
            r.Ok? ==>
              var n := r.value.nodes[t.subj.value];
              match FirstRule(reg, t, RulesOf(cfg, t)).value
              case Some(j) => n.fields[RulesOf(cfg, t)[j].name] == t.obj.value
              case None => n.properties.Some? && n.properties.value[t.pred.value] == t.obj.value
  {
  }

  /**
   * Later writes overwrite: of two property triples of the same subject and predicate, the second
   * one that no rule claims leaves its object value in `properties`. It throws exactly when the
   * first left a non-empty text in the slot, which cannot happen when no rule claimed the first.
   */
  lemma LaterPropertyWins(g: Graph, reg: Register, cfg: Config, t1: Triple, t2: Triple)
    requires Registers.Valid(reg)
    requires t1.subj.value == t2.subj.value && t1.pred.value == t2.pred.value
    requires FirstRule(reg, t2, RulesOf(cfg, t2)) == Ok(None)
    ensures var r1 := Property(g, reg, cfg, t1);
            r1.Ok? ==>
              var r2 := Property(r1.value, reg, cfg, t2);
              && (r2.Ok? <==> !SlotHoldsText(r1.value.nodes[t2.subj.value]))
              && (FirstRule(reg, t1, RulesOf(cfg, t1)) == Ok(None) ==> r2.Ok?)
              && (r2.Ok? ==>
                    && r2.value.nodes[t2.subj.value].properties.Some?
                    && r2.value.nodes[t2.subj.value].properties.value[t2.pred.value] == t2.obj.value)
  {
  }

  /** A property triple only ever touches the node of its subject. */
  lemma PropertyTouchesSubject(g: Graph, reg: Register, cfg: Config, t: Triple, k: string)
    requires Registers.Valid(reg) && k != t.subj.value
    ensures var r := Property(g, reg, cfg, t);
            r.Ok? ==> (k in r.value.nodes <==> k in g.nodes) && (k in g.nodes ==> r.value.nodes[k] == g.nodes[k])
  {
  }

  /** What the graph holds of one row stays there as the graph grows. */
  lemma RowInGrows(g: Graph, g': Graph, reg: Register, cfg: Config, query: seq<seq<Term>>, row: Row)
    requires Registers.Valid(reg) && AllTriples(query) && Grows(g, g') && RowIn(g, reg, cfg, query, row)
    ensures RowIn(g', reg, cfg, query, row)
  {
    var ts := GetProcessedTriples(row, query).value;
    forall k | 0 <= k < |ts| ensures RelationshipIn(g', reg, cfg, ts[k]) {
      RelationshipInGrows(g, g', reg, cfg, ts[k]);
    }
  }

  /**
   * After all rows, every triple any row resolves to a relationship is in the graph: both of
   * its end values are node keys and, under the bidirectional strategy, `subject-object` is an
   * edge id.
   */
  lemma {:induction false} ProcessRowsRelationships(g: Graph, reg: Register, cfg: Config, query: seq<seq<Term>>, rows: seq<Row>)
    requires Registers.Valid(reg) && AllTriples(query)
    ensures var r := ProcessRows(g, reg, cfg, query, rows);
            r.Ok? ==> forall i :: 0 <= i < |rows| ==> RowIn(r.value, reg, cfg, query, rows[i])
    decreases |rows|
  {
    var r := ProcessRows(g, reg, cfg, query, rows);
    if |rows| > 0 && r.Ok? {
      var g1 := GetItems(g, reg, cfg, query, rows[0]).value;
      assert r == ProcessRows(g1, reg, cfg, query, rows[1..]);
      ProcessRowsRelationships(g1, reg, cfg, query, rows[1..]);
      RowInGrows(g1, r.value, reg, cfg, query, rows[0]);
      forall i | 0 < i < |rows| ensures RowIn(r.value, reg, cfg, query, rows[i]) {
        assert rows[i] == rows[1..][i - 1];
      }
    }
  }

  /**
   * The returned JSON: for each triple of a row that resolves to a relationship, an edge with id
   * `subject-object` is in the returned edges, since `transform` starts from the bidirectional
   * default.
   */
  lemma TransformRelationships(e: Engine, cfg: Config, rows: seq<Row>, i: nat, k: nat)
    requires Registers.Valid(e.reg) && AllTriples(e.query) && i < |rows|
    ensures var r := Transform(e, cfg, rows);
            r.Ok? ==>
              && GetProcessedTriples(rows[i], e.query).Ok?
              && (k < |GetProcessedTriples(rows[i], e.query).value| ==>
                    var t := GetProcessedTriples(rows[i], e.query).value[k];
                    FindRelationship(e.reg, cfg, t).Some? ==>
                      exists j :: 0 <= j < |r.value.edges| && r.value.edges[j].id == t.subj.value + "-" + t.obj.value)
  {
    var r := Transform(e, cfg, rows);
    if r.Ok? {
      var g := ProcessRows(NewGraph(), e.reg, cfg, e.query, rows).value;
      ProcessRowsRelationships(NewGraph(), e.reg, cfg, e.query, rows);
      assert RowIn(g, e.reg, cfg, e.query, rows[i]);
      var ts := GetProcessedTriples(rows[i], e.query).value;
      if k < |ts| && FindRelationship(e.reg, cfg, ts[k]).Some? {
        var t := ts[k];
        var id := t.subj.value + "-" + t.obj.value;
        assert RelationshipIn(g, e.reg, cfg, t);
        assert Edges.StrategyOfManager(g.edges) == Edges.Bidirectional;
        var x := g.edges.edges[id];
        assert x in r.value.edges;
        var j :| 0 <= j < |r.value.edges| && r.value.edges[j] == x;
      }
    }
  }
}
