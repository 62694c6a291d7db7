/**
 * GraphConfig (newgraph/gconfig.go:50-55) and its two operations: Parse,
 * which appends a record to ResList for every `resource` block of a parsed
 * file, and NewGraphFromConfig, which builds the graph from ResList and
 * the declared edges.  Both are proved against the specifications in
 * Records and GraphBuild.
 */
module GConfig {
  import opened Wrappers
  import opened Bytes
  import opened Ast
  import opened Eval
  import opened Records
  import opened GraphBuild

  /**
   * The body of Parse's loop for one `resource` block (gconfig.go:112-175):
   * it passes with the record Compile specifies, or reports one of the
   * errors Compile allows.
   */
  method CompileBlock(reg: Registry, r: Resource) returns (c: Checked<Res>)
    ensures c.Pass? <==> Compile(reg, r).Pass?
    ensures c.Pass? ==> c == Compile(reg, r)
    ensures c.Fail? ==> |c.possible| == 1 && c.possible <= Compile(reg, r).possible
  {
    if |r.descriptors| < 1 {
      return Fail({KindMissing(r.loc.line, r.loc.column)});
    }
    var kind, name := KindOf(r), NameOf(r);
    if kind !in reg.kinds {
      return Fail({UnknownKind(kind)});
    }
    var bindings := EvaluateBindings(r.bindings);
    if bindings.Failed? {
      var x :| x in bindings.possible;
      return Fail({Unevaluable(x)});
    }
    var params := reg.project(kind, bindings.value);
    if params.None? {
      return Fail({Unprojectable(kind)});
    }
    var meta: Params := map[];
    var i := 0;
    while i < |r.resources|
      invariant i <= |r.resources|
      invariant MetaOf(reg, r.resources[..i]) == Pass(meta)
    {
      var metar := r.resources[i];
      assert r.resources[..i + 1][..i] == r.resources[..i];
      if metar.name == META {
        var v := EvaluateBindings(metar.bindings);
        if v.Failed? {
          var x :| x in v.possible;
          MetaOfSticky(reg, r.resources, i + 1);
          return Fail({Unevaluable(x)});
        }
        var m := reg.overlay(meta, v.value);
        if m.None? {
          MetaOfSticky(reg, r.resources, i + 1);
          return Fail({BadMeta});
        }
        meta := m.value;
      }
      i := i + 1;
    }
    assert r.resources[..i] == r.resources;
    c := Pass(Res(kind, name, params.value, meta));
  }

  class GraphConfig {
    var Graph: Bytes
    var Edges: seq<EdgeDecl>
    var ResList: seq<Res>

    constructor (graph: Bytes, edges: seq<EdgeDecl>)
      ensures Graph == graph && Edges == edges && ResList == []
    {
      Graph, Edges, ResList := graph, edges, [];
    }

    /**
     * Parse (gconfig.go:105-180): the records ParseRun specifies are
     * appended to ResList, and the error returned, if any, is one of those
     * ParseRun allows.
     */
    method Parse(reg: Registry, root: Resource) returns (err: Option<ConfigError>)
      modifies this`ResList
      ensures var run := ParseRun(reg, root.resources);
        && ResList == old(ResList) + run.records
        && (err.None? <==> run.failure.None?)
        && (err.Some? ==> err.value in run.failure.value)
    {
      ghost var start := ResList;
      var i := 0;
      while i < |root.resources|
        invariant i <= |root.resources|
        invariant ParseRun(reg, root.resources[..i]).failure.None?
        invariant ResList == start + ParseRun(reg, root.resources[..i]).records
      {
        var r := root.resources[i];
        assert root.resources[..i + 1][..i] == root.resources[..i];
        if r.name == RESOURCE {
          var c := CompileBlock(reg, r);
          if c.Fail? {
            ParseRunSticky(reg, root.resources, i + 1);
            var x :| x in c.possible;
            return Some(x);
          }
          ResList := ResList + [c.value];
        }
        i := i + 1;
      }
      assert root.resources[..i] == root.resources;
      return None;
    }

    /**
     * The resource loop of NewGraphFromConfig (gconfig.go:201-224): the
     * vertices, lookup and export list BuildAll specifies, and ResList with
     * the `@@` sliced off the exported records' names.
     */
    method BuildVertices(noop: bool) returns (vertices: seq<Res>, lookup: Lookup, exported: seq<Res>)
      modifies this`ResList
      ensures Build(vertices, lookup, exported) == BuildAll(old(ResList), noop)
      ensures RelabelledUpTo(ResList, old(ResList), |old(ResList)|, noop)
    {
      var rs := ResList;
      vertices, lookup, exported := [], map[], [];
      var i := 0;
      while i < |rs|
        invariant RelabelledUpTo(ResList, rs, i, noop)
        invariant BuildAll(rs[..i], noop) == Build(vertices, lookup, exported)
      {
        var res := rs[i];
        ghost var before := Build(vertices, lookup, exported);
        vertices, lookup, exported := Visit(vertices, lookup, exported, res, noop);
        BuildAllNext(rs, i, noop, before, Build(vertices, lookup, exported));
        RelabelledNext(ResList, rs, i, noop);
        Relabel(i, noop);
        i := i + 1;
      }
      assert rs[..i] == rs;
    }

    /** The renaming in the resource loop (gconfig.go:220): `@@` sliced off record i when it is exported. */
    method Relabel(i: nat, noop: bool)
      requires i < |ResList|
      modifies this`ResList
      ensures ResList == old(ResList)[i := Relabelled(old(ResList)[i], noop)]
    {
      var res := ResList[i];
      if IsExported(res) && !noop {
        ResList := ResList[i := Stripped(res)];
      } else {
        assert ResList[i := Relabelled(res, noop)] == ResList;
      }
    }

    /**
     * NewGraphFromConfig (gconfig.go:184-252): the graph NewGraph specifies,
     * the export list BuildAll specifies (what is handed to the World), and
     * ResList with the `@@` sliced off the exported records' names.
     */
    method NewGraphFromConfig(hostname: Bytes, exportOk: seq<Res> -> bool, noop: bool)
      returns (g: Result<GraphBuild.Graph, GraphError>, exported: seq<Res>)
      modifies this`ResList
      ensures exported == BuildAll(old(ResList), noop).exports
      ensures |ResList| == |old(ResList)|
      ensures forall i | 0 <= i < |ResList| :: ResList[i] == Relabelled(old(ResList)[i], noop)
      ensures g == NewGraph(Graph, old(ResList), Edges, noop, exportOk)
    {
      var vertices, lookup;
      vertices, lookup, exported := BuildVertices(noop);
      if !exportOk(exported) {
        return Err(ExportFailed), exported;
      }
      var edges := ResolveEdges(lookup, Edges);
      match edges
      case Err(x) => g := Err(x);
      case Ok(es) => g := Ok(GraphBuild.Graph(Graph, vertices, es));
    }
  }

  /** One round of the resource loop (gconfig.go:202-223), as Step specifies. */
  method Visit(vertices: seq<Res>, lookup: Lookup, exported: seq<Res>, res: Res, noop: bool)
    returns (vertices': seq<Res>, lookup': Lookup, exported': seq<Res>)
    ensures Build(vertices', lookup', exported') == Step(Build(vertices, lookup, exported), res, noop)
  {
    vertices', lookup', exported' := vertices, lookup, exported;
    var kind := res.kind;
    if kind !in lookup' {
      lookup' := lookup'[kind := map[]];
    }
    if !IsExported(res) {
      var v := MatchIndex(vertices', res);
      if v.None? {
        vertices' := vertices' + [res];
        v := Some(|vertices'| - 1);
      }
      lookup' := lookup'[kind := lookup'[kind][res.name := v.value]];
    } else if !noop {
      exported' := exported' + [Stripped(res)];
    }
  }

  /** The edge loop of NewGraphFromConfig (gconfig.go:231-249), as ResolveAll specifies. */
  method ResolveEdges(lookup: Lookup, decls: seq<EdgeDecl>) returns (r: Result<seq<Edge>, GraphError>)
    ensures r == ResolveAll(lookup, decls)
  {
    var edges: seq<Edge> := [];
    var k := 0;
    while k < |decls|
      invariant k <= |decls|
      invariant ResolveAll(lookup, decls[..k]) == Ok(edges)
    {
      var e := decls[k];
      assert decls[..k + 1][..k] == decls[..k];
      var fk, tk := FirstToUpper(e.from.kind), FirstToUpper(e.to.kind);
      var failure: Option<GraphError> := None;
      if fk !in lookup {
        failure := Some(FromKindMissing);
      } else if tk !in lookup {
        failure := Some(ToKindMissing);
      } else if e.from.name !in lookup[fk] {
        failure := Some(FromNameMissing);
      } else if e.to.name !in lookup[tk] {
        failure := Some(ToNameMissing);
      }
      if failure.Some? {
        ResolveAllFirstError(lookup, decls, k + 1);
        return Err(failure.value);
      }
      edges := edges + [Edge(e.name, lookup[fk][e.from.name], lookup[tk][e.to.name], e.notify)];
      k := k + 1;
    }
    assert decls[..k] == decls;
    r := Ok(edges);
  }
}
