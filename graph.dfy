/**
 * The specification of GraphConfig.NewGraphFromConfig
 * (newgraph/gconfig.go:184-252): a fresh graph is built from the resource
 * records, resources whose name starts with `@@` are exported instead of
 * becoming vertices, and the declared edges are resolved through a
 * kind -> name -> vertex lookup.
 *
 * The graph is sequences of vertices and edges; a vertex is its index in
 * the vertex sequence.  Vertex matching (pgraph's GetVertexMatch) is
 * equality of records.  The export to the World is a parameter: a
 * predicate saying whether the export of a given list succeeds.
 */
module GraphBuild {
  import opened Wrappers
  import opened Bytes
  import opened Records

  /** A `kind`/`name` pair as an edge declaration names it (gconfig.go:37-40). */
  datatype VertexRef = VertexRef(kind: Bytes, name: Bytes)

  /** A declared edge (gconfig.go:43-48). */
  datatype EdgeDecl = EdgeDecl(name: Bytes, from: VertexRef, to: VertexRef, notify: bool)

  /** A graph edge between two vertex indices. */
  datatype Edge = Edge(name: Bytes, from: nat, to: nat, notify: bool)

  datatype Graph = Graph(name: Bytes, vertices: seq<Res>, edges: seq<Edge>)

  datatype GraphError =
    | ExportFailed
    | FromKindMissing
    | ToKindMissing
    | FromNameMissing
    | ToNameMissing

  /** kind -> name -> vertex index (gconfig.go:190). */
  type Lookup = map<Bytes, map<Bytes, nat>>

  const EXPORT_PREFIX: Bytes := Ascii("@@")

  /** The name starts with `@@` (gconfig.go:208). */
  predicate IsExported(r: Res): (x: bool)
    ensures x <==> EXPORT_PREFIX <= r.name
  {
    |r.name| >= 2 && r.name[..2] == EXPORT_PREFIX
  }

  /** The record with `@@` sliced off its name (gconfig.go:220). */
  function Stripped(r: Res): (s: Res)
    requires IsExported(r)
    ensures EXPORT_PREFIX + s.name == r.name
    ensures s.kind == r.kind && s.params == r.params && s.meta == r.meta
  {
    r.(name := r.name[2..])
  }

  /** GetVertexMatch: the index of a vertex equal to r, if any. */
  function MatchIndex(vs: seq<Res>, r: Res): (i: Option<nat>)
    ensures i.Some? ==> i.value < |vs| && vs[i.value] == r
    ensures i.None? <==> r !in vs
  {
    if vs == [] then None
    else if vs[|vs| - 1] == r then Some(|vs| - 1)
    else MatchIndex(vs[..|vs| - 1], r)
  }

  /** The state of the resource loop: vertices, lookup and the export list. */
  datatype Build = Build(vertices: seq<Res>, lookup: Lookup, exports: seq<Res>)

  /** One round of the resource loop (gconfig.go:202-223). */
  function Step(b: Build, r: Res, noop: bool): (b': Build)
    ensures |b.vertices| <= |b'.vertices| <= |b.vertices| + 1
    ensures |b.exports| <= |b'.exports| <= |b.exports| + 1
    ensures b.lookup.Keys + {r.kind} == b'.lookup.Keys
    ensures !IsExported(r) ==> r in b'.vertices && b'.exports == b.exports
    ensures IsExported(r) ==> b'.vertices == b.vertices && (noop <==> b'.exports == b.exports)
  {
    var lookup := if r.kind in b.lookup then b.lookup else b.lookup[r.kind := map[]];
    if !IsExported(r) then
      var vertices := if r in b.vertices then b.vertices else b.vertices + [r];
      var v := MatchIndex(vertices, r).value;
      Build(vertices, lookup[r.kind := lookup[r.kind][r.name := v]], b.exports)
    else if !noop then
      Build(b.vertices, lookup, b.exports + [Stripped(r)])
    else
      Build(b.vertices, lookup, b.exports)
  }

  /** The resource loop over rs, from an empty graph (gconfig.go:188-224). */
  function BuildAll(rs: seq<Res>, noop: bool): (b: Build)
    ensures |b.vertices| + |b.exports| <= |rs|
    ensures noop ==> b.exports == []
    decreases |rs|
  {
    if rs == [] then Build([], map[], [])
    else Step(BuildAll(rs[..|rs| - 1], noop), rs[|rs| - 1], noop)
  }

  /**
   * A record after the loop: the loop renames exported records in place,
   * and the records are shared with ResList (gconfig.go:220).
   */
  function Relabelled(r: Res, noop: bool): Res {
    if IsExported(r) && !noop then Stripped(r) else r
  }

  /** xs is rs with its first i records Relabelled and the rest as they were. */
  ghost predicate RelabelledUpTo(xs: seq<Res>, rs: seq<Res>, i: nat, noop: bool) {
    && i <= |rs| == |xs|
    && forall j | 0 <= j < |rs| :: xs[j] == if j < i then Relabelled(rs[j], noop) else rs[j]
  }

  /** Relabelling record i in place extends RelabelledUpTo by one record. */
  lemma RelabelledNext(xs: seq<Res>, rs: seq<Res>, i: nat, noop: bool)
    requires RelabelledUpTo(xs, rs, i, noop) && i < |rs|
    ensures RelabelledUpTo(xs[i := Relabelled(rs[i], noop)], rs, i + 1, noop)
  {
  }

  /** util.FirstToUpper: the first byte upper-cased when it is an ASCII letter. */
  function FirstToUpper(s: Bytes): (u: Bytes)
    ensures |u| == |s| && (s == [] || u[1..] == s[1..])
    ensures |u| > 0 ==> !('a' as byte <= u[0] <= 'z' as byte)
  {
    if s == [] then []
    else if 'a' as byte <= s[0] <= 'z' as byte then [s[0] - 32] + s[1..]
    else s
  }

  /** The resource loop over one more record is one more Step. */
  lemma BuildAllNext(rs: seq<Res>, i: nat, noop: bool, b: Build, b': Build)
    requires i < |rs| && b == BuildAll(rs[..i], noop) && b' == Step(b, rs[i], noop)
    ensures b' == BuildAll(rs[..i + 1], noop)
  {
    assert rs[..i + 1][..i] == rs[..i];
  }

  /** One edge (gconfig.go:232-248): the four lookups in order, then the edge. */
  function Resolve(lookup: Lookup, e: EdgeDecl): (r: Result<Edge, GraphError>)
    ensures r.Ok? ==> r.value.name == e.name && r.value.notify == e.notify
    ensures r.Err? ==> r.error != ExportFailed
  {
    var fk, tk := FirstToUpper(e.from.kind), FirstToUpper(e.to.kind);
    if fk !in lookup then Err(FromKindMissing)
    else if tk !in lookup then Err(ToKindMissing)
    else if e.from.name !in lookup[fk] then Err(FromNameMissing)
    else if e.to.name !in lookup[tk] then Err(ToNameMissing)
    else Ok(Edge(e.name, lookup[fk][e.from.name], lookup[tk][e.to.name], e.notify))
  }

  /** The edge loop (gconfig.go:231-249): the first edge that does not resolve ends it. */
  function ResolveAll(lookup: Lookup, es: seq<EdgeDecl>): (r: Result<seq<Edge>, GraphError>)
    ensures r.Ok? ==> |r.value| == |es|
    ensures r.Err? ==> r.error != ExportFailed
    decreases |es|
  {
    if es == [] then Ok([])
    else match ResolveAll(lookup, es[..|es| - 1])
      case Err(x) => Err(x)
      case Ok(done) =>
        match Resolve(lookup, es[|es| - 1])
        case Err(x) => Err(x)
        case Ok(edge) => Ok(done + [edge])
  }

  /** NewGraphFromConfig's result: no graph when the export or an edge fails (gconfig.go:227-251). */
  function NewGraph(name: Bytes, rs: seq<Res>, es: seq<EdgeDecl>, noop: bool, exportOk: seq<Res> -> bool)
    : (r: Result<Graph, GraphError>)
    ensures !exportOk(BuildAll(rs, noop).exports) <==> r == Err(ExportFailed)
    ensures r.Ok? ==> r.value.name == name && |r.value.vertices| <= |rs| && |r.value.edges| == |es|
  {
    var b := BuildAll(rs, noop);
    if !exportOk(b.exports) then Err(ExportFailed)
    else match ResolveAll(b.lookup, es)
      case Err(x) => Err(x)
      case Ok(edges) => Ok(Graph(name, b.vertices, edges))
  }

  /** The records exported from rs, `@@` sliced off, in order: a reference definition. */
  function ExportsOf(rs: seq<Res>): seq<Res>
    decreases |rs|
  {
    if rs == [] then []
    else
      var last := rs[|rs| - 1];
      ExportsOf(rs[..|rs| - 1]) + (if IsExported(last) then [Stripped(last)] else [])
  }

  /** The lookup is sound: every entry names a vertex of that kind and name. */
  ghost predicate LookupSound(b: Build) {
    forall k, nm | k in b.lookup && nm in b.lookup[k] ::
      && b.lookup[k][nm] < |b.vertices|
      && b.vertices[b.lookup[k][nm]].kind == k
      && b.vertices[b.lookup[k][nm]].name == nm
  }

  /**
   * The vertices are exactly the records without `@@`, each once: a
   * record equal to one met earlier reuses that vertex.
   */
  lemma {:induction false} VerticesAreLocal(rs: seq<Res>, noop: bool)
    ensures var vs := BuildAll(rs, noop).vertices;
      && (forall r :: r in vs <==> r in rs && !IsExported(r))
      && (forall i, j | 0 <= i < j < |vs| :: vs[i] != vs[j])
    decreases |rs|
  {
    if rs != [] {
      var front, last := rs[..|rs| - 1], rs[|rs| - 1];
      VerticesAreLocal(front, noop);
      assert forall r :: r in rs <==> r in front || r == last;
      var vs, vs' := BuildAll(front, noop).vertices, BuildAll(rs, noop).vertices;
      StepVertices(BuildAll(front, noop), last, noop);
      if vs' != vs {
        DistinctSnoc(vs, last);
      }
    }
  }

  /** One round appends the record to the vertices when it is local and new, and only then. */
  lemma StepVertices(b: Build, r: Res, noop: bool)
    ensures Step(b, r, noop).vertices == if IsExported(r) || r in b.vertices then b.vertices else b.vertices + [r]
  {
  }

  /** Appending a value not yet in a sequence of distinct values keeps them distinct. */
  lemma DistinctSnoc(vs: seq<Res>, r: Res)
    requires forall i, j | 0 <= i < j < |vs| :: vs[i] != vs[j]
    requires r !in vs
    ensures var vs' := vs + [r]; forall i, j | 0 <= i < j < |vs'| :: vs'[i] != vs'[j]
  {
  }

  /** One round keeps every entry's vertex and adds the round's kind (and local name). */
  lemma StepLookup(b: Build, r: Res, noop: bool)
    requires LookupSound(b)
    ensures var b' := Step(b, r, noop);
      && b'.lookup.Keys == b.lookup.Keys + {r.kind}
      && b.vertices <= b'.vertices
      && (forall k, nm | k in b.lookup && nm in b.lookup[k] :: nm in b'.lookup[k])
      && (!IsExported(r) ==> r.name in b'.lookup[r.kind])
      && LookupSound(b')
  {
  }

  /** The lookup has a table for every kind met, exported or not. */
  lemma {:induction false} LookupKinds(rs: seq<Res>, noop: bool)
    ensures BuildAll(rs, noop).lookup.Keys == (set r | r in rs :: r.kind)
    decreases |rs|
  {
    if rs != [] {
      var front, last := rs[..|rs| - 1], rs[|rs| - 1];
      LookupKinds(front, noop);
      assert forall r :: r in rs <==> r in front || r == last;
      assert (set r | r in rs :: r.kind) == (set r | r in front :: r.kind) + {last.kind};
    }
  }

  /** Every lookup entry names a vertex of that kind and name. */
  lemma {:induction false} LookupIsSound(rs: seq<Res>, noop: bool)
    ensures LookupSound(BuildAll(rs, noop))
    decreases |rs|
  {
    if rs != [] {
      LookupIsSound(rs[..|rs| - 1], noop);
      StepLookup(BuildAll(rs[..|rs| - 1], noop), rs[|rs| - 1], noop);
    }
  }

  /** The lookup has an entry for the name of every record without `@@`. */
  lemma {:induction false} LookupCovers(rs: seq<Res>, noop: bool)
    ensures var b := BuildAll(rs, noop);
      forall r | r in rs && !IsExported(r) :: r.kind in b.lookup && r.name in b.lookup[r.kind]
    decreases |rs|
  {
    if rs != [] {
      var front, last := rs[..|rs| - 1], rs[|rs| - 1];
      LookupCovers(front, noop);
      LookupIsSound(front, noop);
      var b, b' := BuildAll(front, noop), BuildAll(rs, noop);
      StepLookup(b, last, noop);
      forall r | r in rs && !IsExported(r)
        ensures r.kind in b'.lookup && r.name in b'.lookup[r.kind]
      {
        if r != last {
          assert r in front;
        }
      }
    }
  }

  /** The export list: empty under noop, otherwise the `@@` records with the prefix sliced off. */
  lemma {:induction false} ExportsAreStripped(rs: seq<Res>, noop: bool)
    ensures BuildAll(rs, noop).exports == if noop then [] else ExportsOf(rs)
    decreases |rs|
  {
    if rs != [] {
      ExportsAreStripped(rs[..|rs| - 1], noop);
    }
  }

  /** The edge loop succeeds exactly when every edge resolves. */
  lemma {:induction false} ResolveAllOk(lookup: Lookup, es: seq<EdgeDecl>)
    ensures ResolveAll(lookup, es).Ok? <==> forall i | 0 <= i < |es| :: Resolve(lookup, es[i]).Ok?
    decreases |es|
  {
    if ResolveAll(lookup, es).Ok? {
      forall i | 0 <= i < |es|
        ensures Resolve(lookup, es[i]).Ok?
      {
        ResolveAllEdgeAt(lookup, es, i);
      }
    } else if es != [] {
      var front, last := es[..|es| - 1], es[|es| - 1];
      ResolveAllOk(lookup, front);
      if ResolveAll(lookup, front).Err? {
        var i :| 0 <= i < |front| && !Resolve(lookup, front[i]).Ok?;
        assert es[i] == front[i];
      } else {
        assert !Resolve(lookup, es[|es| - 1]).Ok?;
      }
    }
  }

  /**
   * When the edge loop succeeds it gives one edge per declaration, in
   * order, each the resolution of its declaration.
   */
  lemma {:induction false} ResolveAllEdges(lookup: Lookup, es: seq<EdgeDecl>)
    requires ResolveAll(lookup, es).Ok?
    ensures var edges := ResolveAll(lookup, es).value;
      && |edges| == |es|
      && forall i | 0 <= i < |es| :: Resolve(lookup, es[i]) == Ok(edges[i])
  {
    forall i | 0 <= i < |es|
      ensures Resolve(lookup, es[i]) == Ok(ResolveAll(lookup, es).value[i])
    {
      ResolveAllEdgeAt(lookup, es, i);
    }
  }

  /** Edge i of a successful edge loop is the resolution of declaration i. */
  lemma {:induction false} ResolveAllEdgeAt(lookup: Lookup, es: seq<EdgeDecl>, i: nat)
    requires ResolveAll(lookup, es).Ok? && i < |es|
    ensures i < |ResolveAll(lookup, es).value|
    ensures Resolve(lookup, es[i]) == Ok(ResolveAll(lookup, es).value[i])
    decreases |es|
  {
    var front := es[..|es| - 1];
    ResolveAllLast(lookup, es);
    if i < |front| {
      ResolveAllEdgeAt(lookup, front, i);
      assert es[i] == front[i];
    }
  }

  /** A successful edge loop is a successful loop over all but the last edge, then that edge. */
  lemma ResolveAllLast(lookup: Lookup, es: seq<EdgeDecl>)
    requires es != [] && ResolveAll(lookup, es).Ok?
    ensures var front, last := es[..|es| - 1], es[|es| - 1];
      && ResolveAll(lookup, front).Ok? && Resolve(lookup, last).Ok?
      && ResolveAll(lookup, es).value == ResolveAll(lookup, front).value + [Resolve(lookup, last).value]
  {
  }

  /**
   * In a graph NewGraph returns, the i-th edge joins a vertex of kind
   * FirstToUpper(from.kind) and name from.name to one of kind
   * FirstToUpper(to.kind) and name to.name, as declared.
   */
  lemma EdgesJoinDeclared(name: Bytes, rs: seq<Res>, es: seq<EdgeDecl>, noop: bool,
                          exportOk: seq<Res> -> bool, i: nat)
    requires NewGraph(name, rs, es, noop, exportOk).Ok? && i < |es|
    ensures var g := NewGraph(name, rs, es, noop, exportOk).value;
      && |g.edges| == |es|
      && g.edges[i].name == es[i].name && g.edges[i].notify == es[i].notify
      && g.edges[i].from < |g.vertices| && g.edges[i].to < |g.vertices|
      && g.vertices[g.edges[i].from].kind == FirstToUpper(es[i].from.kind)
      && g.vertices[g.edges[i].from].name == es[i].from.name
      && g.vertices[g.edges[i].to].kind == FirstToUpper(es[i].to.kind)
      && g.vertices[g.edges[i].to].name == es[i].to.name
  {
    var b := BuildAll(rs, noop);
    ResolveAllEdges(b.lookup, es);
    LookupIsSound(rs, noop);
  }

  /**
   * Edge kinds are looked up capitalised but the lookup is keyed by the
   * kinds as the records carry them: when every kind starts with a
   * lower-case letter, no edge can resolve, and a graph with any declared
   * edge is never returned.
   */
  lemma LowerCaseKindsHaveNoEdges(name: Bytes, rs: seq<Res>, es: seq<EdgeDecl>, noop: bool,
                                  exportOk: seq<Res> -> bool)
    requires forall r | r in rs :: |r.kind| > 0 && 'a' as byte <= r.kind[0] <= 'z' as byte
    requires es != [] && exportOk(BuildAll(rs, noop).exports)
    ensures NewGraph(name, rs, es, noop, exportOk) == Err(FromKindMissing)
  {
    var b := BuildAll(rs, noop);
    LookupKinds(rs, noop);
    var fk := FirstToUpper(es[0].from.kind);
    assert fk !in b.lookup;
    assert es[..1][..0] == [];
    assert ResolveAll(b.lookup, es[..1]) == Err(FromKindMissing);
    ResolveAllFirstError(b.lookup, es, 1);
  }

  /** An error in the first k edges is the loop's error. */
  lemma {:induction false} ResolveAllFirstError(lookup: Lookup, es: seq<EdgeDecl>, k: nat)
    requires k <= |es| && ResolveAll(lookup, es[..k]).Err?
    ensures ResolveAll(lookup, es) == ResolveAll(lookup, es[..k])
    decreases |es| - k
  {
    if k < |es| {
      assert es[..k + 1][..k] == es[..k];
      ResolveAllFirstError(lookup, es, k + 1);
    } else {
      assert es[..k] == es;
    }
  }
}
