/**
 * The specification of GraphConfig.Parse (newgraph/gconfig.go:105-180):
 * how the top-level `resource` blocks of a parsed file become resource
 * records.
 *
 * A record is the block's kind and name, the parameters its bindings
 * project onto, and the meta parameters its nested `meta` blocks project
 * onto.  The registry of resource kinds and the YAML projection of
 * evaluated bindings onto a resource or onto the meta parameters are
 * foreign code; they are parameters here (`Registry`).
 */
module Records {
  import opened Wrappers
  import opened Bytes
  import opened Ast
  import opened Eval

  type Params = map<Bytes, Value>

  /** A resource record: kind, name, parameters and meta parameters. */
  datatype Res = Res(kind: Bytes, name: Bytes, params: Params, meta: Params)

  /**
   * What the Go code takes from other packages: the kinds
   * resources.NewEmptyNamedResource accepts, the YAML round trip of
   * evaluated bindings onto a fresh resource of a kind, and the YAML round
   * trip of evaluated bindings onto meta parameters that already hold
   * values (gconfig.go:124, 137-145, 161-169).  None means the round trip
   * failed.
   */
  datatype Registry = Registry(
    kinds: set<Bytes>,
    project: (Bytes, map<Bytes, Value>) -> Option<Params>,
    overlay: (Params, map<Bytes, Value>) -> Option<Params>)

  datatype ConfigError =
    | KindMissing(line: nat, column: nat)
    | UnknownKind(kind: Bytes)
    | Unevaluable(cause: EvalError)
    | Unprojectable(kind: Bytes)
    | BadMeta

  /** A result, or the set of errors that may be reported instead. */
  datatype Checked<T> = Pass(value: T) | Fail(possible: set<ConfigError>)

  const RESOURCE: Bytes := Ascii("resource")
  const META: Bytes := Ascii("meta")

  /** The kind: the text of the first descriptor (gconfig.go:117). */
  function KindOf(r: Resource): (kind: Bytes)
    requires |r.descriptors| >= 1
    ensures r.descriptors[0].String? ==> kind == r.descriptors[0].value
    ensures r.descriptors[0].Variable? ==> kind == r.descriptors[0].name
  {
    Text(r.descriptors[0])
  }

  /** The name: the text of the second descriptor, or empty (gconfig.go:120-122). */
  function NameOf(r: Resource): (name: Bytes)
    ensures |r.descriptors| < 2 ==> name == []
    ensures |r.descriptors| >= 2 && r.descriptors[1].String? ==> name == r.descriptors[1].value
    ensures |r.descriptors| >= 2 && r.descriptors[1].Variable? ==> name == r.descriptors[1].name
  {
    if |r.descriptors| >= 2 then Text(r.descriptors[1]) else []
  }

  function Lift(p: set<EvalError>): (q: set<ConfigError>)
    ensures p != {} ==> q != {}
  {
    var q := set y | y in p :: Unevaluable(y);
    if p == {} then q
    else
      var x :| x in p;
      assert Unevaluable(x) in q;
      q
  }

  /**
   * The meta loop (gconfig.go:147-170): the nested blocks named `meta`, in
   * order, each overlaid onto the meta parameters gathered so far,
   * starting from none.  Any failure aborts.
   */
  function MetaOf(reg: Registry, blocks: seq<Resource>): (r: Checked<Params>)
    ensures r.Fail? ==> r.possible != {}
    decreases |blocks|
  {
    if blocks == [] then Pass(map[])
    else
      var last := blocks[|blocks| - 1];
      match MetaOf(reg, blocks[..|blocks| - 1])
      case Fail(p) => Fail(p)
      case Pass(meta) =>
        if last.name != META then Pass(meta)
        else match EvalBindings(last.bindings)
          case Failed(p) =>
            FailsAtSites(Object(NoLocation, last.bindings));
            Fail(Lift(p))
          case Done(v) =>
            match reg.overlay(meta, v)
            case None => Fail({BadMeta})
            case Some(m) => Pass(m)
  }

  /** Once a meta block has failed, the blocks after it change nothing. */
  lemma {:induction false} MetaOfSticky(reg: Registry, blocks: seq<Resource>, i: nat)
    requires i <= |blocks| && MetaOf(reg, blocks[..i]).Fail?
    ensures MetaOf(reg, blocks) == MetaOf(reg, blocks[..i])
    decreases |blocks| - i
  {
    if i < |blocks| {
      assert blocks[..i + 1][..i] == blocks[..i];
      MetaOfSticky(reg, blocks, i + 1);
    } else {
      assert blocks[..i] == blocks;
    }
  }

  /**
   * One `resource` block (gconfig.go:112-177).  The checks come in the
   * source's order: a kind descriptor, a known kind, bindings that
   * evaluate, bindings that project, then the meta blocks.  The record's
   * name and kind are set from the descriptors after the projection.
   */
  function Compile(reg: Registry, r: Resource): (c: Checked<Res>)
    ensures c.Fail? ==> c.possible != {}
    ensures |r.descriptors| == 0 ==> c == Fail({KindMissing(r.loc.line, r.loc.column)})
    ensures c.Pass? ==>
      && |r.descriptors| >= 1 && c.value.kind == Text(r.descriptors[0]) && c.value.kind in reg.kinds
      && c.value.name == (if |r.descriptors| >= 2 then Text(r.descriptors[1]) else [])
      && EvalBindings(r.bindings).Done?
      && reg.project(c.value.kind, EvalBindings(r.bindings).value) == Some(c.value.params)
      && MetaOf(reg, r.resources) == Pass(c.value.meta)
  {
    if |r.descriptors| < 1 then Fail({KindMissing(r.loc.line, r.loc.column)})
    else if KindOf(r) !in reg.kinds then Fail({UnknownKind(KindOf(r))})
    else match EvalBindings(r.bindings)
      case Failed(p) =>
        FailsAtSites(Object(NoLocation, r.bindings));
        Fail(Lift(p))
      case Done(b) =>
        match reg.project(KindOf(r), b)
        case None => Fail({Unprojectable(KindOf(r))})
        case Some(params) =>
          match MetaOf(reg, r.resources)
          case Fail(p) => Fail(p)
          case Pass(meta) => Pass(Res(KindOf(r), NameOf(r), params, meta))
  }

  /** What Parse leaves behind: the records it appended, and the errors it may return. */
  datatype Run = Run(records: seq<Res>, failure: Option<set<ConfigError>>)

  /**
   * The loop of Parse over the root's blocks (gconfig.go:107-179): blocks
   * not named `resource` are skipped, each compiled block appends its
   * record, and the first failing block ends the loop; records appended
   * before it stay.
   */
  function ParseRun(reg: Registry, blocks: seq<Resource>): (r: Run)
    ensures |r.records| <= |Selected(blocks)|
    ensures r.failure.Some? ==> r.failure.value != {}
    decreases |blocks|
  {
    if blocks == [] then Run([], None)
    else
      var prev := ParseRun(reg, blocks[..|blocks| - 1]);
      var last := blocks[|blocks| - 1];
      if prev.failure.Some? || last.name != RESOURCE then prev
      else match Compile(reg, last)
        case Fail(p) => Run(prev.records, Some(p))
        case Pass(res) => Run(prev.records + [res], None)
  }

  /** The blocks Parse looks at: those named `resource`, in order. */
  function Selected(blocks: seq<Resource>): (sel: seq<Resource>)
    ensures |sel| <= |blocks|
    ensures forall i | 0 <= i < |sel| :: sel[i].name == RESOURCE
    decreases |blocks|
  {
    if blocks == [] then []
    else
      var last := blocks[|blocks| - 1];
      Selected(blocks[..|blocks| - 1]) + (if last.name == RESOURCE then [last] else [])
  }

  /** Once a block has failed, the blocks after it change nothing. */
  lemma {:induction false} ParseRunSticky(reg: Registry, blocks: seq<Resource>, i: nat)
    requires i <= |blocks| && ParseRun(reg, blocks[..i]).failure.Some?
    ensures ParseRun(reg, blocks) == ParseRun(reg, blocks[..i])
    decreases |blocks| - i
  {
    if i < |blocks| {
      assert blocks[..i + 1][..i] == blocks[..i];
      ParseRunSticky(reg, blocks, i + 1);
    } else {
      assert blocks[..i] == blocks;
    }
  }

  /** A block is selected exactly when it is one of the blocks and is named `resource`. */
  lemma {:induction false} SelectedMembers(blocks: seq<Resource>, b: Resource)
    ensures b in Selected(blocks) <==> b in blocks && b.name == RESOURCE
    decreases |blocks|
  {
    if blocks != [] {
      var front, last := blocks[..|blocks| - 1], blocks[|blocks| - 1];
      SelectedMembers(front, b);
      assert blocks == front + [last];
    }
  }

  /** Only the `resource` blocks matter. */
  lemma {:induction false} ParseRunSelected(reg: Registry, blocks: seq<Resource>)
    ensures ParseRun(reg, blocks) == ParseRun(reg, Selected(blocks))
    decreases |blocks|
  {
    if blocks != [] {
      var front, last := blocks[..|blocks| - 1], blocks[|blocks| - 1];
      ParseRunSelected(reg, front);
      if last.name == RESOURCE {
        assert (Selected(front) + [last])[..|Selected(front)|] == Selected(front);
      } else {
        assert Selected(blocks) == Selected(front);
      }
    }
  }

  /** Parse succeeds exactly when every `resource` block compiles. */
  lemma {:induction false} ParseRunPasses(reg: Registry, blocks: seq<Resource>)
    ensures ParseRun(reg, blocks).failure.None?
        <==> forall i | 0 <= i < |Selected(blocks)| :: Compile(reg, Selected(blocks)[i]).Pass?
    decreases |blocks|
  {
    if blocks != [] {
      var front, last := blocks[..|blocks| - 1], blocks[|blocks| - 1];
      ParseRunPasses(reg, front);
      assert ParseRun(reg, front).failure.None?
         ==> forall i | 0 <= i < |Selected(front)| :: Compile(reg, Selected(front)[i]).Pass?;
      assert ParseRun(reg, front).failure.None?
         <== forall i | 0 <= i < |Selected(front)| :: Compile(reg, Selected(front)[i]).Pass?;
      var sel, sf := Selected(blocks), Selected(front);
      if last.name != RESOURCE {
        assert sel == sf;
        assert ParseRun(reg, blocks) == ParseRun(reg, front);
      } else {
        assert sel == sf + [last];
        if ParseRun(reg, front).failure.Some? {
          assert ParseRun(reg, blocks) == ParseRun(reg, front);
          var j :| 0 <= j < |sf| && !Compile(reg, sf[j]).Pass?;
          assert sel[j] == sf[j];
        } else if Compile(reg, last).Fail? {
          assert ParseRun(reg, blocks).failure.Some?;
          assert sel[|sf|] == last;
        } else {
          assert ParseRun(reg, blocks).failure.None?;
          assert forall i | 0 <= i < |sf| :: sel[i] == sf[i];
        }
      }
    }
  }

  /**
   * A Parse that succeeds has appended one record per `resource` block,
   * in source order, each the block's compiled record.
   */
  lemma {:induction false} ParseRunRecords(reg: Registry, blocks: seq<Resource>)
    requires ParseRun(reg, blocks).failure.None?
    ensures var run, sel := ParseRun(reg, blocks), Selected(blocks);
      && |run.records| == |sel|
      && forall i | 0 <= i < |sel| :: Compile(reg, sel[i]) == Pass(run.records[i])
    decreases |blocks|
  {
    if blocks != [] {
      var front, last := blocks[..|blocks| - 1], blocks[|blocks| - 1];
      ParseRunRecords(reg, front);
      var sel, sf := Selected(blocks), Selected(front);
      if last.name != RESOURCE {
        assert sel == sf;
      } else {
        assert sel == sf + [last];
        assert forall i | 0 <= i < |sf| :: sel[i] == sf[i];
      }
    }
  }

  /**
   * The i-th `resource` block is the first that does not compile, its
   * failure is run's, and run holds the records of the blocks before it.
   */
  ghost predicate FirstFailure(reg: Registry, sel: seq<Resource>, run: Run, i: nat)
    requires i < |sel| && run.failure.Some?
  {
    && (forall j | 0 <= j < i :: Compile(reg, sel[j]).Pass?)
    && Compile(reg, sel[i]) == Fail(run.failure.value)
    && |run.records| == i
    && forall j | 0 <= j < i :: run.records[j] == Compile(reg, sel[j]).value
  }

  /**
   * When Parse fails, the failure is that of the first `resource` block
   * that does not compile, and the records of the blocks before it have
   * been appended.
   */
  lemma {:induction false} ParseRunRejects(reg: Registry, blocks: seq<Resource>)
    requires ParseRun(reg, blocks).failure.Some?
    ensures exists i | 0 <= i < |Selected(blocks)| :: FirstFailure(reg, Selected(blocks), ParseRun(reg, blocks), i)
    decreases |blocks|
  {
    var front, last := blocks[..|blocks| - 1], blocks[|blocks| - 1];
    var run, sel, sf := ParseRun(reg, blocks), Selected(blocks), Selected(front);
    assert sel[..|sf|] == sf;
    if ParseRun(reg, front).failure.Some? {
      ParseRunRejects(reg, front);
      var i :| 0 <= i < |sf| && FirstFailure(reg, sf, ParseRun(reg, front), i);
      assert forall j | 0 <= j <= i :: sel[j] == sf[j];
      assert FirstFailure(reg, sel, run, i);
    } else {
      ParseRunRecords(reg, front);
      ParseRunPasses(reg, front);
      assert sel == sf + [last];
      var i := |sf|;
      assert forall j | 0 <= j < i :: sel[j] == sf[j];
      assert FirstFailure(reg, sel, run, i);
    }
  }
}
