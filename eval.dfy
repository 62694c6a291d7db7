/**
 * evalExpr and evalResource (newgraph/gconfig.go:57-102): the evaluation
 * of a parsed expression into a plain value, a string, a list or a map.
 * Only strings, arrays and objects evaluate; a chain, a function call or a
 * variable is an error that names its line and column, and any failing
 * element aborts the enclosing array or object.
 *
 * The pure functions below are the specification.  The methods
 * `Evaluate` and `EvaluateBindings` are the Go loops themselves: they go
 * through an object's bindings in an order they do not control, as Go's
 * map iteration does, so which error a failing object reports is not
 * determined.  The specification therefore carries, for a failure, the
 * set of errors that may be reported, and the methods are proved to report
 * one of them.
 */
module Eval {
  import opened Bytes
  import opened Ast

  datatype Value =
    | VString(s: Bytes)
    | VList(items: seq<Value>)
    | VMap(entries: map<Bytes, Value>)

  /** The three expression kinds evaluation rejects (gconfig.go:93-98). */
  datatype Unsupported = ChainExpr | FunctionCall(name: Bytes) | VariableRef

  /** An evaluation error: what was met, and the line and column of its node. */
  datatype EvalError = EvalError(what: Unsupported, line: nat, column: nat)

  /** A value, or the set of errors that may be reported instead. */
  datatype Evaluated<T> = Done(value: T) | Failed(possible: set<EvalError>)

  predicate IsUnsupported(e: Expr) {
    e.Chain? || e.FuncCall? || e.Variable?
  }

  /** The error reported for an unsupported node. */
  function Fault(e: Expr): EvalError
    requires IsUnsupported(e)
  {
    var what := match e
      case Chain(_, _) => ChainExpr
      case FuncCall(_, name, _) => FunctionCall(name)
      case _ => VariableRef;
    EvalError(what, e.loc.line, e.loc.column)
  }

  /** evalExpr (gconfig.go:69-102). */
  function EvalExpr(e: Expr): (r: Evaluated<Value>)
    ensures r.Failed? ==> r.possible != {}
    ensures r.Done? ==>
      && (r.value.VString? <==> e.String?)
      && (r.value.VList? <==> e.Array?)
      && (r.value.VMap? <==> e.Object?)
    ensures IsUnsupported(e) ==> r.Failed?
    decreases e, 1
  {
    match e
    case String(_, s) => Done(VString(s))
    case Array(_, args) =>
      (match EvalItems(args)
       case Done(vs) => Done(VList(vs))
       case Failed(p) => Failed(p))
    case Object(_, _) =>
      (match EvalObject(e)
       case Done(m) => Done(VMap(m))
       case Failed(p) => Failed(p))
    case _ => Failed({Fault(e)})
  }

  /** The loop over an array's items, in order; the first failure aborts it (gconfig.go:74-80). */
  function EvalItems(es: seq<Expr>): (r: Evaluated<seq<Value>>)
    ensures r.Failed? ==> r.possible != {}
    ensures r.Done? ==> |r.value| == |es|
    decreases es, 0
  {
    if es == [] then Done([])
    else match EvalExpr(es[0])
      case Failed(p) => Failed(p)
      case Done(v) =>
        match EvalItems(es[1..])
        case Failed(p) => Failed(p)
        case Done(vs) => Done([v] + vs)
  }

  /**
   * The loop over an object's bindings (gconfig.go:86-91).  It succeeds
   * when every binding evaluates; otherwise the failing binding met first
   * in map order, which may be any of them, decides the error.
   */
  function EvalObject(e: Expr): (r: Evaluated<map<Bytes, Value>>)
    requires e.Object?
    ensures r.Failed? ==> r.possible != {}
    ensures r.Done? ==> r.value.Keys == e.bindings.Keys
    decreases e, 0
  {
    if forall k | k in e.bindings :: EvalExpr(e.bindings[k].expr).Done? then
      Done(map k | k in e.bindings :: EvalExpr(e.bindings[k].expr).value)
    else
      Failed(set k, x | k in e.bindings && EvalExpr(e.bindings[k].expr).Failed?
                        && x in EvalExpr(e.bindings[k].expr).possible :: x)
  }

  const NoLocation := Location(0, 0, 0, 0)

  /** evalResource (gconfig.go:57-67): a block's bindings, evaluated as an object. */
  function EvalBindings(bs: Bindings): (r: Evaluated<map<Bytes, Value>>)
    ensures r.Failed? ==> r.possible != {}
    ensures r.Done? ==> r.value.Keys == bs.Keys
  {
    EvalObject(Object(NoLocation, bs))
  }

  /*
   * An independent account of failure: the unsupported nodes of an
   * expression that evaluation reaches, i.e. those not inside another
   * unsupported node.
   */

  function Sites(e: Expr): set<EvalError>
    decreases e, 1
  {
    match e
    case String(_, _) => {}
    case Array(_, args) => ItemSites(args)
    case Object(_, _) => ObjectSites(e)
    case _ => {Fault(e)}
  }

  function ItemSites(es: seq<Expr>): set<EvalError>
    decreases es, 0
  {
    if es == [] then {} else Sites(es[0]) + ItemSites(es[1..])
  }

  function ObjectSites(e: Expr): set<EvalError>
    requires e.Object?
    decreases e, 0
  {
    set k, x | k in e.bindings && x in Sites(e.bindings[k].expr) :: x
  }

  /**
   * Evaluation fails exactly when the expression holds an unsupported
   * node, and every error it may then report names one of those nodes.
   */
  lemma {:induction false} FailsAtSites(e: Expr)
    ensures EvalExpr(e).Done? <==> Sites(e) == {}
    ensures EvalExpr(e).Failed? ==> {} != EvalExpr(e).possible <= Sites(e)
    decreases e, 1
  {
    match e
    case String(_, _) =>
    case Array(_, args) => ItemsFailAtSites(args);
    case Object(_, _) => ObjectFailsAtSites(e);
    case _ =>
  }

  lemma {:induction false} ItemsFailAtSites(es: seq<Expr>)
    ensures EvalItems(es).Done? <==> ItemSites(es) == {}
    ensures EvalItems(es).Failed? ==> {} != EvalItems(es).possible <= ItemSites(es)
    decreases es, 0
  {
    if es != [] {
      FailsAtSites(es[0]);
      ItemsFailAtSites(es[1..]);
    }
  }

  lemma {:induction false} ObjectFailsAtSites(e: Expr)
    requires e.Object?
    ensures EvalObject(e).Done? <==> ObjectSites(e) == {}
    ensures EvalObject(e).Failed? ==> {} != EvalObject(e).possible <= ObjectSites(e)
    decreases e, 0
  {
    forall k | k in e.bindings {
      FailsAtSites(e.bindings[k].expr);
    }
    if EvalObject(e).Failed? {
      var k :| k in e.bindings && EvalExpr(e.bindings[k].expr).Failed?;
      var x :| x in EvalExpr(e.bindings[k].expr).possible;
      assert x in EvalObject(e).possible && x in ObjectSites(e);
    } else {
      assert forall k | k in e.bindings :: Sites(e.bindings[k].expr) == {};
    }
  }

  /**
   * An array evaluates to a list of the same length and order, and a
   * failing array reports what its first failing item reports.
   */
  lemma {:induction false} ItemsShape(es: seq<Expr>)
    ensures EvalItems(es).Done? <==> forall i | 0 <= i < |es| :: EvalExpr(es[i]).Done?
    ensures EvalItems(es).Done? ==>
      && |EvalItems(es).value| == |es|
      && forall i | 0 <= i < |es| :: EvalItems(es).value[i] == EvalExpr(es[i]).value
    ensures EvalItems(es).Failed? ==>
      exists i | 0 <= i < |es| ::
        && (forall j | 0 <= j < i :: EvalExpr(es[j]).Done?)
        && EvalExpr(es[i]).Failed? && EvalItems(es) == Failed(EvalExpr(es[i]).possible)
    decreases es
  {
    if es != [] {
      ItemsShape(es[1..]);
      if EvalItems(es).Failed? && EvalExpr(es[0]).Done? {
        var i :| 0 <= i < |es[1..]|
          && (forall j | 0 <= j < i :: EvalExpr(es[1..][j]).Done?)
          && EvalExpr(es[1..][i]).Failed? && EvalItems(es[1..]) == Failed(EvalExpr(es[1..][i]).possible);
        assert forall j | 0 <= j < i + 1 :: EvalExpr(es[j]).Done? by {
          forall j | 0 <= j < i + 1 ensures EvalExpr(es[j]).Done? {
            if j > 0 {
              assert es[j] == es[1..][j - 1];
            }
          }
        }
        assert EvalItems(es) == Failed(EvalExpr(es[i + 1]).possible);
      }
    }
  }

  /** An object evaluates to a map over the same keys. */
  lemma ObjectShape(e: Expr)
    requires e.Object?
    ensures EvalObject(e).Done? <==> forall k | k in e.bindings :: EvalExpr(e.bindings[k].expr).Done?
    ensures EvalObject(e).Done? ==>
      && EvalObject(e).value.Keys == e.bindings.Keys
      && forall k | k in e.bindings :: EvalObject(e).value[k] == EvalExpr(e.bindings[k].expr).value
  {
  }

  /*
   * The inverse direction: every value is the evaluation of an expression
   * built from it.
   */

  function Quote(v: Value): Expr
    decreases v, 1
  {
    match v
    case VString(s) => String(NoLocation, s)
    case VList(items) => Array(NoLocation, QuoteItems(items))
    case VMap(m) => Object(NoLocation, map k | k in m :: Binding(NoLocation, k, Quote(m[k])))
  }

  function QuoteItems(vs: seq<Value>): (es: seq<Expr>)
    ensures |es| == |vs|
    decreases vs, 0
  {
    if vs == [] then [] else [Quote(vs[0])] + QuoteItems(vs[1..])
  }

  /** Evaluating a quoted value gives the value back. */
  lemma {:induction false} EvalQuote(v: Value)
    ensures EvalExpr(Quote(v)) == Done(v)
    decreases v, 1
  {
    match v
    case VString(_) =>
    case VList(items) =>
      EvalQuoteItems(items);
    case VMap(m) =>
      var e := Quote(v);
      assert e.bindings.Keys == m.Keys;
      forall k | k in m
        ensures EvalExpr(e.bindings[k].expr) == Done(m[k])
      {
        assert e.bindings[k].expr == Quote(m[k]);
        EvalQuote(m[k]);
      }
      assert (map k | k in e.bindings :: EvalExpr(e.bindings[k].expr).value) == m;
      assert EvalObject(e) == Done(m);
  }

  lemma {:induction false} EvalQuoteItems(vs: seq<Value>)
    ensures EvalItems(QuoteItems(vs)) == Done(vs)
    decreases vs, 0
  {
    if vs != [] {
      EvalQuote(vs[0]);
      EvalQuoteItems(vs[1..]);
      assert QuoteItems(vs)[1..] == QuoteItems(vs[1..]);
      assert [vs[0]] + vs[1..] == vs;
    }
  }

  /*
   * The Go loops.
   */

  /**
   * evalExpr as written: the array loop in order, the object loop in an
   * order it does not choose.  On success the value is the specified one;
   * on failure the error is one the specification allows.
   */
  method Evaluate(e: Expr) returns (r: Evaluated<Value>)
    ensures r.Done? <==> EvalExpr(e).Done?
    ensures r.Done? ==> r == EvalExpr(e)
    ensures r.Failed? ==> |r.possible| == 1 && r.possible <= EvalExpr(e).possible
    decreases e
  {
    match e {
      case String(_, s) =>
        return Done(VString(s));
      case Array(_, args) =>
        var items: seq<Value> := [];
        var i := 0;
        ItemsShape(args);
        while i < |args|
          invariant 0 <= i <= |args| && |items| == i
          invariant forall j | 0 <= j < i :: EvalExpr(args[j]) == Done(items[j])
        {
          var item := Evaluate(args[i]);
          if item.Failed? {
            return Failed(item.possible);
          }
          items := items + [item.value];
          i := i + 1;
        }
        assert items == EvalItems(args).value;
        return Done(VList(items));
      case Object(_, bs) =>
        var m := EvaluateObject(e);
        if m.Failed? {
          return Failed(m.possible);
        }
        return Done(VMap(m.value));
      case Chain(loc, _) =>
        return Failed({EvalError(ChainExpr, loc.line, loc.column)});
      case FuncCall(loc, name, _) =>
        return Failed({EvalError(FunctionCall(name), loc.line, loc.column)});
      case Variable(loc, _) =>
        return Failed({EvalError(VariableRef, loc.line, loc.column)});
    }
  }

  /** The binding loop of an object, in whatever order the map yields (gconfig.go:86-91). */
  method EvaluateObject(e: Expr) returns (r: Evaluated<map<Bytes, Value>>)
    requires e.Object?
    ensures r.Done? <==> EvalObject(e).Done?
    ensures r.Done? ==> r == EvalObject(e)
    ensures r.Failed? ==> |r.possible| == 1 && r.possible <= EvalObject(e).possible
    decreases e, 0
  {
    var bs := e.bindings;
    var left := bs.Keys;
    var acc: map<Bytes, Value> := map[];
    while left != {}
      invariant left <= bs.Keys
      invariant acc.Keys == bs.Keys - left
      invariant forall k | k in acc :: EvalExpr(bs[k].expr) == Done(acc[k])
      decreases left
    {
      var k :| k in left;
      var v := Evaluate(bs[k].expr);
      if v.Failed? {
        var x :| x in v.possible;
        assert x in EvalObject(e).possible;
        return Failed(v.possible);
      }
      acc := acc[k := v.value];
      left := left - {k};
    }
    assert acc == map k | k in bs :: EvalExpr(bs[k].expr).value;
    return Done(acc);
  }

  /** evalResource, and the identical binding loops of Parse (gconfig.go:57-67, 129-135, 153-159). */
  method EvaluateBindings(bs: Bindings) returns (r: Evaluated<map<Bytes, Value>>)
    ensures r.Done? <==> EvalBindings(bs).Done?
    ensures r.Done? ==> r == EvalBindings(bs)
    ensures r.Failed? ==> |r.possible| == 1 && r.possible <= EvalBindings(bs).possible
  {
    r := EvaluateObject(Object(NoLocation, bs));
  }
}
