/**
 * The syntax tree the parser builds (parser/parser.go:25-77) and the
 * effect of the two binding statements, `name = expr` and `name += expr`,
 * on a block's binding map.
 *
 * The Go tree is made of pointers; here its nodes are values.  Every Go
 * `Expr` carries a type tag and all of String, Args and Bindings; here each
 * tag is a constructor with the fields that tag uses.
 */
module Ast {
  import opened Bytes

  /** A position in the text: byte offset, 1-based line, column, and the byte size of a node. */
  datatype Location = Location(offset: nat, line: nat, column: nat, size: nat)

  /** A diagnostic: where and what. */
  datatype Error = Error(loc: Location, message: string)

  datatype Expr =
    | String(loc: Location, value: Bytes)
    | Variable(loc: Location, name: Bytes)
    | FuncCall(loc: Location, name: Bytes, args: seq<Expr>)
    | Chain(loc: Location, args: seq<Expr>)
    | Array(loc: Location, args: seq<Expr>)
    | Object(loc: Location, bindings: map<Bytes, Binding>)

  datatype Binding = Binding(loc: Location, name: Bytes, expr: Expr)

  type Bindings = map<Bytes, Binding>

  /**
   * A block: `name descriptors... (attributes...) { bindings and blocks }`,
   * or the synthetic root of the file.
   */
  datatype Resource = Resource(
    loc: Location,
    name: Bytes,
    descriptors: seq<Expr>,
    attributes: seq<Expr>,
    bindings: Bindings,
    resources: seq<Resource>)

  /** The Go `Expr.String` field: the text of a String, Variable or FuncCall node, empty otherwise. */
  function Text(e: Expr): Bytes {
    match e
    case String(_, s) => s
    case Variable(_, s) => s
    case FuncCall(_, s, _) => s
    case _ => []
  }

  /** The two node kinds literal mode may return (parser.go:244, 284). */
  predicate IsLiteral(e: Expr) {
    e.String? || e.Variable?
  }

  /** One binding statement of a block, in the order the parser meets them. */
  datatype BindingOp =
    | Assign(loc: Location, name: Bytes, expr: Expr)
    | Accumulate(loc: Location, opLoc: Location, name: Bytes, expr: Expr)

  /**
   * The effect of one binding statement on the block's map
   * (parser.go:132-152 for `+=`, 170-175 for `=`).  `=` replaces the entry;
   * `+=` starts a one-element Array on a fresh name, wraps an existing
   * non-Array value with the new one into a two-element Array, and appends
   * to an existing Array.  The `+=` Array keeps the location of the operator
   * that created it; the binding keeps the location of its first statement.
   */
  function Apply(b: Bindings, op: BindingOp): (r: Bindings)
    ensures r.Keys == b.Keys + {op.name}
    ensures forall k | k in b && k != op.name :: r[k] == b[k]
    ensures op.Assign? ==> r[op.name] == Binding(op.loc, op.name, op.expr)
    ensures op.Accumulate? ==>
      && r[op.name].expr.Array?
      && |r[op.name].expr.args| >= 1
      && r[op.name].expr.args[|r[op.name].expr.args| - 1] == op.expr
  {
    match op
    case Assign(loc, name, e) =>
      b[name := Binding(loc, name, e)]
    case Accumulate(loc, opLoc, name, e) =>
      if name !in b then
        b[name := Binding(loc, name, Array(opLoc, [e]))]
      else if !b[name].expr.Array? then
        b[name := b[name].(expr := Array(opLoc, [b[name].expr, e]))]
      else
        b[name := b[name].(expr := Array(b[name].expr.loc, b[name].expr.args + [e]))]
  }

  /** The binding map after a block's statements, applied in order. */
  function Replay(b: Bindings, ops: seq<BindingOp>): (r: Bindings)
    ensures b.Keys <= r.Keys
    ensures ops != [] ==> ops[|ops| - 1].name in r
    decreases |ops|
  {
    if ops == [] then b else Apply(Replay(b, ops[..|ops| - 1]), ops[|ops| - 1])
  }

  /** Replaying one more statement applies it to the replay of the earlier ones. */
  lemma ReplaySnoc(b: Bindings, ops: seq<BindingOp>, op: BindingOp)
    ensures Replay(b, ops + [op]) == Apply(Replay(b, ops), op)
  {
    assert (ops + [op])[..|ops|] == ops;
  }

  /** The expressions of the statements, in order. */
  function Exprs(ops: seq<BindingOp>): (es: seq<Expr>)
    ensures |es| == |ops|
  {
    if ops == [] then [] else Exprs(ops[..|ops| - 1]) + [ops[|ops| - 1].expr]
  }

  /** The names the statements bind. */
  function Names(ops: seq<BindingOp>): set<Bytes> {
    if ops == [] then {} else Names(ops[..|ops| - 1]) + {ops[|ops| - 1].name}
  }

  /**
   * The accumulate law: N consecutive `name += e_i` statements leave one
   * Array holding the e_i in declaration order; on a fresh name it has
   * exactly N elements, after an existing non-Array value it has that value
   * first, and an existing Array is extended.
   */
  lemma {:induction false} AccumulateLaw(b: Bindings, name: Bytes, ops: seq<BindingOp>)
    requires |ops| > 0
    requires forall i | 0 <= i < |ops| :: ops[i].Accumulate? && ops[i].name == name
    ensures name in Replay(b, ops)
    ensures name !in b ==>
      Replay(b, ops)[name] == Binding(ops[0].loc, name, Array(ops[0].opLoc, Exprs(ops)))
    ensures name in b && !b[name].expr.Array? ==>
      Replay(b, ops)[name] == b[name].(expr := Array(ops[0].opLoc, [b[name].expr] + Exprs(ops)))
    ensures name in b && b[name].expr.Array? ==>
      Replay(b, ops)[name] == b[name].(expr := Array(b[name].expr.loc, b[name].expr.args + Exprs(ops)))
    decreases |ops|
  {
    var front, last := ops[..|ops| - 1], ops[|ops| - 1];
    if front == [] {
      assert Replay(b, ops) == Apply(b, last);
      assert Exprs(ops) == Exprs([]) + [last.expr];
    } else {
      AccumulateLaw(b, name, front);
      AccumulateOnArray(Replay(b, front), last);
    }
  }

  lemma AccumulateOnArray(b: Bindings, op: BindingOp)
    requires op.Accumulate? && op.name in b && b[op.name].expr.Array?
    ensures Apply(b, op)[op.name]
         == b[op.name].(expr := Array(b[op.name].expr.loc, b[op.name].expr.args + [op.expr]))
  {
  }

  /** Statements about other names leave a binding as it was. */
  lemma {:induction false} ReplayUntouched(b: Bindings, ops: seq<BindingOp>, k: Bytes)
    requires forall i | 0 <= i < |ops| :: ops[i].name != k
    ensures k in Replay(b, ops) <==> k in b
    ensures k in b ==> Replay(b, ops)[k] == b[k]
    decreases |ops|
  {
    if ops != [] {
      ReplayUntouched(b, ops[..|ops| - 1], k);
    }
  }

  /** After the block, a name holds the value of its last `=` when no `+=` on it follows. */
  lemma {:induction false} LastAssignWins(b: Bindings, ops: seq<BindingOp>, i: nat)
    requires i < |ops| && ops[i].Assign?
    requires forall j | i < j < |ops| :: ops[j].name != ops[i].name
    ensures ops[i].name in Replay(b, ops)
    ensures Replay(b, ops)[ops[i].name] == Binding(ops[i].loc, ops[i].name, ops[i].expr)
    decreases |ops|
  {
    if i < |ops| - 1 {
      LastAssignWins(b, ops[..|ops| - 1], i);
    }
  }

  /** The names bound after the block are the names bound before plus those the statements name. */
  lemma {:induction false} ReplayKeys(b: Bindings, ops: seq<BindingOp>)
    ensures Replay(b, ops).Keys == b.Keys + Names(ops)
    decreases |ops|
  {
    if ops != [] {
      ReplayKeys(b, ops[..|ops| - 1]);
    }
  }
}
