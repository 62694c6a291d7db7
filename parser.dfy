/**
 * The hand-written recursive-descent parser of parser/parser.go.
 *
 * A `Parser` owns the text and a byte cursor: `n` is the offset, `l` the
 * number of line feeds crossed and `c` the column.  Parsing never stops at
 * the first problem: diagnostics are appended to `Errors` and the parser
 * carries on.  The tree is built as values: each parse method returns the
 * nodes it made, and the block whose content is being parsed is threaded
 * through `ParseResourceContent` and returned extended.
 *
 * Every method moves the cursor forward only and only appends to `Errors`.
 * The mutually recursive methods terminate because each of their loops
 * consumes a byte before it goes round again and each recursive call
 * either follows a consumed byte or goes down to a method of lower rank
 * (the second component of their `decreases` clauses).
 */
module Parser {
  import opened Wrappers
  import opened Bytes
  import opened Lexical
  import opened Ast

  function Min(a: nat, b: nat): nat {
    if a <= b then a else b
  }

  /** The closing byte of a list opened by `(` or `[` (parser.go:347-351). */
  function Closing(open: byte): byte {
    if open == LPAREN then RPAREN else RBRACKET
  }

  /**
   * What parsing the content of block r may do to it: add descriptors,
   * which are literals, and nested blocks; descriptors are only added
   * together with a nested block, whose header they belong to.
   */
  ghost predicate Extends(r: Resource, r': Resource) {
    && r'.loc == r.loc && r'.name == r.name
    && r'.attributes == r.attributes && r'.bindings == r.bindings
    && r.descriptors <= r'.descriptors && r.resources <= r'.resources
    && (forall i | |r.descriptors| <= i < |r'.descriptors| :: IsLiteral(r'.descriptors[i]))
    && (|r'.resources| == |r.resources| ==> r'.descriptors == r.descriptors)
  }

  /** A block that extends one that extends r extends r. */
  lemma ExtendsTrans(r: Resource, r': Resource, r'': Resource)
    requires Extends(r, r') && Extends(r', r'')
    ensures Extends(r, r'')
  {
  }

  /** A Chain as the parser builds it: a non-Chain head followed by one Variable per `.name`. */
  predicate ChainShaped(e: Expr) {
    e.Chain? ==>
      && |e.args| >= 2 && !e.args[0].Chain?
      && forall i | 1 <= i < |e.args| :: e.args[i].Variable?
  }

  /** The expression a chain starts from, or the expression itself. */
  function Head(e: Expr): Expr {
    if e.Chain? && |e.args| > 0 then e.args[0] else e
  }

  /** The kind of expression the byte b that starts it announces (parser.go:236-305). */
  predicate HeadMatches(b: byte, h: Expr) {
    && (b == QUOTE ==> h.String?)
    && (b == LBRACKET ==> h.Array?)
    && (b == LBRACE ==> h.Object?)
    && (!IsIdentStop(b) ==> h.Variable? || h.FuncCall?)
  }

  /**
   * Whether the byte b can start an expression: an identifier byte, a
   * `"`, and outside literal mode `[` and `{` (parser.go:236-305).
   */
  predicate StartsExpr(b: byte, literal: bool) {
    !IsIdentStop(b) || b == QUOTE || (!literal && (b == LBRACKET || b == LBRACE))
  }

  /** Where a string literal whose `"` is at p ends: after its closing `"`, if any (parser.go:387-408). */
  function StringEnd(s: Bytes, p: nat): (j: nat)
    requires p < |s|
    ensures p < j <= |s|
  {
    var k := QuoteEnd(s, p + 1);
    if ByteAt(s, k) == QUOTE then k + 1 else k
  }

  /** Where the literal at p ends: a string literal, or else an identifier. */
  function LiteralEnd(s: Bytes, p: nat): (j: nat)
    requires p <= |s|
    ensures p <= j <= |s|
    ensures StartsExpr(ByteAt(s, p), true) ==> p < j
  {
    if ByteAt(s, p) == QUOTE then StringEnd(s, p) else IdentEnd(s, p)
  }

  /**
   * Where the descriptor loop of a block header begun at i stops
   * (parser.go:188-195): past blanks and literals, repeated, at the first
   * non-blank byte that starts no literal.
   */
  ghost function LiteralsEnd(s: Bytes, i: nat): (j: nat)
    requires i <= |s|
    ensures i <= j <= |s|
    decreases |s| - i
  {
    var p := SpacesEnd(s, i);
    if StartsExpr(ByteAt(s, p), true) then LiteralsEnd(s, LiteralEnd(s, p)) else p
  }

  /**
   * A chain link as read from s: the Variable for the non-empty identifier
   * at its offset, named by that identifier and spanning it.
   */
  ghost predicate LinkAt(s: Bytes, v: Expr) {
    && v.loc.offset <= |s| && v.loc.offset < IdentEnd(s, v.loc.offset)
    && v == LinkVariable(s, v.loc.offset, IdentEnd(s, v.loc.offset))
  }

  /** The links of a chain in s, at rising offsets after its head. */
  ghost predicate ChainLinked(s: Bytes, e: Expr) {
    e.Chain? ==>
      forall i | 1 <= i < |e.args| :: LinkAt(s, e.args[i]) && e.args[i - 1].loc.offset < e.args[i].loc.offset
  }

  /** The location of size 0 at offset p of s: its line is one more than the line feeds before it. */
  function PointAt(s: Bytes, p: nat): (loc: Location)
    requires p <= |s|
    ensures loc.offset == p && loc.size == 0
  {
    Location(p, LineFeeds(s, p) + 1, 0, 0)
  }

  /** What the chain loop reads: link Variables, diagnostics for `.`s with no name, where it stops. */
  datatype ChainRead = ChainRead(links: seq<Expr>, missing: seq<Error>, end: nat)

  /** Where the name after the `.` at p starts: past the blanks after the `.`. */
  function LinkStart(s: Bytes, p: nat): (q: nat)
    requires p < |s|
    ensures p < q <= |s|
  {
    SpacesEnd(s, p + 1)
  }

  /** Where the name after the `.` at p ends. */
  function LinkEnd(s: Bytes, p: nat): (k: nat)
    requires p < |s|
    ensures LinkStart(s, p) <= k <= |s|
  {
    IdentEnd(s, LinkStart(s, p))
  }

  /** The Variable a chain link whose name spans s[q..k] becomes. */
  function LinkVariable(s: Bytes, q: nat, k: nat): Expr
    requires q <= k <= |s|
  {
    Variable(Location(q, LineFeeds(s, q) + 1, 0, k - q), Widen(s[q..k]))
  }

  /** The diagnostic for a `.` with no name, where the name should end at k. */
  function MissingLink(s: Bytes, k: nat): Error
    requires k <= |s|
  {
    Error(Location(k, LineFeeds(s, k) + 1, 0, 0), "Expected chain identifier")
  }

  /**
   * The `.name` links read from position i of s (parser.go:307-338): after
   * blanks, a `.` then blanks then an identifier is a link; a `.` with no
   * identifier after it yields "Expected chain identifier" at the byte
   * where the identifier should start; anything else ends the chain.
   */
  ghost function ChainFrom(s: Bytes, i: nat): (r: ChainRead)
    requires i <= |s|
    ensures i <= r.end <= |s|
    decreases |s| - i
  {
    var p := SpacesEnd(s, i);
    if ByteAt(s, p) != DOT then ChainRead([], [], p)
    else
      var rest := ChainFrom(s, LinkEnd(s, p));
      if LinkStart(s, p) < LinkEnd(s, p) then
        rest.(links := [LinkVariable(s, LinkStart(s, p), LinkEnd(s, p))] + rest.links)
      else
        rest.(missing := [MissingLink(s, LinkEnd(s, p))] + rest.missing)
  }

  /** Without a `.` after the blanks at i, the chain read from i is empty. */
  lemma ChainStop(s: Bytes, i: nat, p: nat)
    requires i <= |s| && p == SpacesEnd(s, i) && ByteAt(s, p) != DOT
    ensures ChainFrom(s, i) == ChainRead([], [], p)
  {
  }

  /**
   * At a `.`, the chain read from i is the link after it (or the
   * diagnostic for a missing one) followed by the chain read after it.
   */
  lemma ChainLink(s: Bytes, i: nat, p: nat)
    requires i <= |s| && p == SpacesEnd(s, i) && ByteAt(s, p) == DOT
    ensures ChainFrom(s, i).end == ChainFrom(s, LinkEnd(s, p)).end
    ensures LinkStart(s, p) < LinkEnd(s, p) ==>
      && ChainFrom(s, i).links == [LinkVariable(s, LinkStart(s, p), LinkEnd(s, p))] + ChainFrom(s, LinkEnd(s, p)).links
      && ChainFrom(s, i).missing == ChainFrom(s, LinkEnd(s, p)).missing
    ensures LinkStart(s, p) == LinkEnd(s, p) ==>
      && ChainFrom(s, i).links == ChainFrom(s, LinkEnd(s, p)).links
      && ChainFrom(s, i).missing == [MissingLink(s, LinkEnd(s, p))] + ChainFrom(s, LinkEnd(s, p)).missing
  {
  }

  /** The chain read from i stops at a byte that is neither blank nor `.`. */
  lemma {:induction false} ChainFromEnd(s: Bytes, i: nat)
    requires i <= |s|
    ensures !IsSpace(ByteAt(s, ChainFrom(s, i).end)) && ByteAt(s, ChainFrom(s, i).end) != DOT
    decreases |s| - i
  {
    var p := SpacesEnd(s, i);
    if ByteAt(s, p) == DOT {
      ChainFromEnd(s, LinkEnd(s, p));
    }
  }

  /** The diagnostic at index j of the chain read from i is "Expected chain identifier". */
  lemma {:induction false} ChainFromMissing(s: Bytes, i: nat, j: nat)
    requires i <= |s| && j < |ChainFrom(s, i).missing|
    ensures ChainFrom(s, i).missing[j].message == "Expected chain identifier"
    decreases |s| - i
  {
    var p := SpacesEnd(s, i);
    if ByteAt(s, p) == DOT {
      var k := LinkEnd(s, p);
      if LinkStart(s, p) < k {
        ChainFromMissing(s, k, j);
      } else if j > 0 {
        ChainFromMissing(s, k, j - 1);
      }
    }
  }

  /** The Variable for a non-empty name after the `.` at p is a link read from s after p. */
  lemma LinkVariableAt(s: Bytes, p: nat)
    requires p < |s| && LinkStart(s, p) < LinkEnd(s, p)
    ensures LinkAt(s, LinkVariable(s, LinkStart(s, p), LinkEnd(s, p)))
    ensures LinkVariable(s, LinkStart(s, p), LinkEnd(s, p)).loc.offset == LinkStart(s, p)
  {
  }

  /** The link at index j of the chain read from i is the name after a `.` at some p at or after i. */
  lemma {:induction false} ChainFromDot(s: Bytes, i: nat, j: nat) returns (p: nat)
    requires i <= |s| && j < |ChainFrom(s, i).links|
    ensures i <= p < |s| && s[p] == DOT && LinkStart(s, p) < LinkEnd(s, p)
    ensures ChainFrom(s, i).links[j] == LinkVariable(s, LinkStart(s, p), LinkEnd(s, p))
    decreases |s| - i
  {
    p := SpacesEnd(s, i);
    var q, k := LinkStart(s, p), LinkEnd(s, p);
    var rest := ChainFrom(s, k).links;
    if q == k {
      assert ChainFrom(s, i).links == rest;
      assert ChainFrom(s, i).links[j] == rest[j];
      p := ChainFromDot(s, k, j);
    } else {
      var links := ChainFrom(s, i).links;
      assert links == [LinkVariable(s, q, k)] + rest;
      if j > 0 {
        assert links[j] == rest[j - 1];
        p := ChainFromDot(s, k, j - 1);
      } else {
        assert links[0] == LinkVariable(s, q, k);
      }
    }
  }

  /** The link at index j of the chain read from i is a name read from s after i. */
  lemma ChainFromLink(s: Bytes, i: nat, j: nat)
    requires i <= |s| && j < |ChainFrom(s, i).links|
    ensures LinkAt(s, ChainFrom(s, i).links[j]) && i < ChainFrom(s, i).links[j].loc.offset
  {
    var p := ChainFromDot(s, i, j);
    LinkVariableAt(s, p);
  }

  /** The links of the chain read from i are at rising offsets. */
  lemma {:induction false} ChainFromRising(s: Bytes, i: nat, j: nat)
    requires i <= |s| && 0 < j < |ChainFrom(s, i).links|
    ensures ChainFrom(s, i).links[j - 1].loc.offset < ChainFrom(s, i).links[j].loc.offset
    decreases |s| - i
  {
    var p := SpacesEnd(s, i);
    if ByteAt(s, p) == DOT {
      var q, k := LinkStart(s, p), LinkEnd(s, p);
      var rest := ChainFrom(s, k).links;
      if q == k {
        assert ChainFrom(s, i).links == rest;
        ChainFromRising(s, k, j);
      } else {
        var links := [LinkVariable(s, q, k)] + rest;
        assert ChainFrom(s, i).links == links;
        assert links[j] == rest[j - 1];
        if j > 1 {
          assert links[j - 1] == rest[j - 2];
          ChainFromRising(s, k, j - 1);
        } else {
          ChainFromLink(s, k, 0);
        }
      }
    }
  }

  /** A chain of a head read before i and the links read from i is linked in s. */
  lemma ChainFromLinked(s: Bytes, i: nat, head: Expr, e: Expr)
    requires i <= |s| && head.loc.offset < i && !head.Chain? && ChainFrom(s, i).links != []
    requires e.Chain? && e.args == [head] + ChainFrom(s, i).links
    ensures ChainShaped(e) && ChainLinked(s, e)
  {
    forall j | 1 <= j < |e.args|
      ensures LinkAt(s, e.args[j]) && e.args[j - 1].loc.offset < e.args[j].loc.offset
    {
      ChainArgLinked(s, i, head, e, j);
    }
  }

  /** The argument at index j of such a chain is a link read after the one before it. */
  lemma ChainArgLinked(s: Bytes, i: nat, head: Expr, e: Expr, j: nat)
    requires i <= |s| && head.loc.offset < i
    requires e.Chain? && e.args == [head] + ChainFrom(s, i).links && 1 <= j < |e.args|
    ensures LinkAt(s, e.args[j]) && e.args[j - 1].loc.offset < e.args[j].loc.offset
  {
    var links := ChainFrom(s, i).links;
    ChainFromLink(s, i, j - 1);
    assert e.args[j] == links[j - 1];
    if j > 1 {
      ChainFromRising(s, i, j - 1);
      assert e.args[j - 1] == links[j - 2];
    }
  }

  /**
   * The expression the chain loop has built on head so far: head itself
   * while no link was read, else a Chain at start of head and the links,
   * not past at.
   */
  ghost predicate ChainBuilt(head: Expr, start: Location, e: Expr, links: seq<Expr>, at: nat) {
    && !head.Chain?
    && (links == [] ==> e == head)
    && (links != [] ==> e.Chain? && e.args == [head] + links && e.loc.offset == start.offset)
    && (e.Chain? ==> e.loc.offset <= at)
  }

  /** Appending a link keeps what the chain loop has built. */
  lemma ChainBuiltSnoc(head: Expr, start: Location, e: Expr, links: seq<Expr>, at: nat, v: Expr, e': Expr, at': nat)
    requires ChainBuilt(head, start, e, links, at)
    requires e'.Chain? && e'.loc.offset == start.offset && e'.loc.offset <= at'
    requires e'.args == (if e.Chain? then e.args else [e]) + [v]
    ensures ChainBuilt(head, start, e', links + [v], at')
  {
    assert [head] + (links + [v]) == ([head] + links) + [v];
  }

  /**
   * What the chain loop begun at from has read when it is at at: the
   * links and diagnostics of the chain read from from are those read so
   * far followed by those of the chain read from at.
   */
  ghost predicate ChainRest(s: Bytes, links: seq<Expr>, missing: seq<Error>, from: nat, at: nat)
    requires from <= at <= |s|
  {
    && ChainFrom(s, from).links == links + ChainFrom(s, at).links
    && ChainFrom(s, from).missing == missing + ChainFrom(s, at).missing
    && ChainFrom(s, from).end == ChainFrom(s, at).end
  }

  /** Without a `.` after the blanks at at, nothing is left to read. */
  lemma ChainRestStop(s: Bytes, links: seq<Expr>, missing: seq<Error>, from: nat, at: nat, p: nat)
    requires from <= at <= |s| && p == SpacesEnd(s, at) && ByteAt(s, p) != DOT
    requires ChainRest(s, links, missing, from, at)
    ensures ChainRest(s, links, missing, from, p)
    ensures ChainFrom(s, p) == ChainRead([], [], p)
  {
    ChainStop(s, at, p);
    ChainStop(s, p, p);
    assert links + [] == links && missing + [] == missing;
  }

  /** Reading the link after the `.` at p moves it to what was read. */
  lemma ChainRestLink(s: Bytes, links: seq<Expr>, missing: seq<Error>, from: nat, at: nat, p: nat)
    requires from <= at <= |s| && p == SpacesEnd(s, at) && ByteAt(s, p) == DOT
    requires LinkStart(s, p) < LinkEnd(s, p)
    requires ChainRest(s, links, missing, from, at)
    ensures ChainRest(s, links + [LinkVariable(s, LinkStart(s, p), LinkEnd(s, p))], missing, from, LinkEnd(s, p))
  {
    var v := LinkVariable(s, LinkStart(s, p), LinkEnd(s, p));
    var rest := ChainFrom(s, LinkEnd(s, p));
    ChainLink(s, at, p);
    assert links + ([v] + rest.links) == (links + [v]) + rest.links;
  }

  /** Reading an empty link after the `.` at p moves its diagnostic to what was read. */
  lemma ChainRestMissing(s: Bytes, links: seq<Expr>, missing: seq<Error>, from: nat, at: nat, p: nat)
    requires from <= at <= |s| && p == SpacesEnd(s, at) && ByteAt(s, p) == DOT
    requires LinkStart(s, p) == LinkEnd(s, p)
    requires ChainRest(s, links, missing, from, at)
    ensures ChainRest(s, links, missing + [MissingLink(s, LinkEnd(s, p))], from, LinkEnd(s, p))
  {
    var m := MissingLink(s, LinkEnd(s, p));
    var rest := ChainFrom(s, LinkEnd(s, p));
    ChainLink(s, at, p);
    assert missing + ([m] + rest.missing) == (missing + [m]) + rest.missing;
  }

  /**
   * The text of a head h read at offset o of s: a string's body up to the
   * closing quote, an identifier's name (of a Variable or a FuncCall).
   */
  ghost predicate HeadText(s: Bytes, o: nat, h: Expr)
    requires o < |s|
  {
    && (s[o] == QUOTE ==> h.String? && h.value == Widen(s[o + 1..QuoteEnd(s, o + 1)]))
    && (!IsIdentStop(s[o]) ==> Text(h) == Widen(s[o..IdentEnd(s, o)]))
  }

  /**
   * An expression as read from s: its offset holds the byte that announces
   * its head, and the head carries the text read there.
   */
  ghost predicate ExprAt(s: Bytes, e: Expr) {
    && e.loc.offset < |s| && Head(e).loc.offset == e.loc.offset
    && HeadMatches(s[e.loc.offset], Head(e)) && HeadText(s, e.loc.offset, Head(e))
    && ChainShaped(e) && ChainLinked(s, e)
  }

  /**
   * e is its head followed by the links of the chain read from h: the head
   * itself when there are none.
   */
  ghost predicate Folded(s: Bytes, h: nat, e: Expr)
    requires h <= |s|
  {
    && (ChainFrom(s, h).links == [] ==> !e.Chain?)
    && (ChainFrom(s, h).links != [] ==> e.Chain? && e.args == [Head(e)] + ChainFrom(s, h).links)
  }

  /**
   * The chain after a String or Variable head is the one read from where
   * that head ends: after the closing quote, or after the identifier and
   * the blanks that follow it.
   */
  ghost predicate ChainPinned(s: Bytes, e: Expr) {
    var o := e.loc.offset;
    && o < |s|
    && (s[o] == QUOTE ==> Folded(s, StringEnd(s, o), e))
    && (!IsIdentStop(s[o]) && !Head(e).FuncCall? ==> Folded(s, SpacesEnd(s, IdentEnd(s, o)), e))
  }

  /** xs ends with ys. */
  predicate EndsWith<T(==)>(xs: seq<T>, ys: seq<T>) {
    |ys| <= |xs| && xs[|xs| - |ys|..] == ys
  }

  /** Expressions read from s in order between offsets from and to. */
  ghost predicate ExprsIn(s: Bytes, es: seq<Expr>, from: nat, to: nat) {
    && (forall i | 0 <= i < |es| :: from <= es[i].loc.offset < to && ExprAt(s, es[i]))
    && (forall i | 0 < i < |es| :: es[i - 1].loc.offset < es[i].loc.offset)
  }

  /** An expression read between mid and to extends expressions read between from and mid. */
  lemma ExprsSnoc(s: Bytes, es: seq<Expr>, e: Expr, from: nat, mid: nat, to: nat)
    requires from <= mid && ExprsIn(s, es, from, mid) && ExprAt(s, e) && mid <= e.loc.offset < to
    ensures ExprsIn(s, es + [e], from, to)
  {
  }

  /** One round of a parsing loop: where it began, and what it read, if anything. */
  datatype Round<T> = Round(start: nat, read: Option<T>)

  /** What the rounds read, in order. */
  ghost function Reads<T>(rounds: seq<Round<T>>): seq<T> {
    if rounds == [] then []
    else
      var last := rounds[|rounds| - 1];
      Reads(rounds[..|rounds| - 1]) + (if last.read.Some? then [last.read.value] else [])
  }

  /** The rounds of a loop begun at from: the first begins there and each later one after the one before. */
  ghost predicate Consecutive<T>(rounds: seq<Round<T>>, from: nat) {
    && (rounds != [] ==> rounds[0].start == from)
    && (forall i | 0 < i < |rounds| :: rounds[i - 1].start < rounds[i].start)
  }

  /** A round that begins after the earlier ones reads what it reads after theirs. */
  lemma ConsecutiveSnoc<T>(rounds: seq<Round<T>>, from: nat, r: Round<T>)
    requires Consecutive(rounds, from)
    requires rounds == [] ==> r.start == from
    requires rounds != [] ==> rounds[|rounds| - 1].start < r.start
    ensures Consecutive(rounds + [r], from)
    ensures Reads(rounds + [r]) == Reads(rounds) + (if r.read.Some? then [r.read.value] else [])
  {
    assert (rounds + [r])[..|rounds|] == rounds;
  }

  /**
   * A round of a list's item loop, between from and to: it reads an item
   * exactly when the first non-blank byte after its start can start an
   * expression, and the item starts there.
   */
  ghost predicate ItemRoundAt(s: Bytes, r: Round<Expr>, from: nat, to: nat) {
    && from <= r.start <= to && r.start <= |s|
    && (r.read.Some? <==> StartsExpr(ByteAt(s, SpacesEnd(s, r.start)), false))
    && (r.read.Some? ==> r.read.value.loc.offset == SpacesEnd(s, r.start) && ChainPinned(s, r.read.value))
  }

  /** The rounds of a list's item loop between from and to; every round but the last reads an item. */
  ghost predicate ItemRoundsIn(s: Bytes, rounds: seq<Round<Expr>>, from: nat, to: nat) {
    && Consecutive(rounds, from)
    && (forall i | 0 <= i < |rounds| :: ItemRoundAt(s, rounds[i], from, to))
    && (forall i | 0 <= i < |rounds| - 1 :: rounds[i].read.Some?)
  }

  /** A round that begins at at, after rounds that all read an item, adds its item, if any. */
  lemma ItemRoundsSnoc(s: Bytes, rounds: seq<Round<Expr>>, from: nat, at: nat, e: Option<Expr>, to: nat)
    requires ItemRoundsIn(s, rounds, from, at) && at <= to
    requires rounds == [] ==> at == from
    requires rounds != [] ==> rounds[|rounds| - 1].start < at && rounds[|rounds| - 1].read.Some?
    requires ItemRoundAt(s, Round(at, e), from, to)
    ensures ItemRoundsIn(s, rounds + [Round(at, e)], from, to)
    ensures Reads(rounds + [Round(at, e)]) == Reads(rounds) + (if e.Some? then [e.value] else [])
  {
    var rounds' := rounds + [Round(at, e)];
    ConsecutiveSnoc(rounds, from, Round(at, e));
    forall i | 0 <= i < |rounds'|
      ensures ItemRoundAt(s, rounds'[i], from, to)
    {
      if i < |rounds| {
        assert rounds'[i] == rounds[i] && ItemRoundAt(s, rounds[i], from, at);
      }
    }
    forall i | 0 <= i < |rounds'| - 1
      ensures rounds'[i].read.Some?
    {
      assert rounds'[i] == rounds[i];
    }
  }



  /**
   * A binding statement as read from s: its name is the identifier at its
   * offset, the first byte after the name and the blanks is its operator
   * (`+` for `+=`, also when the `=` is missing), and its expression is
   * read after that.
   */
  ghost predicate StatementAt(s: Bytes, op: BindingOp) {
    op.loc.offset <= |s| &&
    var p := op.loc.offset;
    var q := SpacesEnd(s, IdentEnd(s, p));
    && op.name == Widen(s[p..IdentEnd(s, p)]) && op.name != []
    && ByteAt(s, q) == (if op.Accumulate? then PLUS else EQUALS)
    && q < op.expr.loc.offset && ExprAt(s, op.expr) && ChainPinned(s, op.expr)
  }

  /** Binding statements read from s in order between offsets from and to. */
  ghost predicate StatementsIn(s: Bytes, ops: seq<BindingOp>, from: nat, to: nat) {
    && (forall i | 0 <= i < |ops| :: from <= ops[i].loc.offset < to && StatementAt(s, ops[i]))
    && (forall i | 0 < i < |ops| :: ops[i - 1].loc.offset < ops[i].loc.offset)
  }

  /** A statement read between mid and to extends statements read between from and mid. */
  lemma StatementsSnoc(s: Bytes, ops: seq<BindingOp>, op: BindingOp, from: nat, mid: nat, to: nat)
    requires from <= mid && StatementsIn(s, ops, from, mid) && StatementAt(s, op) && mid <= op.loc.offset < to
    ensures StatementsIn(s, ops + [op], from, to)
  {
  }

  /** Statements read between from and mid are read between from and any later to. */
  lemma StatementsWiden(s: Bytes, ops: seq<BindingOp>, from: nat, mid: nat, to: nat)
    requires StatementsIn(s, ops, from, mid) && mid <= to
    ensures StatementsIn(s, ops, from, to)
  {
  }

  /** Where the binding operator at q ends: `+=` is two bytes, a lone `+` or `=` one (parser.go:118-128, 159). */
  function OperatorEnd(s: Bytes, q: nat): (j: nat)
    requires q < |s|
    ensures q < j <= |s|
  {
    if s[q] == PLUS && ByteAt(s, q + 1) == EQUALS then q + 2 else q + 1
  }

  /**
   * A binding statement starts at p: a non-empty identifier, blanks, `+`
   * or `=`, and after the operator and the blanks a byte that can start an
   * expression.  Exactly then does a round of a content loop at p yield a
   * binding operation (parser.go:111-175).
   */
  ghost predicate BindingAt(s: Bytes, p: nat)
    requires p <= |s|
  {
    var k := IdentEnd(s, p);
    var q := SpacesEnd(s, k);
    && p < k && q < |s| && (s[q] == PLUS || s[q] == EQUALS)
    && StartsExpr(ByteAt(s, SpacesEnd(s, OperatorEnd(s, q))), false)
  }

  /**
   * A round of a content loop, between from and to: it reads a binding
   * statement exactly when one starts at the first non-blank byte after
   * its start, and then the statement read there.
   */
  ghost predicate RoundAt(s: Bytes, r: Round<BindingOp>, from: nat, to: nat) {
    && from <= r.start <= to && r.start <= |s|
    && (r.read.Some? <==> BindingAt(s, SpacesEnd(s, r.start)))
    && (r.read.Some? ==> r.read.value.loc.offset == SpacesEnd(s, r.start) && StatementAt(s, r.read.value))
  }

  /** The rounds of a content loop between from and to. */
  ghost predicate RoundsIn(s: Bytes, rounds: seq<Round<BindingOp>>, from: nat, to: nat) {
    && Consecutive(rounds, from)
    && (forall i | 0 <= i < |rounds| :: RoundAt(s, rounds[i], from, to))
  }

  /** Rounds read between from and mid are read between from and any later to. */
  lemma RoundsWiden(s: Bytes, rounds: seq<Round<BindingOp>>, from: nat, mid: nat, to: nat)
    requires RoundsIn(s, rounds, from, mid) && mid <= to
    ensures RoundsIn(s, rounds, from, to)
  {
    forall i | 0 <= i < |rounds|
      ensures RoundAt(s, rounds[i], from, to)
    {
      assert RoundAt(s, rounds[i], from, mid);
    }
  }

  /** A round that begins at at, after the earlier ones, adds its statement, if any. */
  lemma RoundsSnoc(s: Bytes, rounds: seq<Round<BindingOp>>, from: nat, at: nat, op: Option<BindingOp>, to: nat)
    requires RoundsIn(s, rounds, from, at) && at <= to
    requires rounds == [] ==> at == from
    requires rounds != [] ==> rounds[|rounds| - 1].start < at
    requires RoundAt(s, Round(at, op), from, to)
    ensures RoundsIn(s, rounds + [Round(at, op)], from, to)
    ensures Reads(rounds + [Round(at, op)]) == Reads(rounds) + (if op.Some? then [op.value] else [])
  {
    var rounds' := rounds + [Round(at, op)];
    ConsecutiveSnoc(rounds, from, Round(at, op));
    forall i | 0 <= i < |rounds'|
      ensures RoundAt(s, rounds'[i], from, to)
    {
      if i < |rounds| {
        assert rounds'[i] == rounds[i] && RoundAt(s, rounds[i], from, at);
      }
    }
  }


  class Parser {
    const str: Bytes
    var n: nat
    var l: nat
    var c: nat
    var Root: Resource
    var Errors: seq<Error>

    /**
     * The cursor stays within the text and the line counter holds the
     * number of line feeds before it.  The column is reset on every line
     * feed and never advanced (parser.go:468-471), so it is always 0.
     */
    ghost predicate Valid()
      reads this`n, this`l, this`c
    {
      n <= |str| && l == LineFeeds(str, n) && c == 0
    }

    /** NewParser: the root is an empty block at offset 0 (parser.go:16-23, 79-83). */
    constructor (content: Bytes)
      ensures Valid() && str == content
      ensures n == 0 && Errors == []
      ensures Root == Resource(Location(0, 0, 0, 0), [], [], [], map[], [])
    {
      str := content;
      n, l, c := 0, 0, 0;
      Errors := [];
      Root := Resource(Location(0, 0, 0, 0), [], [], [], map[], []);
    }

    /** get: the byte i positions ahead, a zero byte at or past the end (parser.go:456-462). */
    function Get(i: nat): (b: byte)
      reads this`n
      ensures n + i >= |str| ==> b == NUL
      ensures n + i < |str| ==> b == str[n + i]
    {
      ByteAt(str, n + i)
    }

    /**
     * location: the cursor as a Location of size 0 (parser.go:447-454).
     * Its line is one more than the line feeds before it.
     */
    function CurrentLocation(): (loc: Location)
      reads this`n, this`l, this`c
      requires Valid()
      ensures loc.offset == n && loc.size == 0
      ensures loc.offset <= |str| && loc.line == LineFeeds(str, loc.offset) + 1
    {
      Location(n, l + 1, c, 0)
    }

    /** locationEnd: loc stretched to end at the cursor (parser.go:443-445). */
    function EndLocation(loc: Location): (r: Location)
      reads this`n
      requires loc.offset <= n
      ensures r.offset == loc.offset && r.line == loc.line && r.column == loc.column
      ensures r.offset + r.size == n
    {
      loc.(size := n - loc.offset)
    }

    ghost function LastMessage(): string
      reads this`Errors
    {
      if Errors == [] then "" else Errors[|Errors| - 1].message
    }

    /**
     * How a list closed by end stops: just after end, at the end of the
     * text, or after "Expected expression in list".
     */
    ghost predicate ListEnded(end: byte)
      reads this`n, this`Errors
    {
      || (0 < n <= |str| && str[n - 1] == end) || Get(0) == NUL
      || LastMessage() == "Expected expression in list"
    }

    /**
     * incr: advance by k bytes, stopping at the end of the text, and count
     * the line feeds passed over (parser.go:464-474).  The source recurses
     * once per byte; this loop has the same effect.
     */
    method Incr(k: nat)
      requires Valid()
      modifies this`n, this`l, this`c
      ensures Valid()
      ensures n == old(n) + Min(k, |str| - old(n))
    {
      var i := k;
      while i > 0 && n < |str|
        invariant Valid() && old(n) <= n
        invariant n - old(n) == k - i
        decreases i
      {
        if str[n] == LF {
          l := l + 1;
          c := 0;
        }
        n := n + 1;
        i := i - 1;
      }
    }

    /** addError (parser.go:476-479). */
    method AddError(loc: Location, msg: string)
      modifies this`Errors
      ensures Errors == old(Errors) + [Error(loc, msg)]
    {
      Errors := Errors + [Error(loc, msg)];
    }

    /** parseSpaces: skip blanks (parser.go:430-441). */
    method ParseSpaces()
      requires Valid()
      modifies this`n, this`l, this`c
      ensures Valid()
      ensures n == SpacesEnd(str, old(n))
    {
      while IsSpace(Get(0))
        invariant Valid() && old(n) <= n
        invariant SpacesEnd(str, n) == SpacesEnd(str, old(n))
        decreases |str| - n
      {
        Incr(1);
      }
    }

    /**
     * parseIdentifier: the maximal run of bytes that are not identifier
     * stops, each copied with Go's `string(c)` (parser.go:414-427).
     */
    method ParseIdentifier() returns (id: Bytes)
      requires Valid()
      modifies this`n, this`l, this`c
      ensures Valid()
      ensures n == IdentEnd(str, old(n))
      ensures id == Widen(str[old(n)..n])
      ensures id == [] <==> n == old(n)
    {
      id := [];
      while !IsIdentStop(Get(0))
        invariant Valid() && old(n) <= n
        invariant IdentEnd(str, n) == IdentEnd(str, old(n))
        invariant id == Widen(str[old(n)..n])
        decreases |str| - n
      {
        WidenSnoc(str, old(n), n);
        id := id + RuneBytes(Get(0));
        Incr(1);
      }
    }

    /** The body loop of parseString: bytes up to a `"` or the end (parser.go:396-407). */
    method ParseQuoted() returns (s: Bytes)
      requires Valid()
      modifies this`n, this`l, this`c
      ensures Valid()
      ensures n == QuoteEnd(str, old(n))
      ensures s == Widen(str[old(n)..n])
    {
      s := [];
      while !IsQuoteStop(Get(0))
        invariant Valid() && old(n) <= n
        invariant QuoteEnd(str, n) == QuoteEnd(str, old(n))
        invariant s == Widen(str[old(n)..n])
        decreases |str| - n
      {
        WidenSnoc(str, old(n), n);
        s := s + RuneBytes(Get(0));
        Incr(1);
      }
    }

    /**
     * parseString: at a `"`, the bytes up to the next `"` or the end, with
     * no escapes, consuming the closing quote when there is one; anywhere
     * else, the diagnostic "Expected string" and an empty string
     * (parser.go:387-408).
     */
    method ParseString() returns (s: Bytes)
      requires Valid()
      modifies this`n, this`l, this`c, this`Errors
      ensures Valid() && old(n) <= n
      ensures old(Get(0)) != QUOTE ==>
        && s == [] && n == old(n)
        && Errors == old(Errors) + [Error(old(CurrentLocation()), "Expected string")]
      ensures old(Get(0)) == QUOTE ==>
        var j := QuoteEnd(str, old(n) + 1);
        && s == Widen(str[old(n) + 1..j])
        && n == (if ByteAt(str, j) == QUOTE then j + 1 else j)
        && Errors == old(Errors)
    {
      if Get(0) != QUOTE {
        AddError(CurrentLocation(), "Expected string");
        return [];
      }
      Incr(1);
      s := ParseQuoted();
      if Get(0) == QUOTE {
        Incr(1);
      }
    }

    /**
     * One `.name` link of a chain (parser.go:314-336), at a `.`: the name as
     * a Variable, or the diagnostic "Expected chain identifier" when no
     * name follows.
     */
    method ParseChainLink() returns (v: Option<Expr>)
      requires Valid() && Get(0) == DOT
      modifies this`n, this`l, this`c, this`Errors
      ensures Valid() && old(n) < n && n == LinkEnd(str, old(n))
      ensures LinkStart(str, old(n)) < n ==> v == Some(LinkVariable(str, LinkStart(str, old(n)), n)) && Errors == old(Errors)
      ensures LinkStart(str, old(n)) == n ==> v.None? && Errors == old(Errors) + [MissingLink(str, n)]
    {
      Incr(1);
      ParseSpaces();
      ghost var p := n;
      assert p == LinkStart(str, old(n));
      var idLoc := CurrentLocation();
      var id := ParseIdentifier();
      assert n == LinkEnd(str, old(n));
      if id == [] {
        AddError(CurrentLocation(), "Expected chain identifier");
        assert Errors[|Errors| - 1] == MissingLink(str, n);
        return None;
      }
      v := Some(Variable(EndLocation(idLoc), id));
      assert v.value == LinkVariable(str, p, n);
    }

    /**
     * The `.identifier` loop of parseExpr (parser.go:307-338): the links
     * ChainFrom reads after the head are appended, as Variables, to a single
     * Chain whose first argument is head, and its diagnostics are recorded.
     */
    method ParseChain(head: Expr, start: Location) returns (e: Expr)
      requires Valid() && start.offset <= n && !head.Chain? && head.loc.offset < n
      modifies this`n, this`l, this`c, this`Errors
      ensures Valid()
      ensures n == ChainFrom(str, old(n)).end
      ensures ChainFrom(str, old(n)).links == [] ==> e == head
      ensures ChainFrom(str, old(n)).links != [] ==>
        e.Chain? && e.args == [head] + ChainFrom(str, old(n)).links && e.loc.offset == start.offset
      ensures Errors == old(Errors) + ChainFrom(str, old(n)).missing
      ensures Head(e) == head && ChainShaped(e) && ChainLinked(str, e)
    {
      e := head;
      ghost var links: seq<Expr> := [];
      ghost var missing: seq<Error> := [];
      var stop := false;
      while !stop
        invariant Valid() && old(n) <= n
        invariant ChainBuilt(head, start, e, links, n) && ChainRest(str, links, missing, old(n), n)
        invariant Errors == old(Errors) + missing
        invariant stop ==> ChainFrom(str, n) == ChainRead([], [], n)
        decreases |str| - n, !stop
      {
        e, links, missing, stop := ParseChainRound(head, start, e, links, missing, old(n), old(Errors));
      }
      assert links + [] == links && missing + [] == missing;
      if e.Chain? {
        ChainFromLinked(str, old(n), head, e);
      }
    }

    /**
     * One round of that loop: blanks, then stop unless at a `.`, or read
     * the link after the `.` and append it to the chain.
     */
    method ParseChainRound(ghost head: Expr, start: Location, e: Expr, ghost links: seq<Expr>,
                           ghost missing: seq<Error>, ghost from: nat, ghost errs: seq<Error>)
      returns (e': Expr, ghost links': seq<Expr>, ghost missing': seq<Error>, stop: bool)
      requires Valid() && start.offset <= n && from <= n
      requires ChainBuilt(head, start, e, links, n) && ChainRest(str, links, missing, from, n)
      requires Errors == errs + missing
      modifies this`n, this`l, this`c, this`Errors
      ensures Valid() && old(n) <= n
      ensures ChainBuilt(head, start, e', links', n) && ChainRest(str, links', missing', from, n)
      ensures Errors == errs + missing'
      ensures stop ==> ChainFrom(str, n) == ChainRead([], [], n)
      ensures !stop ==> old(n) < n
    {
      e', links', missing' := e, links, missing;
      ghost var top := n;
      ParseSpaces();
      ghost var dot := n;
      if Get(0) != DOT {
        ChainRestStop(str, links, missing, from, top, dot);
        return e', links', missing', true;
      }
      var v := ParseChainLink();
      stop := false;
      if v.Some? {
        if !e'.Chain? {
          e' := Chain(start, [e']);
        }
        e' := Chain(EndLocation(e'.loc), e'.args + [v.value]);
        ChainBuiltSnoc(head, start, e, links, top, v.value, e', n);
        ChainRestLink(str, links, missing, from, top, dot);
        links' := links + [v.value];
      } else {
        ChainRestMissing(str, links, missing, from, top, dot);
        assert (errs + missing) + [MissingLink(str, n)] == errs + (missing + [MissingLink(str, n)]);
        missing' := missing + [MissingLink(str, n)];
      }
    }

    /**
     * The first part of parseExpr, after the blanks (parser.go:231-305):
     * the expression the next byte announces, and the location a chain
     * built on it starts at.  Returns None exactly when that byte can start
     * nothing (the end of the text, `,`, `)` and the other identifier
     * stops, and in literal mode `[` and `{` too); then nothing is consumed
     * or reported.  In literal mode nothing is ever reported.
     */
    method ParseHead(literal: bool) returns (head: Option<Expr>, loc: Location)
      requires Valid()
      modifies this`n, this`l, this`c, this`Errors
      ensures Valid() && old(n) <= n && old(Errors) <= Errors
      ensures loc.offset == old(n)
      ensures head.Some? ==> head.value.loc.offset == old(n)
      ensures
        var b := old(Get(0));
        && (head.None? <==> !StartsExpr(b, literal))
        && (head.None? ==> n == old(n) && Errors == old(Errors))
        && (head.Some? ==> old(n) < n && !head.value.Chain? && HeadMatches(b, head.value))
        && (head.Some? ==> HeadText(str, old(n), head.value))
        && (literal ==> Errors == old(Errors))
        && (literal && head.Some? ==> IsLiteral(head.value) && n == LiteralEnd(str, old(n)))
        && (b == QUOTE ==> n == StringEnd(str, old(n)))
        && (!literal && !IsIdentStop(b) ==>
              (head.value.FuncCall? <==> ByteAt(str, SpacesEnd(str, IdentEnd(str, old(n)))) == LPAREN))
        && (!literal && !IsIdentStop(b) && head.Some? && head.value.Variable? ==>
              n == SpacesEnd(str, IdentEnd(str, old(n))))
      decreases |str| - n, 1
    {
      loc := CurrentLocation();
      var b := Get(0);
      if b == NUL || b == COMMA || b == RPAREN {
        return None, loc;
      } else if b == QUOTE {
        var s := ParseString();
        head := Some(String(EndLocation(loc), s));
      } else if b == LBRACKET {
        if literal {
          return None, loc;
        }
        var args, _ := ParseExprList();
        head := Some(Array(EndLocation(loc), args));
      } else if b == LBRACE {
        if literal {
          return None, loc;
        }
        Incr(1);
        var _, bindings, _, _ := ParseResourceContent(None, map[]);
        ParseSpaces();
        head := Some(Object(EndLocation(loc), bindings));
        if Get(0) == RBRACE {
          Incr(1);
        }
      } else {
        var id := ParseIdentifier();
        loc := EndLocation(loc);
        if id == [] {
          return None, loc;
        }
        if literal {
          return Some(Variable(loc, id)), loc;
        }
        ParseSpaces();
        if Get(0) == LPAREN {
          var args, _ := ParseExprList();
          head := Some(FuncCall(EndLocation(loc), id, args));
        } else {
          head := Some(Variable(loc, id));
        }
      }
    }

    /**
     * parseExpr (parser.go:227-340): blanks, the head, then in non-literal
     * mode the `.name` chain.  In literal mode only a string or a bare
     * identifier is accepted and nothing is reported.
     */
    method ParseExpr(literal: bool) returns (e: Option<Expr>, ghost h: nat)
      requires Valid()
      modifies this`n, this`l, this`c, this`Errors
      ensures Valid() && old(n) <= n && old(Errors) <= Errors
      ensures
        var p := SpacesEnd(str, old(n));
        var b := ByteAt(str, p);
        && (e.None? <==> !StartsExpr(b, literal))
        && (e.None? ==> n == p && Errors == old(Errors))
        && (e.Some? ==> p < n && e.value.loc.offset == p && ExprAt(str, e.value))
        && (!literal && !IsIdentStop(b) ==>
              (Head(e.value).FuncCall? <==> ByteAt(str, SpacesEnd(str, IdentEnd(str, p))) == LPAREN))
        && (literal ==> Errors == old(Errors))
        && (literal && e.Some? ==> IsLiteral(e.value) && n == LiteralEnd(str, p))
      ensures !literal && e.Some? ==>
        && SpacesEnd(str, old(n)) < h <= n && Folded(str, h, e.value)
        && n == ChainFrom(str, h).end && EndsWith(Errors, ChainFrom(str, h).missing)
      ensures
        var p := SpacesEnd(str, old(n));
        && (!literal && e.Some? && ByteAt(str, p) == QUOTE ==> h == StringEnd(str, p))
        && (!literal && e.Some? && !IsIdentStop(ByteAt(str, p)) && !Head(e.value).FuncCall? ==>
              h == SpacesEnd(str, IdentEnd(str, p)))
      ensures !literal && e.Some? ==> ChainPinned(str, e.value)
      decreases |str| - n, 2
    {
      ParseSpaces();
      ghost var p := n;
      var head, loc := ParseHead(literal);
      h := n;
      assert head.Some? ==> p < |str| && HeadMatches(str[p], head.value) && HeadText(str, p, head.value);
      if head.None? || literal {
        return head, h;
      }
      ghost var errs := Errors;
      var chained := ParseChain(head.value, loc);
      assert Errors[|errs|..] == ChainFrom(str, h).missing;
      return Some(chained), h;
    }

    /**
     * parseExprList: `(` or `[`, then the items up to the matching closer
     * (parser.go:344-384).  Anywhere but at `(` or `[` it returns nothing
     * at once.
     */
    method ParseExprList() returns (es: seq<Expr>, ghost rounds: seq<Round<Expr>>)
      requires Valid()
      modifies this`n, this`l, this`c, this`Errors
      ensures Valid() && old(n) <= n && old(Errors) <= Errors
      ensures old(Get(0)) != LPAREN && old(Get(0)) != LBRACKET ==>
        es == [] && n == old(n) && Errors == old(Errors)
      ensures old(Get(0)) == LPAREN || old(Get(0)) == LBRACKET ==>
        && old(n) < n
        && ListEnded(Closing(old(Get(0))))
        && ExprsIn(str, es, old(n) + 1, n)
        && rounds != [] && ItemRoundsIn(str, rounds, old(n) + 1, n) && es == Reads(rounds)
      decreases |str| - n, 0
    {
      var open := Get(0);
      if open != LPAREN && open != LBRACKET {
        return [], [];
      }
      Incr(1);
      es, rounds := ParseListItems(Closing(open));
    }

    /**
     * The item loop of parseExprList (parser.go:358-383).  It stops after
     * the closer end, at the end of the text, or after "Expected expression
     * in list".
     */
    method ParseListItems(end: byte) returns (es: seq<Expr>, ghost rounds: seq<Round<Expr>>)
      requires Valid()
      modifies this`n, this`l, this`c, this`Errors
      ensures Valid() && old(n) <= n && old(Errors) <= Errors
      ensures ListEnded(end)
      ensures ExprsIn(str, es, old(n), n)
      ensures rounds != [] && ItemRoundsIn(str, rounds, old(n), n) && es == Reads(rounds)
      decreases |str| - n, 5
    {
      es, rounds := [], [];
      while true
        invariant Valid() && old(n) <= n && old(Errors) <= Errors
        invariant ExprsIn(str, es, old(n), n) && ItemRoundsIn(str, rounds, old(n), n) && es == Reads(rounds)
        invariant rounds == [] ==> n == old(n)
        invariant rounds != [] ==> rounds[|rounds| - 1].start < n && rounds[|rounds| - 1].read.Some?
        decreases |str| - n
      {
        var done;
        es, rounds, done := ParseListRound(end, es, rounds, old(n));
        if done {
          return;
        }
      }
    }

    /** One round of that loop: its item, if any, is appended to those read before. */
    method ParseListRound(end: byte, es: seq<Expr>, ghost rounds: seq<Round<Expr>>, ghost from: nat)
      returns (es': seq<Expr>, ghost rounds': seq<Round<Expr>>, done: bool)
      requires Valid() && from <= n
      requires ExprsIn(str, es, from, n) && ItemRoundsIn(str, rounds, from, n) && es == Reads(rounds)
      requires rounds == [] ==> n == from
      requires rounds != [] ==> rounds[|rounds| - 1].start < n && rounds[|rounds| - 1].read.Some?
      modifies this`n, this`l, this`c, this`Errors
      ensures Valid() && old(n) <= n && old(Errors) <= Errors
      ensures ExprsIn(str, es', from, n) && ItemRoundsIn(str, rounds', from, n) && es' == Reads(rounds')
      ensures |rounds'| == |rounds| + 1 && rounds'[..|rounds|] == rounds && rounds'[|rounds|].start == old(n)
      ensures !done ==> old(n) < n && rounds'[|rounds|].read.Some?
      ensures done ==> ListEnded(end)
      decreases |str| - n, 4
    {
      ghost var at := n;
      var e;
      e, done := ParseListItem(end);
      ItemRoundsSnoc(str, rounds, from, at, e, n);
      if e.Some? {
        ExprsSnoc(str, es, e.value, from, at, n);
      }
      rounds' := rounds + [Round(at, e)];
      es' := es + (if e.Some? then [e.value] else []);
    }

    /**
     * One round of that loop: an expression, then the closer end (consumed,
     * the list is done), the end of the text (done), or an optional `,`.
     * A round that reads no expression and meets no closer records
     * "Expected expression in list" and ends the list.
     */
    method ParseListItem(end: byte) returns (e: Option<Expr>, done: bool)
      requires Valid()
      modifies this`n, this`l, this`c, this`Errors
      ensures Valid() && old(n) <= n && old(Errors) <= Errors
      ensures !done ==> old(n) < n && e.Some?
      ensures done ==> ListEnded(end)
      ensures e.Some? <==> StartsExpr(ByteAt(str, SpacesEnd(str, old(n))), false)
      ensures e.Some? ==> e.value.loc.offset == SpacesEnd(str, old(n)) && e.value.loc.offset < n
      ensures e.Some? ==> ExprAt(str, e.value) && ChainPinned(str, e.value)
      decreases |str| - n, 3
    {
      ghost var h;
      e, h := ParseExpr(false);
      done := ParseListSeparator(end, e.None?);
    }

    /**
     * What follows an item, or the place of a missing one: blanks, then the
     * closer end (consumed, the list is done), the end of the text (done),
     * or an optional `,`.  When the item is missing and no closer was met,
     * "Expected expression in list" is recorded and the list is done.
     */
    method ParseListSeparator(end: byte, missing: bool) returns (done: bool)
      requires Valid()
      modifies this`n, this`l, this`c, this`Errors
      ensures Valid() && old(n) <= n && old(Errors) <= Errors
      ensures !done ==> !missing
      ensures done ==> ListEnded(end)
    {
      ParseSpaces();
      var b := Get(0);
      if b == end {
        ghost var at := n;
        Incr(1);
        assert at < |str| ==> n == at + 1 && str[n - 1] == end;
        return true;
      } else if b == NUL {
        return true;
      } else if b == COMMA {
        Incr(1);
      }
      if missing {
        AddError(CurrentLocation(), "Expected expression in list");
        return true;
      }
      done := false;
    }

    /**
     * A binding statement after its name id, at `+` or `=` (parser.go:118-175).
     * A `+` not followed by `=` is reported and read as `+=`.  Without an
     * expression after the operator "Expected expression" is reported and
     * no statement results.
     */
    method ParseBinding(id: Bytes, loc: Location) returns (op: Option<BindingOp>)
      requires Valid() && (Get(0) == PLUS || Get(0) == EQUALS)
      modifies this`n, this`l, this`c, this`Errors
      ensures Valid() && old(n) < n && old(Errors) <= Errors
      ensures op.Some? ==> op.value.name == id && op.value.loc == loc
      ensures op.Some? ==> (op.value.Accumulate? <==> old(Get(0)) == PLUS)
      ensures old(Get(0)) == PLUS && old(Get(1)) != EQUALS ==>
        |old(Errors)| < |Errors|
        && Errors[|old(Errors)|] == Error(old(CurrentLocation()), "Incorrect binding operator '+'")
      ensures op.None? ==> LastMessage() == "Expected expression"
      ensures
        var o := SpacesEnd(str, OperatorEnd(str, old(n)));
        && (op.Some? <==> StartsExpr(ByteAt(str, o), false))
        && (op.Some? ==> o == op.value.expr.loc.offset < n && ExprAt(str, op.value.expr))
        && (op.Some? ==> ChainPinned(str, op.value.expr))
      decreases |str| - n, 4
    {
      var accumulate, opLoc := ParseOperator();
      ghost var errs := Errors;
      var e := ParseOperand();
      if e.None? {
        return None;
      }
      op := Some(if accumulate then Accumulate(loc, opLoc, id, e.value) else Assign(loc, id, e.value));
      assert Errors[..|errs|] == errs;
    }

    /**
     * The binding operator (parser.go:118-125, 159-160): `+=` or `=`, and a `+`
     * without `=`, which is reported and then read as `+=`.
     */
    method ParseOperator() returns (accumulate: bool, opLoc: Location)
      requires Valid() && (Get(0) == PLUS || Get(0) == EQUALS)
      modifies this`n, this`l, this`c, this`Errors
      ensures Valid() && n == OperatorEnd(str, old(n))
      ensures accumulate <==> old(Get(0)) == PLUS
      ensures opLoc == old(CurrentLocation())
      ensures old(Get(0)) == PLUS && old(Get(1)) != EQUALS ==>
        Errors == old(Errors) + [Error(opLoc, "Incorrect binding operator '+'")]
      ensures !(old(Get(0)) == PLUS && old(Get(1)) != EQUALS) ==> Errors == old(Errors)
    {
      opLoc := CurrentLocation();
      accumulate := Get(0) == PLUS;
      if !accumulate {
        Incr(1);
      } else if Get(1) == EQUALS {
        Incr(2);
      } else {
        AddError(opLoc, "Incorrect binding operator '+'");
        Incr(1);
      }
    }

    /**
     * The expression after a binding operator (parser.go:130-134, 159-163),
     * then blanks and an optional `,` (parser.go:155-158, 164-167).  With no
     * expression, "Expected expression" is reported where it should start
     * and nothing more is read.
     */
    method ParseOperand() returns (e: Option<Expr>)
      requires Valid()
      modifies this`n, this`l, this`c, this`Errors
      ensures Valid() && old(n) <= n
      ensures e.Some? <==> StartsExpr(ByteAt(str, SpacesEnd(str, old(n))), false)
      ensures e.Some? ==>
        && SpacesEnd(str, old(n)) == e.value.loc.offset < n && ExprAt(str, e.value)
        && ChainPinned(str, e.value) && old(Errors) <= Errors
      ensures e.None? ==>
        && n == SpacesEnd(str, old(n))
        && Errors == old(Errors) + [Error(PointAt(str, n), "Expected expression")]
      decreases |str| - n, 3
    {
      ghost var h;
      e, h := ParseExpr(false);
      if e.None? {
        AddError(CurrentLocation(), "Expected expression");
        return;
      }
      ghost var errs := Errors;
      assert old(Errors) <= errs;
      ParseSpaces();
      if Get(0) == COMMA {
        Incr(1);
      }
      assert Errors == errs;
    }

    /**
     * parseResourceContent (parser.go:94-216): statements up to `}` or the
     * end of the text.  The binding statements go, in order, into `ops`,
     * and the returned map is their replay over the given one.
     */
    method ParseResourceContent(res: Option<Resource>, bindings: Bindings)
      returns (res': Option<Resource>, bindings': Bindings, ghost ops: seq<BindingOp>, ghost rounds: seq<Round<BindingOp>>)
      requires Valid()
      modifies this`n, this`l, this`c, this`Errors
      ensures Valid() && old(n) <= n && old(Errors) <= Errors
      ensures bindings' == Replay(bindings, ops)
      ensures res'.Some? <==> res.Some?
      ensures res.Some? ==> Extends(res.value, res'.value)
      ensures StatementsIn(str, ops, old(n), n)
      ensures rounds != [] && RoundsIn(str, rounds, old(n), n) && ops == Reads(rounds)
      ensures Get(0) == RBRACE || Get(0) == NUL
           || (LastMessage() == "Expected identifier" && IsIdentStop(Get(0)))
      decreases |str| - n, 6
    {
      res', bindings', ops, rounds := res, bindings, [], [];
      while true
        invariant Valid() && old(n) <= n && old(Errors) <= Errors
        invariant bindings' == Replay(bindings, ops)
        invariant res'.Some? <==> res.Some?
        invariant res.Some? ==> Extends(res.value, res'.value)
        invariant StatementsIn(str, ops, old(n), n)
        invariant RoundsIn(str, rounds, old(n), n) && ops == Reads(rounds)
        invariant rounds == [] ==> n == old(n)
        invariant rounds != [] ==> rounds[|rounds| - 1].start < n
        decreases |str| - n
      {
        var done;
        res', bindings', ops, rounds, done := ParseContentRound(res, bindings, res', bindings', ops, rounds, old(n));
        if done {
          return;
        }
      }
    }

    /**
     * One round of that loop: a statement, whose binding operation, if
     * any, is applied to the bindings and recorded after the earlier ones.
     */
    method ParseContentRound(ghost res0: Option<Resource>, ghost bindings0: Bindings, res: Option<Resource>,
                             bindings: Bindings, ghost ops: seq<BindingOp>, ghost rounds: seq<Round<BindingOp>>, ghost from: nat)
      returns (res': Option<Resource>, bindings': Bindings, ghost ops': seq<BindingOp>, ghost rounds': seq<Round<BindingOp>>,
               done: bool)
      requires Valid() && from <= n
      requires bindings == Replay(bindings0, ops)
      requires res.Some? <==> res0.Some?
      requires res0.Some? ==> Extends(res0.value, res.value)
      requires StatementsIn(str, ops, from, n)
      requires RoundsIn(str, rounds, from, n) && ops == Reads(rounds)
      requires rounds == [] ==> n == from
      requires rounds != [] ==> rounds[|rounds| - 1].start < n
      modifies this`n, this`l, this`c, this`Errors
      ensures Valid() && old(n) <= n && old(Errors) <= Errors
      ensures bindings' == Replay(bindings0, ops')
      ensures res'.Some? <==> res0.Some?
      ensures res0.Some? ==> Extends(res0.value, res'.value)
      ensures StatementsIn(str, ops', from, n)
      ensures RoundsIn(str, rounds', from, n) && ops' == Reads(rounds')
      ensures |rounds'| == |rounds| + 1 && rounds'[..|rounds|] == rounds && rounds'[|rounds|].start == old(n)
      ensures ops' == ops || (ops' == ops + [ops'[|ops|]] && ops'[|ops|].loc.offset == SpacesEnd(str, old(n)))
      ensures !done ==> old(n) < n
      ensures done ==>
        Get(0) == RBRACE || Get(0) == NUL
        || (LastMessage() == "Expected identifier" && IsIdentStop(Get(0)))
      decreases |str| - n, 5
    {
      ghost var mid := n;
      var op;
      res', op, done := ParseStatement(res);
      if res0.Some? {
        ExtendsTrans(res0.value, res.value, res'.value);
      }
      RoundsSnoc(str, rounds, from, mid, op, n);
      rounds' := rounds + [Round(mid, op)];
      if op.Some? {
        StatementsSnoc(str, ops, op.value, from, mid, n);
        ReplaySnoc(bindings0, ops, op.value);
        bindings', ops' := Apply(bindings, op.value), ops + [op.value];
      } else {
        StatementsWiden(str, ops, from, mid, n);
        bindings', ops' := bindings, ops;
      }
    }

    /**
     * One round of the loop of parseResourceContent (parser.go:97-214):
     * blanks, then an identifier and what follows it.  The content is done
     * at `}` or the end of the text (both left unconsumed), or after
     * "Expected identifier" at the first byte that cannot start one.
     */
    method ParseStatement(res: Option<Resource>)
      returns (res': Option<Resource>, op: Option<BindingOp>, done: bool)
      requires Valid()
      modifies this`n, this`l, this`c, this`Errors
      ensures Valid() && old(n) <= n && old(Errors) <= Errors
      ensures res'.Some? <==> res.Some?
      ensures res.Some? ==> Extends(res.value, res'.value)
      ensures op.Some? ==> res' == res && !done
      ensures !done ==> old(n) < n
      ensures done ==>
        Get(0) == RBRACE || Get(0) == NUL
        || (LastMessage() == "Expected identifier" && IsIdentStop(Get(0)))
      ensures
        var p := SpacesEnd(str, old(n));
        && (ByteAt(str, p) == RBRACE || ByteAt(str, p) == NUL ==>
              done && n == p && Errors == old(Errors) && res' == res && op.None?)
        && (ByteAt(str, p) != RBRACE && ByteAt(str, p) != NUL && IdentEnd(str, p) == p ==>
              && done && n == p && res' == res && op.None?
              && Errors == old(Errors) + [Error(PointAt(str, p), "Expected identifier")])
      ensures op.Some? <==> BindingAt(str, SpacesEnd(str, old(n)))
      ensures op.Some? ==> StatementAt(str, op.value) && SpacesEnd(str, old(n)) == op.value.loc.offset < n
      decreases |str| - n, 4
    {
      res', op, done := res, None, true;
      ParseSpaces();
      var loc := CurrentLocation();
      var b := Get(0);
      if b == RBRACE || b == NUL {
        return;
      }
      var id := ParseIdentifier();
      if id == [] {
        AddError(loc, "Expected identifier");
        return;
      }
      loc := EndLocation(loc);
      res', op, done := ParseStatementRest(res, id, loc);
    }

    /**
     * What parseResourceContent does after the identifier id at loc
     * (parser.go:111-213), read from k, the end of id, past the blanks
     * after it, to q: nothing at the end of the text; a binding statement
     * at `+` or `=`; in an object's content, where res is None, the
     * diagnostics "Expected operator after identifier for binding" at q
     * and "identifier is here" at loc; otherwise a nested block of res
     * named id.
     */
    ghost predicate Ahead(res: Option<Resource>, res': Option<Resource>, op: Option<BindingOp>, id: Bytes,
                          loc: Location, k: nat, errs: seq<Error>, errs0: seq<Error>)
      reads this`n
      requires k <= |str|
    {
      var q := SpacesEnd(str, k);
      var b := ByteAt(str, q);
      && (b == NUL ==> n == q && errs == errs0 && res' == res && op.None?)
      && (b == PLUS || b == EQUALS ==>
            && res' == res
            && (op.Some? ==>
                  && op.value.name == id && op.value.loc == loc && (op.value.Accumulate? <==> b == PLUS)
                  && q < op.value.expr.loc.offset < n && ExprAt(str, op.value.expr)
                  && ChainPinned(str, op.value.expr))
            && (op.Some? <==> q < |str| && StartsExpr(ByteAt(str, SpacesEnd(str, OperatorEnd(str, q))), false))
            && (op.None? ==> errs != [] && errs[|errs| - 1].message == "Expected expression"))
      && (b != NUL && b != PLUS && b != EQUALS ==> op.None?)
      && (b != NUL && b != PLUS && b != EQUALS && res.None? ==>
            && n == q && res' == res
            && errs == errs0 + [Error(PointAt(str, q), "Expected operator after identifier for binding"),
                                Error(loc, "identifier is here")])
      && (b != NUL && b != PLUS && b != EQUALS && res.Some? ==>
            && res'.Some? && |res'.value.resources| == |res.value.resources| + 1
            && res'.value.resources[|res.value.resources|].name == id
            && res'.value.resources[|res.value.resources|].loc.offset == loc.offset)
    }

    /**
     * The rest of a statement after its identifier (parser.go:111-213):
     * the content is done at the end of the text, and otherwise what
     * Ahead describes happens.
     */
    method ParseStatementRest(res: Option<Resource>, id: Bytes, loc: Location)
      returns (res': Option<Resource>, op: Option<BindingOp>, done: bool)
      requires Valid() && loc.offset <= n
      modifies this`n, this`l, this`c, this`Errors
      ensures Valid() && old(n) <= n && old(Errors) <= Errors
      ensures res'.Some? <==> res.Some?
      ensures res.Some? ==> Extends(res.value, res'.value)
      ensures done <==> ByteAt(str, SpacesEnd(str, old(n))) == NUL
      ensures done ==> Get(0) == NUL
      ensures Ahead(res, res', op, id, loc, old(n), Errors, old(Errors))
      decreases |str| - n, 6
    {
      res', op, done := res, None, true;
      ParseSpaces();
      var b := Get(0);
      if b == NUL {
        return;
      }
      done := false;
      if b == PLUS || b == EQUALS {
        op := ParseBinding(id, loc);
      } else if res.None? {
        AddError(CurrentLocation(), "Expected operator after identifier for binding");
        AddError(loc, "identifier is here");
      } else {
        var r, _, _, _, _ := ParseResourceDecl(res.value, id, loc);
        res' := Some(r);
      }
    }

    /**
     * The descriptor loop of a block header (parser.go:188-195): literals
     * until one cannot be read.  Nothing is reported.
     */
    method ParseDescriptors() returns (ds: seq<Expr>)
      requires Valid()
      modifies this`n, this`l, this`c, this`Errors
      ensures Valid() && old(n) <= n && Errors == old(Errors)
      ensures n == LiteralsEnd(str, old(n))
      ensures forall i | 0 <= i < |ds| :: IsLiteral(ds[i])
      ensures ExprsIn(str, ds, old(n), n)
      ensures IsIdentStop(Get(0)) && Get(0) != QUOTE && !IsSpace(Get(0))
      decreases |str| - n, 3
    {
      ds := [];
      while true
        invariant Valid() && old(n) <= n && Errors == old(Errors)
        invariant LiteralsEnd(str, n) == LiteralsEnd(str, old(n))
        invariant forall i | 0 <= i < |ds| :: IsLiteral(ds[i])
        invariant ExprsIn(str, ds, old(n), n)
        decreases |str| - n
      {
        ghost var at, p := n, SpacesEnd(str, n);
        var lit, _ := ParseExpr(true);
        if lit.None? {
          return;
        }
        assert n == LiteralEnd(str, p) && IsLiteral(lit.value);
        assert LiteralsEnd(str, at) == LiteralsEnd(str, n);
        ExprsSnoc(str, ds, lit.value, old(n), at, n);
        ds := ds + [lit.value];
      }
    }

    /**
     * A nested block after its name id (parser.go:182-213): literal
     * descriptors, an optional attribute list, then `{` content `}`.
     * The new block is added to res before its header is read, and, as
     * written, the descriptors are appended to the ENCLOSING block res,
     * not to the new one (parser.go:194); the new block only receives the
     * descriptors of blocks nested inside it.  Without `{` the diagnostics
     * "Expected { to start resource" and "Resource starts here" are
     * recorded and the new block keeps no bindings and no blocks.
     */
    method ParseResourceDecl(res: Resource, id: Bytes, loc: Location)
      returns (res': Resource, ghost at: nat, ghost hasBody: bool, ghost ops: seq<BindingOp>, ghost rounds: seq<Round<BindingOp>>)
      requires Valid() && loc.offset <= n
      modifies this`n, this`l, this`c, this`Errors
      ensures Valid() && old(n) <= n && old(Errors) <= Errors
      ensures Extends(res, res') && |res'.resources| == |res.resources| + 1
      ensures old(n) <= at <= n && !IsSpace(ByteAt(str, at))
      ensures ByteAt(str, LiteralsEnd(str, old(n))) != LPAREN ==> at == LiteralsEnd(str, old(n))
      ensures ByteAt(str, LiteralsEnd(str, old(n))) == LPAREN ==> LiteralsEnd(str, old(n)) < at
      ensures ExprsIn(str, res'.descriptors[|res.descriptors|..], old(n), LiteralsEnd(str, old(n)))
      ensures hasBody <==> ByteAt(str, at) == LBRACE
      ensures hasBody ==> StatementsIn(str, ops, at, n)
      ensures hasBody ==> rounds != [] && RoundsIn(str, rounds, at + 1, n) && ops == Reads(rounds)
      ensures
        var r := res'.resources[|res.resources|];
        && r.name == id && r.loc.offset == loc.offset
        && r.bindings == Replay(map[], ops)
        && (forall i | 0 <= i < |r.descriptors| :: IsLiteral(r.descriptors[i]))
        && (r.resources == [] ==> r.descriptors == [])
        && (!hasBody ==>
              && ops == [] && r.resources == [] && n == at
              && |Errors| >= 2
              && Errors[|Errors| - 2] == Error(PointAt(str, at), "Expected { to start resource")
              && Errors[|Errors| - 1] == Error(loc, "Resource starts here"))
      decreases |str| - n, 5
    {
      var descriptors, r := ParseHeader(Resource(loc, id, [], [], map[], []));
      at := n;
      r, hasBody, ops, rounds := ParseBlockBody(r, loc);
      res' := res.(descriptors := res.descriptors + descriptors, resources := res.resources + [r]);
      assert res'.descriptors[|res.descriptors|..] == descriptors;
    }

    /**
     * The header of a new block r after its name (parser.go:188-200): the
     * literal descriptors, then, at `(`, the attribute list and the blanks
     * after it.  The cursor ends on the first byte after the header.
     */
    method ParseHeader(r: Resource) returns (ds: seq<Expr>, r': Resource)
      requires Valid() && r.loc.offset <= n
      modifies this`n, this`l, this`c, this`Errors
      ensures Valid() && old(n) <= n && old(Errors) <= Errors
      ensures forall i | 0 <= i < |ds| :: IsLiteral(ds[i])
      ensures ExprsIn(str, ds, old(n), LiteralsEnd(str, old(n)))
      ensures !IsSpace(Get(0))
      ensures ByteAt(str, LiteralsEnd(str, old(n))) != LPAREN ==> n == LiteralsEnd(str, old(n)) && r' == r
      ensures ByteAt(str, LiteralsEnd(str, old(n))) == LPAREN ==> LiteralsEnd(str, old(n)) < n
      ensures r' == r.(attributes := r'.attributes, loc := r'.loc) && r'.loc.offset == r.loc.offset <= n
      decreases |str| - n, 4
    {
      ds := ParseDescriptors();
      r' := r;
      if Get(0) == LPAREN {
        var attributes, _ := ParseExprList();
        r' := r'.(attributes := attributes, loc := EndLocation(r'.loc));
        ParseSpaces();
      }
    }

    /**
     * The body of a new block r, after its header (parser.go:201-212):
     * `{` content `}`, or the two diagnostics for a missing `{`, the second
     * at start, where the block's name is.
     */
    method ParseBlockBody(r: Resource, start: Location)
      returns (r': Resource, ghost hasBody: bool, ghost ops: seq<BindingOp>, ghost rounds: seq<Round<BindingOp>>)
      requires Valid() && r.loc.offset <= n
      requires r.descriptors == [] && r.bindings == map[] && r.resources == []
      modifies this`n, this`l, this`c, this`Errors
      ensures Valid() && old(n) <= n && old(Errors) <= Errors
      ensures r'.name == r.name && r'.attributes == r.attributes && r'.loc.offset == r.loc.offset
      ensures r'.bindings == Replay(map[], ops)
      ensures forall i | 0 <= i < |r'.descriptors| :: IsLiteral(r'.descriptors[i])
      ensures r'.resources == [] ==> r'.descriptors == []
      ensures hasBody <==> old(Get(0)) == LBRACE
      ensures StatementsIn(str, ops, old(n), n)
      ensures hasBody ==> rounds != [] && RoundsIn(str, rounds, old(n) + 1, n) && ops == Reads(rounds)
      ensures !hasBody ==>
        && r' == r && ops == [] && rounds == [] && n == old(n)
        && Errors == old(Errors)
             + [Error(old(CurrentLocation()), "Expected { to start resource"), Error(start, "Resource starts here")]
      decreases |str| - n, 3
    {
      hasBody := Get(0) == LBRACE;
      if Get(0) != LBRACE {
        AddError(CurrentLocation(), "Expected { to start resource");
        AddError(start, "Resource starts here");
        return r, hasBody, [], [];
      }
      Incr(1);
      var body, bindings;
      body, bindings, ops, rounds := ParseResourceContent(Some(r), r.bindings);
      ghost var mid := n;
      r' := body.value.(bindings := bindings);
      r' := r'.(loc := EndLocation(r'.loc));
      ParseSpaces();
      if Get(0) == RBRACE {
        r' := r'.(loc := EndLocation(r'.loc));
        Incr(1);
      }
      RoundsWiden(str, rounds, old(n) + 1, mid, n);
    }

    /**
     * Parse: the whole text as the content of the root block
     * (parser.go:86-88).  A stray `}` at the top level ends the parse
     * without a diagnostic.
     */
    method Parse() returns (ghost ops: seq<BindingOp>, ghost rounds: seq<Round<BindingOp>>)
      requires Valid()
      modifies this`n, this`l, this`c, this`Errors, this`Root
      ensures Valid() && old(Errors) <= Errors
      ensures Extends(old(Root), Root.(bindings := old(Root).bindings))
      ensures Root.bindings == Replay(old(Root).bindings, ops)
      ensures StatementsIn(str, ops, old(n), n)
      ensures rounds != [] && RoundsIn(str, rounds, old(n), n) && ops == Reads(rounds)
      ensures Get(0) == RBRACE || Get(0) == NUL
           || (LastMessage() == "Expected identifier" && IsIdentStop(Get(0)))
    {
      var root, bindings, ops', rounds' := ParseResourceContent(Some(Root), Root.bindings);
      Root := root.value.(bindings := bindings);
      ops, rounds := ops', rounds';
    }
  }
}
