# mgmt configuration front end, in Dafny

This project models the two sequential components that turn an mgmt
configuration text into a resource graph. They are the front of the
engine:

1. **The recursive-descent parser** (`parser/parser.go`). A `Parser`
   holds the text and a byte cursor: `n` is the offset, `l` the line
   count and `c` the column. It reads the file as the content of a root
   block, and the content is made of:
   - bindings: `name = expr` and `name += expr`;
   - nested blocks: `name descriptors... (attributes) { content }`.

   Expressions are strings, identifiers, function calls, arrays,
   objects and `.name` chains. The parser builds a tree of `Resource`,
   `Binding` and `Expr` nodes. It never aborts on a problem: it appends
   a diagnostic to `Errors` and carries on.

2. **The evaluator and graph builder** (`newgraph/gconfig.go`):
   - `evalExpr` turns an expression into a plain value: a string, a
     list or a map. A chain, a function call or a variable is an error
     carrying its line and column.
   - `GraphConfig.Parse` turns every top-level `resource` block into a
     resource record and appends it to `ResList`.
   - `NewGraphFromConfig` builds a fresh graph from `ResList`:
     - resources named `@@...` are exported to the World rather than
       becoming vertices;
     - equal resources share one vertex;
     - the declared edges are resolved through a kind → name → vertex
       lookup.

The model follows the source's form:
- `Parser` and `GraphConfig` are classes whose methods update their
  fields. The loops are `while` loops with invariants.
- `evalExpr` and the specifications of `Parse` and `NewGraphFromConfig`
  are pure functions. Lemmas state their properties.
- Each imperative method is proved against its function:
  - `GraphConfig.Parse` against `Records.ParseRun`;
  - `GraphConfig.NewGraphFromConfig` against `GraphBuild.NewGraph`;
  - `Evaluate` against `EvalExpr`;
  - the parser's scanning loops against `SpacesEnd`, `IdentEnd` and
    `QuoteEnd`;
  - its chain loop against `ChainFrom`, the `.name` links the text holds
    after an expression's head.
- The parser's content loop returns the binding statements it read as a
  ghost sequence. `StatementsIn` ties each of them to the text: its name
  is the identifier at its offset, its operator is the next byte, and
  its expression is read after that, with the `.name` chain after a
  string or identifier head read where that head ends (`ChainPinned`),
  at rising offsets. The loop also
  returns its rounds (`Round`): where each began and what it read. A round
  reads a statement exactly when a binding starts at its first non-blank
  byte (`BindingAt`), and the statements are exactly the rounds' reads.
  The returned bindings are `Replay` of those statements. List items are
  traced the same way.

Behaviour of the source that the model keeps as written:

- **Descriptors go to the enclosing block.** A block header's
  descriptors are appended to the *enclosing* block, not to the new one
  (parser.go:194). So a top-level `resource file "f1" { ... }` contributes
  its descriptors to the root. The `resource` block itself only has
  descriptors when it has nested blocks, and then they are the headers of
  those blocks. `Records.Compile` therefore rejects a `resource` block
  with no nested blocks with the "resource kind not specified" error
  (`KindMissing`). `Parser.Parser.ParseResourceDecl` and
  `Records.Compile` state both halves of this.
- **The column is never advanced.** The column counter is only reset on
  a line feed (parser.go:468-471). Every location therefore has column 0,
  and `Parser.Parser.Valid` records that.
- **A zero byte ends the input.** `get` returns 0 past the end of the
  text, so a NUL byte inside the text stops every scanning loop as the end
  of input would.
- **Bytes are widened when copied.** Identifiers and string contents are
  accumulated with `string(c)` on a byte, which Go reads as a code point.
  Bytes from 0x80 on therefore become two-byte UTF-8 sequences
  (`Bytes.Widen`). It is the identity on ASCII text and injective.
- **A stray `}` ends the top level.** A `}` at the top level ends the
  parse, and no diagnostic is recorded.
- **Edge kinds are capitalised, lookup keys are not.** Edge kinds go
  through `FirstToUpper` before the lookup, but the lookup is keyed by the
  kinds exactly as the records carry them; the source marks this with a
  casing TODO (gconfig.go:174). An edge can only reach resources whose
  kind does not start with a lower-case ASCII letter.
  `GraphBuild.LowerCaseKindsHaveNoEdges` proves that with lower-case kinds
  any declared edge makes `NewGraphFromConfig` fail.
- **Exported records are renamed in place.** The `@@` prefix is sliced
  off the records themselves (gconfig.go:220), and those records are the
  ones `ResList` holds. After `NewGraphFromConfig`, `ResList` carries the
  stripped names, as the method's contract states.

Go's map iteration order is not determined. When several bindings of an
object fail, which error `evalExpr` and `Parse` report depends on that
order. The specifications therefore carry the set of errors that may be
reported (`Evaluated.Failed`, `Checked.Fail`). The imperative loops pick
the next key by `:|` and are proved to report exactly one error of that
set.

Code outside the core is a parameter:
- The registry of resource kinds and the YAML projection of evaluated
  bindings onto a record or onto its meta parameters are
  `Records.Registry`.
- The World's `ResExport` is a predicate, `exportOk`, saying whether
  exporting a given list succeeds.

## Model

| member | source | states |
|---|---|---|
| Parser.Parser.constructor | parser/parser.go:16-23 | a new parser is at offset 0 with no diagnostics and an empty root block |
| Parser.Parser.Get | parser/parser.go:456-462 | the byte i ahead of the cursor, and 0 at or past the end of the text |
| Parser.Parser.CurrentLocation | parser/parser.go:447-454 | the cursor's location has size 0, and its line is one more than the line feeds before the cursor |
| Parser.Parser.EndLocation | parser/parser.go:443-445 | a location stretched to the cursor keeps its offset, line and column and ends exactly at the cursor |
| Parser.Parser.Incr | parser/parser.go:464-474 | advances by min(k, len(str) - n), never past the end; the line count stays the number of line feeds before the cursor and the column stays 0 |
| Parser.Parser.AddError | parser/parser.go:476-479 | appends one diagnostic with that location and message |
| Parser.Parser.ParseSpaces | parser/parser.go:430-441 | stops exactly at the end of the run of blanks (space, tab, CR, LF) |
| Lexical.SpacesEnd | parser/parser.go:430-441 | every byte skipped is a blank, and the byte where it stops is not |
| Lexical.IsSpace | parser/parser.go:433 | the blanks are space, tab, CR and LF: none is the zero byte and none is above the space |
| Lexical.IsIdentStop | parser/parser.go:422 | the zero byte and every blank end an identifier, and every byte that does is ASCII, so bytes from 0x80 on belong to identifiers |
| Parser.Parser.ParseIdentifier | parser/parser.go:414-427 | reads the maximal run of bytes that are not delimiters (blanks, `{}()[]+=,".` and 0) and returns it converted byte by byte with `string(c)`; it is empty exactly when nothing was consumed |
| Lexical.IdentEnd | parser/parser.go:414-427 | no byte of the identifier is a delimiter, and the byte after it is a delimiter or the end |
| Lexical.IdentEndUnique | parser/parser.go:414-427 | the identifier's end is the only position with those two properties |
| Lexical.IdentifierHasNoStop | parser/parser.go:414-427 | the returned identifier contains no delimiter byte, even after the `string(c)` conversion |
| Parser.Parser.ParseQuoted | parser/parser.go:396-407 | reads the bytes up to the next `"` or the end of the text, converted with `string(c)` |
| Lexical.QuoteEnd | parser/parser.go:396-407 | no byte of a string body is `"` or 0, and the body ends at one of them |
| Parser.Parser.ParseString | parser/parser.go:387-408 | at a `"`, returns the bytes up to the next `"` or the end, with no escape handling, and consumes the closing quote when present; elsewhere records "Expected string" at the cursor and returns "" without moving |
| Bytes.RuneBytes | parser/parser.go:399 | `string(c)` of a byte is that byte below 0x80, and otherwise a two-byte UTF-8 sequence |
| Bytes.WidenAscii | parser/parser.go:421 | on ASCII text, accumulating `string(c)` byte by byte gives the bytes read |
| Bytes.WidenInjective | parser/parser.go:421 | distinct byte runs accumulate to distinct strings, so identifiers that differ in the text are different binding names |
| Bytes.WidenBytes | parser/parser.go:421 | every byte of the accumulated string is a byte of the input or at least 0x80 |
| Parser.Parser.ParseChainLink | parser/parser.go:314-336 | at a `.`, reads blanks and an identifier and stops at its end; a non-empty one is returned as a Variable that spans it, named by it; an empty one records "Expected chain identifier" where the name should start and returns nothing |
| Parser.Parser.ParseChain | parser/parser.go:307-338 | reads exactly the links and diagnostics ChainFrom finds after the head and stops where it stops; with no link the head is returned unchanged, otherwise one Chain at the head's start whose args are the head then the links, each a Variable named by the identifier at its offset, at rising offsets |
| Parser.Parser.ParseChainRound | parser/parser.go:307-338 | one round of the chain loop: the chain built so far and the links still ahead add up to what ChainFrom reads from the loop's start, every diagnostic recorded is one of ChainFrom's, and a round that does not stop consumes input |
| Parser.ChainFromLink | parser/parser.go:314-336 | every link ChainFrom reads is the Variable of a non-empty identifier in the text, after the position it reads from |
| Parser.ChainFromDot | parser/parser.go:314-336 | every link ChainFrom reads is the Variable of the non-empty identifier after some `.` at or after the position it reads from |
| Parser.ChainFromRising | parser/parser.go:314-336 | the links ChainFrom reads are at rising offsets |
| Parser.ChainFromMissing | parser/parser.go:318-320 | every diagnostic ChainFrom yields is "Expected chain identifier" |
| Parser.ChainFromEnd | parser/parser.go:308-313 | the chain loop stops at a byte that is neither a blank nor `.` |
| Parser.ChainFrom | parser/parser.go:307-338 | the chain loop read from a position stops at or after it and within the text |
| Parser.Parser.ParseHead | parser/parser.go:231-305 | returns nothing exactly when the next byte can start no expression (end, `,`, `)` and the other delimiters, and `[` or `{` in literal mode), then without consuming or reporting; `"` gives a String of the quoted bytes that ends after the closing quote, `[` an Array, `{` an Object; an identifier byte gives a Variable named by the identifier, or a FuncCall of it exactly when its first non-blank byte after it is `(`, and a Variable ends after the identifier and the blanks that follow it; literal mode reports nothing, gives only a String or Variable and stops at the literal's end |
| Parser.Parser.ParseExpr | parser/parser.go:227-340 | after blanks, returns nil exactly at end of input, `,`, `)`, the other delimiters, and `[`/`{` in literal mode, then consuming nothing else and reporting nothing; otherwise the expression starts at the first non-blank byte, whose kind (`"`, `[`, `{`, identifier) decides the head, with the String body and identifier text read there, and a FuncCall exactly when `(` follows the identifier; outside literal mode the `.name` links are exactly those ChainFrom reads from a position h (no Chain without links, else head then links), the parser stops where ChainFrom stops, and the diagnostics end with ChainFrom's; h is where a String head's closing quote ends or where a Variable head's identifier and blanks end, and lies after the first byte for other heads; in literal mode only String or Variable nodes, ending at the literal's end, and nothing reported |
| Parser.Parser.ParseExprList | parser/parser.go:344-384 | returns nothing anywhere but at `(` or `[`; otherwise it stops after the matching closer, at the end of the text, or after "Expected expression in list"; the item loop's rounds start just after the bracket and then at rising offsets, a round reads an item exactly when its first non-blank byte can start an expression and the item starts there, with the chain after a String or Variable head read where that head ends, every round but the last reads one, and the items returned are exactly those read, in order, inside the list |
| Parser.Parser.ParseListItems | parser/parser.go:358-383 | the item loop ends after the closer, at the end, or after "Expected expression in list"; its rounds are consecutive from the loop's start, each reads an item exactly when its first non-blank byte can start an expression, at that byte and with the chain after a String or Variable head read where that head ends, every round but the last reads one, and the items are exactly those read, in order, at rising offsets |
| Parser.Parser.ParseListRound | parser/parser.go:358-383 | one round of the item loop appends one round that starts where the loop stood, keeps the items the reads of the rounds, and either goes on having read an item and consumed input or ends the list |
| Parser.Parser.ParseListItem | parser/parser.go:358-383 | one item is read exactly when the first non-blank byte can start an expression, and it starts there, with the `.name` chain after a String or Variable head read from the text where the head ends; then the closer, the end or an optional `,`; a round with no item and no closer records "Expected expression in list" and ends the list |
| Parser.Parser.ParseListSeparator | parser/parser.go:364-381 | after an item, the closer (consumed) or the end of the text ends the list, a `,` is consumed, and a round that read no item ends the list after "Expected expression in list" |
| Parser.Parser.ParseBinding | parser/parser.go:118-175 | `+=` gives an Accumulate and `=` an Assign of the name, whose expression is read exactly when the first non-blank byte after the operator can start one, and starts there, with the `.name` chain after a String or Variable head read from the text where the head ends; a `+` without `=` records "Incorrect binding operator '+'" at the operator and is read as `+=`; a missing expression records "Expected expression" and binds nothing |
| Parser.Parser.ParseOperator | parser/parser.go:118-125 | the operator ends after `+=`, or after a lone `+` or `=`; only a lone `+` records "Incorrect binding operator '+'", at the operator, and it is read as `+=` |
| Parser.Parser.ParseOperand | parser/parser.go:130-134 | the expression after a binding operator starts at the first non-blank byte, and after a String or Variable head its `.name` chain is the one read from the text where the head ends; with none, "Expected expression" is recorded exactly there and nothing else is read or recorded |
| Ast.Apply | parser/parser.go:132-152 | `=` replaces the name's binding; `+=` leaves an Array ending with the new expression; no other name changes |
| Ast.Replay | parser/parser.go:94-216 | replaying a block's statements keeps every name bound before and binds the name of the last statement |
| Ast.AccumulateLaw | parser/parser.go:132-152 | N consecutive `+=` on a name give one Array of the N expressions in declaration order on a fresh name, preceded by the old value after a non-Array binding, and appended to an existing Array |
| Ast.LastAssignWins | parser/parser.go:158-175 | after a block, a name holds the expression of its last `=` when no later statement names it |
| Ast.ReplayUntouched | parser/parser.go:94-216 | statements about other names leave a binding as it was |
| Ast.ReplayKeys | parser/parser.go:94-216 | the names bound after a block are those bound before plus those its statements name |
| Parser.Parser.ParseResourceContent | parser/parser.go:94-216 | the returned bindings are the replay, in order, of the binding statements read; the content loop's rounds are consecutive from the start, and a round reads a statement exactly when a binding starts at its first non-blank byte; the block only gains literal descriptors and nested blocks; it stops at `}`, at the end of the text, or after "Expected identifier" |
| Parser.Parser.ParseContentRound | parser/parser.go:97-214 | one round of the content loop appends one round starting where the loop stood; it adds at most one statement, at the round's first non-blank byte, exactly when a binding starts there, and keeps the bindings the replay of the statements read so far; it consumes input unless the content is done |
| Parser.Parser.ParseStatement | parser/parser.go:97-214 | one statement: at `}` or the end of the text it is done with nothing consumed past the blanks and nothing recorded; at any other byte that cannot start an identifier it is done after "Expected identifier" at that byte; it returns a binding statement exactly when an identifier, blanks, `+` or `=`, blanks and the start of an expression follow the blanks, read from the text at the first non-blank byte; unless done it consumes input |
| Parser.Parser.ParseStatementRest | parser/parser.go:111-213 | after the identifier and blanks: at the end of the text the content is done; at `+` or `=` a binding of that identifier with that operator; in an object "Expected operator after identifier for binding" at the byte and "identifier is here" at the identifier; in a block one nested block of that name |
| Parser.Parser.ParseDescriptors | parser/parser.go:188-195 | reads literals up to LiteralsEnd, the first non-blank byte that starts no literal, records nothing, and every descriptor is a literal read from the text at rising offsets |
| Parser.Parser.ParseResourceDecl | parser/parser.go:182-213 | adds one nested block with that name and location; its header's descriptors, read from the text up to LiteralsEnd, go to the enclosing block; the body starts at LiteralsEnd unless an attribute list `(` is there; the new block's bindings are the replay of the statements its body's rounds read, and it has descriptors only if it has nested blocks; the body is present exactly when the first non-blank byte after the header is `{`; otherwise "Expected { to start resource" is recorded at that byte and "Resource starts here" at the name, and the block keeps no bindings or blocks |
| Parser.Parser.ParseHeader | parser/parser.go:188-200 | the descriptors are literals read from the text up to LiteralsEnd; without `(` there the parser stops at LiteralsEnd and the block is unchanged, with it the attribute list is read past LiteralsEnd; only the attributes and the location's size change |
| Parser.Parser.ParseBlockBody | parser/parser.go:201-213 | at `{`, the content up to `}`, whose rounds start after the `{` and whose statements give the block's bindings; otherwise the two diagnostics, the second at the block's name, and nothing consumed |
| Parser.Parser.Parse | parser/parser.go:86-88 | the root's bindings are the replay of the top-level statements; the content loop's rounds are consecutive from the start of the text, and a round reads a statement exactly when a binding starts at its first non-blank byte; the root only gains literal descriptors and blocks; the parse ends at a `}`, at the end of the text, or after "Expected identifier" |
| Eval.FailsAtSites | newgraph/gconfig.go:69-102 | evaluation fails exactly when the expression holds a Chain, FuncCall or Variable reachable through arrays and objects, and every error it may report names one of those nodes with its line and column |
| Eval.ItemsShape | newgraph/gconfig.go:72-81 | an Array evaluates to a list of the same length and order, and a failing Array reports what its first failing item reports |
| Eval.ObjectShape | newgraph/gconfig.go:84-92 | an Object evaluates to a map over the same binding keys, each the evaluation of its binding |
| Eval.EvalQuote | newgraph/gconfig.go:69-92 | every string, list or map value is the evaluation of an expression built from it |
| Eval.Evaluate | newgraph/gconfig.go:69-102 | the Go recursion succeeds exactly when the specification does, with the specified value, and otherwise reports one error the specification allows |
| Eval.EvaluateObject | newgraph/gconfig.go:84-92 | the object loop, whatever key order it takes, gives the specified map or one allowed error |
| Eval.EvaluateBindings | newgraph/gconfig.go:57-67 | evalResource gives the specified map of a block's bindings or one allowed error |
| Eval.EvalExpr | newgraph/gconfig.go:69-99 | a String evaluates to a string, an Array to a list and an Object to a map, and nothing else; a Chain, FuncCall or Variable fails; a failure names at least one error |
| Eval.EvalItems | newgraph/gconfig.go:72-81 | the item loop gives one value per item, or fails naming at least one error |
| Eval.EvalObject | newgraph/gconfig.go:84-92 | an object evaluates to a map over exactly its binding names, or fails naming at least one error |
| Eval.EvalBindings | newgraph/gconfig.go:57-67 | a block's bindings evaluate to a map over exactly their names, or fail naming at least one error |
| Records.Compile | newgraph/gconfig.go:112-177 | a block with no descriptor fails with the kind-missing error at its line and column; a passing block's kind is its first descriptor's text and a known kind; its name is the second descriptor's text, or "" when there is none; its bindings evaluate and project to its parameters; its meta blocks give its meta parameters; a failure always names at least one error |
| Records.KindOf | newgraph/gconfig.go:114-118 | the kind is the first descriptor's string value or variable name |
| Records.NameOf | newgraph/gconfig.go:120-122 | the name is empty with fewer than two descriptors, and otherwise the second descriptor's string value or variable name |
| Records.MetaOf | newgraph/gconfig.go:147-170 | a failure of the meta loop names at least one error |
| Records.MetaOfSticky | newgraph/gconfig.go:147-170 | once a meta block fails, the blocks after it change nothing |
| Records.ParseRun | newgraph/gconfig.go:107-179 | Parse appends at most one record per `resource` block, and a failure names at least one error |
| Records.ParseRunSticky | newgraph/gconfig.go:107-179 | once a `resource` block fails, the blocks after it change nothing |
| Records.ParseRunSelected | newgraph/gconfig.go:107-110 | only the root's children named `resource` matter |
| Records.Selected | newgraph/gconfig.go:107-110 | the selected blocks are no more than the blocks and are all named `resource` |
| Records.SelectedMembers | newgraph/gconfig.go:107-110 | a block is selected exactly when it is among the blocks and is named `resource` |
| Records.ParseRunPasses | newgraph/gconfig.go:107-179 | Parse succeeds exactly when every `resource` block compiles |
| Records.ParseRunRecords | newgraph/gconfig.go:107-179 | a successful Parse yields one record per `resource` block, in source order, each that block's compiled record |
| Records.ParseRunRejects | newgraph/gconfig.go:107-179 | a failing Parse fails with the error of the first `resource` block that does not compile, after appending the records of the blocks before it |
| GConfig.CompileBlock | newgraph/gconfig.go:112-175 | the loop body passes exactly when Compile does, with Compile's record, and otherwise reports one error Compile allows |
| GConfig.GraphConfig.constructor | newgraph/gconfig.go:50-55 | a configuration with a graph name, the declared edges and an empty ResList |
| GConfig.GraphConfig.Parse | newgraph/gconfig.go:105-180 | appends to ResList exactly the records ParseRun specifies, returns no error exactly when ParseRun does not fail, and otherwise returns one error ParseRun allows |
| GraphBuild.MatchIndex | newgraph/gconfig.go:209 | finds a vertex equal to the resource exactly when there is one |
| GraphBuild.IsExported | newgraph/gconfig.go:208 | a resource is exported exactly when `@@` is a prefix of its name |
| GraphBuild.Stripped | newgraph/gconfig.go:220 | the stripped name with `@@` put back in front is the old name, and kind, parameters and meta parameters are kept |
| GraphBuild.Step | newgraph/gconfig.go:201-223 | one round adds the resource's kind to the lookup; a resource not named `@@...` is then a vertex and nothing is exported; an `@@` resource adds no vertex and is exported unless noop; at most one vertex or export is added |
| GraphBuild.StepVertices | newgraph/gconfig.go:208-213 | one round appends the resource to the vertices exactly when it is not exported and no equal vertex exists |
| GraphBuild.BuildAll | newgraph/gconfig.go:188-224 | the resource loop makes no more vertices and exports together than there are resources, and exports nothing under noop |
| GraphBuild.VerticesAreLocal | newgraph/gconfig.go:201-224 | the vertices are exactly the resources whose name does not start with `@@`, each once; a resource equal to an earlier one reuses its vertex |
| GraphBuild.LookupKinds | newgraph/gconfig.go:202-205 | the lookup has a table for every kind met, exported or not |
| GraphBuild.LookupCovers | newgraph/gconfig.go:208-216 | every resource not named `@@...` has an entry under its kind and name |
| GraphBuild.LookupIsSound | newgraph/gconfig.go:208-216 | every lookup entry points at a vertex of that kind and name |
| GraphBuild.ExportsAreStripped | newgraph/gconfig.go:208-223 | with noop the export list is empty; otherwise it is the `@@` resources, in order, with the first two bytes removed |
| GraphBuild.FirstToUpper | newgraph/gconfig.go:232-245 | a capitalised kind has the same length and tail, and never starts with a lower-case ASCII letter |
| GraphBuild.Resolve | newgraph/gconfig.go:232-248 | a resolved edge carries its declaration's name and notify flag, and a failure is one of the four lookup errors, never the export error |
| GraphBuild.ResolveAll | newgraph/gconfig.go:231-249 | a successful edge loop gives one edge per declaration, and a failure is a lookup error |
| GraphBuild.ResolveAllOk | newgraph/gconfig.go:231-249 | the edge loop succeeds exactly when every edge finds its from-kind, to-kind, from-name and to-name |
| GraphBuild.ResolveAllEdges | newgraph/gconfig.go:231-249 | a successful edge loop gives one edge per declaration, in order, each the resolution of its declaration |
| GraphBuild.ResolveAllEdgeAt | newgraph/gconfig.go:231-249 | edge i of a successful edge loop is the resolution of declaration i |
| GraphBuild.ResolveAllFirstError | newgraph/gconfig.go:231-249 | the first edge that does not resolve decides the error |
| GraphBuild.EdgesJoinDeclared | newgraph/gconfig.go:231-249 | in a returned graph, each edge carries its declared name and notify flag and joins a vertex of kind FirstToUpper(from.kind) and name from.name to one of kind FirstToUpper(to.kind) and name to.name |
| GraphBuild.LowerCaseKindsHaveNoEdges | newgraph/gconfig.go:232-234 | when every resource kind starts with a lower-case letter, any declared edge makes the call fail with the from-kind error |
| GraphBuild.NewGraph | newgraph/gconfig.go:184-252 | the call fails with the export error exactly when the World refuses BuildAll's export list; a returned graph has the configuration's name, at most one vertex per resource and one edge per declared edge |
| GConfig.Visit | newgraph/gconfig.go:202-223 | one round of the resource loop has the effect Step specifies |
| GConfig.ResolveEdges | newgraph/gconfig.go:231-249 | the edge loop with its four checks in order gives what ResolveAll specifies |
| GConfig.GraphConfig.BuildVertices | newgraph/gconfig.go:201-224 | the resource loop gives the vertices, lookup and export list BuildAll specifies, and renames ResList's exported records in place |
| GConfig.GraphConfig.Relabel | newgraph/gconfig.go:218-221 | the record at that index loses its `@@` when it is exported and noop is off, and nothing else in ResList changes |
| GConfig.GraphConfig.NewGraphFromConfig | newgraph/gconfig.go:184-252 | returns the graph NewGraph specifies: no graph when the one export call fails or an edge does not resolve; hands BuildAll's export list to the World; leaves ResList with `@@` sliced off the exported names unless noop |

## Left out

- newgraph/gapi.go is not part of this model. It is goroutines,
  channels and file watching.
- `ParseConfigFromFile` (gconfig.go:255-275) is left out: it is file
  reading and logging.
- The YAML marshal/unmarshal of bindings onto a resource or onto its meta
  parameters is foreign code. So is `resources.NewEmptyNamedResource`.
  Both are the parameters in `Records.Registry`. Their errors are
  `Unprojectable`, `BadMeta` and `UnknownKind`.
- `res.Init()`, `SetName`/`SetKind`/`Meta` and pgraph internals are
  foreign packages:
  - A record is a value, and vertex matching (`GetVertexMatch`) is
    equality of records.
  - The graph is a sequence of vertices and a sequence of edges.
  - `AddEdge` appends. pgraph's adjacency map would keep only the last
    edge between the same two vertices.
- The `keep` list (gconfig.go:197, 216) is filled but never read, so it is
  not modelled. The `hostname` parameter is unused by the source and kept
  only in the signature.
- The source of `util.FirstToUpper` is not part of this model. It is
  modelled as ASCII capitalisation of the first byte.
- `debug` (parser.go:481-500) is commented out. `Error.Error` and
  `Error.String` (parser.go:37-43) are string formatting.
- Parser.Parser.ParseResourceContent: the parser methods carry local
  contracts, not a complete functional specification of the grammar. Each
  round of the content loop reads a statement exactly when a binding
  starts at its first non-blank byte, and the first round starts where the
  content starts. The later rounds start where the parser stopped after
  the previous round, but the contract only says that they start at rising
  offsets, because the extent of a nested block or expression is not
  defined apart from the parser. So the contract alone does not exclude a
  statement of a nested block or object being reported, or a top-level
  statement being skipped, by a different choice of round boundaries. For
  the same reason the zero-diagnostic example input of
  parser/parser_test.go:9-48 is not stated as a lemma.
- Parser.Parser.ParseContentRound: the next round's start is the parser's
  own stopping point and is not stated in terms of the text.
- Parser.Parser.ParseBlockBody: the body's rounds are pinned only at the
  byte after `{`; later boundaries only rise, as for ParseResourceContent.
- Parser.Parser.ParseResourceDecl: the body's rounds are pinned only at the
  byte after its `{`, later boundaries only rise, and where the attribute
  list ends is not stated.
- Parser.Parser.Parse: the top-level rounds are pinned only at the start of
  the text; later boundaries only rise, as for ParseResourceContent.
- Parser.Parser.ParseExprList: the item rounds are pinned only after the
  opening bracket, and later boundaries only rise, so the contract alone
  does not exclude an item nested inside another from being returned.
- Parser.Parser.ParseListItems: as for ParseExprList.
- Parser.Parser.ParseBinding: does not state that a trailing `,` after the
  expression is consumed.
- Parser.Parser.ParseStatement: states the end-of-content and
  "Expected identifier" cases itself; what follows the identifier is stated
  on Parser.Parser.ParseStatementRest, which it calls.
- Parser.Parser.ParseExpr: after a FuncCall, Array or Object head, the
  position h from which the `.name` chain is read is only said to lie
  after the head's first byte, because where such a head ends is defined
  only by the parser; so a chain after such a head may be dropped as far
  as the contract says. The items of an Array head and the bindings of an
  Object head are not tied to their offsets.
- Parser.Parser.ParseOperand: the chain after a FuncCall, Array or Object
  head is not pinned, as for ParseExpr.
- Parser.Parser.ParseListItem: the chain after a FuncCall, Array or Object
  item head is not pinned, as for ParseExpr.
- Parser.Parser.ParseBinding: the chain after a FuncCall, Array or Object
  head is not pinned, as for ParseExpr.
- The AST's `Location.size` is carried but not constrained beyond `offset`.
- Integers are unbounded. Offsets, lines and columns in the source are Go
  `int`, which the text sizes involved cannot overflow.
