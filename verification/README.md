# cingo cc walk engine, operator names and output routing, in Dafny

This project models three parts of cingo, a C-to-Go translator.

**The traversal engine of package `cc`** (cc/walk.go, repeated unchanged in
cc/expr.go:178-280). `Walk`, `WalkIndent`, `Preorder` and `Postorder` walk a
parsed C program depth first. They call `before` on entry to every node and
`after` on exit, and they never visit a node twice, even when the syntax
graph shares nodes or has cycles. The traversal uses a `seen` map. The map
starts with the untyped nil and the nil pointers of six node types, so absent
children are skipped silently. A dynamic type the type switch does not list
panics, and so does a nil `*Prog`, which is not pre-seeded.

- The syntax graph is an arena `seq<Node>`. A reference is `Nil`, a typed
  nil `NilOf(kind)` or `Ptr(index)`. Sharing and cycles are therefore
  ordinary values (module `Syntax`).
- The walk is specified as functions (`WalkSpec.Walk1`, `WalkSpec.WalkList`).
  They return the final seen set, the sequence of callbacks, each with its
  depth, and whether the run ended normally or in a panic.
- The source's in-place walk is a class whose methods update one shared
  `seen` set and one event log, `Walking.Walker`. Each method is proved to
  end in the state the functions describe.
- The syntax dump of cc/parse_test.go drives `WalkIndent`, and its golden
  hello-world test is proved on a hand-built arena of that program
  (`PrettyPrint`, `Golden`, `GoldenText`).

**The expression operators** (cc/expr.go:9-176) cover three things:
- the `ExprOp` constants and their name table;
- `ExprOp.String`, with its decimal fallback `ExprOp(%d)`;
- the per-operator contract on which `Expr` fields are populated.

**Output routing in `writeGoFiles`** (output.go:24-114):
- Each declaration gets the default package "other" and is routed to
  `<package>/<base>.go`.
- A printer is created on first use. It gets a package clause (`main` for a
  command `cmd/X`) and package-specific imports.
- The declaration, or its configured replacement or deletion, is appended,
  followed by a blank line when anything was printed.
- Every finished buffer is cleaned up, formatted and passed through the
  configured diffs. Each diff counts the files it applied to.
- `Routing.Config` holds the configuration. Its diff array is updated in
  place. The declarations are an `array` whose package field is defaulted in
  place.

Go's string helpers that the routing calls are in `GoStrings`: `TrimSuffix`,
`Count`, `HasPrefix`, `path.Base`, `ToLower`, `bytes.Contains` and
`bytes.Replace`.

## Model

| member | source | states |
|---|---|---|
| `WalkSpec.ChildrenToWalk` | cc/walk.go:46-101 | The type switch descends exactly when the value is a pointer to one of the seven node types. Every other value reaches the panic of the `default` case or the nil dereference of a nil `*Prog`. |
| `WalkSpec.Walk1` | cc/expr.go:207-270 | One `walk` call always leaves its own node in `seen` and never removes a key. |
| `WalkSpec.WalkList` | cc/walk.go:51-53 | The `for ... range` loops over children never remove a key from `seen`. |
| `WalkSpec.WalkListAppend` | cc/walk.go:76-83 | Walking two runs of children in a row is the first walk, then, unless it panicked, the second walk from the seen set the first one left. |
| `WalkSpec.NilChildrenSkipped` | cc/walk.go:41-43 | While the nil keys are in `seen`, nil children fire no callback. A list walk equals the walk of its non-nil elements. |
| `WalkSpec.Walk1Panics` | cc/walk.go:44-48 | An unseen value the switch does not handle is recorded, gets its `before` callback, and then the run panics with nothing else fired. |
| `WalkSpec.Walk1Books` | cc/walk.go:40-103 | After any `walk` call, the entered nodes are exactly the keys it added to `seen`, with none entered twice. Every exited node was entered, none twice. A run without a panic exits every node it entered. |
| `WalkSpec.WalkListBooks` | cc/walk.go:92-97 | The same accounting holds for a loop over a list of children. |
| `WalkSpec.Walk1Nested` | cc/walk.go:45-102 | The callbacks of one `walk` replay correctly on a stack of open nodes. Each `before` is one level deeper than its parent and names a child of the innermost open node. Each `after` closes that node at its own depth. Without a panic the stack returns to where it was. |
| `WalkSpec.WalkListNested` | cc/walk.go:61-63 | The same replay holds for a loop over the children of the innermost open node. |
| `WalkSpec.ReplayAppend` | cc/walk.go:45-102 | Replaying two runs of callbacks in a row is replaying the first, then the second from the stack the first left. |
| `WalkSpec.Walk1Closed` | cc/walk.go:50-100 | After a `walk` without a panic, every node it added is a known node whose children are all in `seen`. |
| `WalkSpec.WalkListClosed` | cc/walk.go:68-70 | After a loop without a panic, every listed child is in `seen`, and every node the loop added has all its children in `seen`. |
| `WalkSpec.Walk1NoPanic` | cc/walk.go:46-101 | On an arena the Go type system can build, a `walk` of a pre-seeded nil or a known node never panics. |
| `WalkSpec.CallbacksOncePerNode` | cc/walk.go:11-13 | The doc comment's promise for a whole run: `before` and `after` each fire at most once per node. `before` fires exactly for the nodes the run added to `seen`, so never for a pre-seeded nil, and the count of calls equals the number of nodes added. Without a panic, `after` fires for exactly the same nodes. |
| `WalkSpec.NoDupCard` | cc/walk.go:41-44 | A callback list without repeats has as many calls as distinct nodes. |
| `WalkSpec.CallbacksNest` | cc/walk.go:24-38 | The callbacks of a whole run replay from an empty stack. The root is at depth 0 and every other node is at its parent's depth plus one. A run without a panic closes every node it opened. The first callback is `before(root, 0)` unless the root is a pre-seeded nil, which fires nothing. Without a panic, the last callback is `after(root, 0)`. |
| `WalkSpec.Walk1Reaches` | cc/walk.go:45-102 | Every node a `walk` call enters is reachable from the node it was called on along child links. |
| `WalkSpec.EnteredReachable` | cc/walk.go:11-38 | `before` only sees non-nil nodes reachable from the root. Without a panic, these are exactly all the non-nil nodes reachable from the root. |
| `WalkSpec.ReachableEntered` | cc/walk.go:11-13 | A run without a panic sees every node reachable from the root along child links. Each such node that is not a nil was entered and exited, however many parents share it. |
| `WalkSpec.TypedWalkSucceeds` | cc/walk.go:27-38 | On a well-typed arena, `WalkIndent` from a pre-seeded nil or a known node never panics. |
| `WalkSpec.UnwalkableRootPanics` | cc/walk.go:15-23 | Any other root, such as the nil `*Prog` the map omits or a foreign type, is entered at depth 0 and then panics. |
| `Syntax.TypedChildren` | cc/expr.go:12-20 | The typed pointer fields of Go nodes never hold the untyped nil or a `*Prog`. A child is a typed nil or a known node. Each child slot has the kind of its Go field; for example, a statement's `Pre` and `Post` are `*Expr`. |
| `Syntax.ExprChildrenAreOperands` | cc/expr.go:12-19 | For an expression that fills only the fields its operator documents, the non-nil nodes the walk descends into are exactly its documented operands followed by its block. |
| `Walking.Walker.constructor` | cc/walk.go:28-36 | A new walk starts with the seven nil keys in `seen` and no callback fired. |
| `Walking.Walker.Walk` | cc/walk.go:40-103 | The in-place recursive `walk` leaves `seen`, the callback log and the panic flag exactly as `Walk1` specifies. |
| `Walking.Walker.WalkEach` | cc/walk.go:76-78 | A `for ... range` loop of `walk` calls stops at the first panic and leaves the state `WalkList` specifies. |
| `Walking.WalkIndent` | cc/walk.go:27-38 | `WalkIndent` fires exactly the callbacks, with depths, of the specified walk from depth 0 with the pre-seeded map. |
| `Walking.DropDepth` | cc/walk.go:24 | The wrapping closures forward every callback in order, the same node and the same kind, with the depth dropped. |
| `Walking.Walk` | cc/walk.go:11-25 | `Walk` fires the callbacks of `WalkIndent`'s run, in order and without depths. |
| `Walking.DropDepthKeepsNodes` | cc/walk.go:14-24 | The nodes passed to `before` and to `after` by `Walk` are exactly the entered and the exited nodes of the walk. |
| `Walking.Preorder` | cc/walk.go:105-108 | `f` receives the nodes in the order they are entered. |
| `Walking.Postorder` | cc/walk.go:110-113 | `f` receives the nodes in the order they are exited. |
| `Graphs.SharedVisitedOnce` | cc/walk.go:41-44 | In `int a; int b;` with one shared `int` node, the shared type is entered once, under the first declaration. The full callback sequence is given. |
| `Graphs.SelfLoopVisitedOnce` | cc/walk.go:12-13 | A statement whose body is itself is walked once, and the back edge fires nothing. |
| `Graphs.SelfLoopWellTyped` | cc/walk.go:85-97 | That self-looping `for` statement is a graph the Go types allow: its nil `Pre`, `Expr` and `Post` are typed `*Expr` nils. |
| `Graphs.SelfLoopSucceeds` | cc/walk.go:27-38 | So the general no-panic result applies to it, and walking it from the statement does not panic. |
| `ExprOps.Fallback` | cc/expr.go:157 | The text for a value outside the table starts with `ExprOp(`. |
| `ExprOps.DecimalRoundTrip` | cc/expr.go:157 | The `%d` text of an integer can be read back to that integer, sign included. |
| `ExprOps.AsWrittenPanicsOnlyAtTableLen` | cc/expr.go:153-158 | As written, `String` agrees with the intended version everywhere except at 56, the table length, where indexing panics. |
| `ExprOps.TableOrdered` | cc/expr.go:95-151 | The names in the table are in strictly increasing alphabetical order. |
| `ExprOps.DeclaredNamesDistinct` | cc/expr.go:95-151 | Every one of the 55 operators has a non-empty name, and no two share one. |
| `ExprOps.EntryIsNoFallback` | cc/expr.go:153-157 | No table name, not even the blank entry 0, reads like an `ExprOp(n)` fallback. |
| `ExprOps.OpStringInjective` | cc/expr.go:153-158 | With the corrected guard, `String` is injective on all integers: distinct operator values never print the same text. |
| `ExprOps.TextUsers` | cc/expr.go:16-17 | `Text` is populated exactly for Name, Number, Arrow and Dot, the operators the syntax dump prints text for. `Texts` is used only by String. |
| `PrettyPrint.Indent` | cc/parse_test.go:25 | Indentation is two spaces per level. |
| `PrettyPrint.DumpAppend` | cc/parse_test.go:19-21 | The dump of two runs of callbacks is the first dump followed by the second. |
| `PrettyPrint.DumpExit` | cc/parse_test.go:21 | The `after` callback prints nothing. |
| `PrettyPrint.DumpAround` | cc/parse_test.go:24-56 | A node's subtree prints the node's indented line first, then its children's lines. |
| `PrettyPrint.OpText` | cc/parse_test.go:47 | `%s` of an operator is its `String` text wherever the as-written `String` returns. |
| `PrettyPrint.OpTextPastTable` | cc/expr.go:154 | For 56, the one value the guard lets past the table, `fmt` recovers the index panic and prints `%!s(PANIC=String method: runtime error: index out of range [56] with length 56)`. |
| `PrettyPrint.DescribeOpPastTable` | cc/parse_test.go:46-50 | An expression node with operator 56 prints `expr: ` followed by that recovered-panic text. It gets a line instead of stopping the dump. |
| `PrettyPrint.DumpPastTable` | cc/parse_test.go:19-56 | The dump goes on past such a node: its line, then the lines of its subtree. |
| `PrettyPrint.NilProgRootPrintsProg` | cc/parse_test.go:27-32 | A nil `*Prog` root matches `case *Prog` and prints `prog`. The walk then panics on `x.Decls` (cc/walk.go:50-51), so the dump is exactly that one line. |
| `PrettyPrint.DescribeExprTotal` | cc/parse_test.go:46-50 | Every expression node gets a line, whatever its operator value. For a declared operator, the line starts with `expr: ` and the operator's name. |
| `Golden.HelloWorldWalk` | cc/parse_test.go:60-65 | Walking the hello-world program visits each of its 17 nodes once, without a panic. The callbacks are the exact nested sequence of its tree. |
| `Golden.HelloWorldDump` | cc/parse_test.go:59-83 | The syntax dump of the hello-world program is exactly the 17 expected lines. |
| `Golden.HelloWorldWellTyped` | cc/parse_test.go:59-65 | The hello-world arena, statements included, is a graph the Go types allow, so the no-panic results apply to it. |
| `GoStrings.TrimSuffix` | output.go:32 | The result with the suffix put back is the input when the input ends with the suffix. Otherwise the input is unchanged. |
| `GoStrings.TrimAppended` | output.go:32 | Trimming a suffix that was just appended gives back the original. |
| `GoStrings.Count` | output.go:40 | A count is zero exactly when the character does not occur, and it is never more than the length. |
| `GoStrings.CountAppend` | output.go:40 | Counts add up over concatenation. |
| `GoStrings.LastIndex` | output.go:39 | The index names the character, or is -1, and no later position holds it. |
| `GoStrings.Base` | output.go:33 | `path.Base` is never empty and holds no slash, unless it is "/". |
| `GoStrings.BaseAfterSlash` | output.go:39 | The base of `dir/name` is `name`. |
| `GoStrings.BaseOfName` | output.go:33 | A name without slashes is its own base. |
| `GoStrings.ToLower` | output.go:63 | Lower-casing keeps the length and maps every character on its own. |
| `GoStrings.ToLowerIdempotent` | output.go:63 | Lower-casing twice is lower-casing once. |
| `GoStrings.ToLowerKeepsLower` | output.go:63 | A name without upper-case letters is unchanged. |
| `GoStrings.ContainsAt` | output.go:104 | `bytes.Contains` holds exactly when the pattern occurs at some index. |
| `GoStrings.ReplaceAbsent` | output.go:88-89 | Replacing a pattern that does not occur changes nothing. |
| `GoStrings.ReplaceSame` | output.go:105 | Replacing a non-empty pattern by itself changes nothing. |
| `Routing.Defaulted` | output.go:28-30 | After defaulting, every declaration has a package: "other" where it had none, and an unchanged declaration otherwise. |
| `Routing.SetDefault` | output.go:28-30 | The declaration at `i` gets its default package in the array. The earlier ones keep theirs and the later ones are untouched. |
| `Routing.GoName` | output.go:32 | The output file name always ends in ".go". |
| `Routing.BaseOfGoName` | output.go:33 | The base of that name holds no slash. |
| `Routing.GoFileSplit` | output.go:33 | An output file path is its package, a slash, and a name without slashes. |
| `Routing.GoFilePackage` | output.go:31-33 | Two declarations routed to one file belong to one package. |
| `Routing.GoFileOfSource` | output.go:31-33 | For a `name` not ending in `.h`, `dir/name.c` and `dir/name.h` of package `pkg` both go to `pkg/name.go`. |
| `Routing.TrimHeaderSource` | output.go:32 | `.c` and then `.h` are both trimmed, so `dir/name.h.c` also goes to `pkg/name.go`. When `name` does not end in `.h`, that is the same file as `dir/name.c`. |
| `Routing.PackageName` | output.go:39-42 | The package clause says `main` for a package with one slash under `cmd/`, and the last path element otherwise. |
| `Routing.CommandIsMain` | output.go:40-42 | Every `cmd/X` is package main. |
| `Routing.NestedCommandPackage` | output.go:39-42 | `cmd/D/N` keeps the name `N`. |
| `Routing.Replacement` | output.go:61-67 | A deletion under the name or its lower-case form prints nothing. Otherwise the exact name is looked up, then its lower-case form, and with no entry the declaration is printed itself. |
| `Routing.LowerNameLookup` | output.go:61-64 | For a lower-case name the fallback lookup adds nothing. |
| `Routing.CaseFoldedLookup` | output.go:61-65 | Names that differ only in case and have no exact entry get the same replacement. |
| `Routing.Emit` | output.go:68-75 | A replacement is printed between the leading comments and the suffix and trailing comments. Without one, the declaration is printed. |
| `Routing.Chunk` | output.go:76-79 | A declaration's text is followed by a blank line exactly when it is not empty. |
| `Routing.AppendChunk` | output.go:60 | Comparing the buffer length with the saved offset is the same as asking whether the appended text is empty. |
| `Routing.AddDecl` | output.go:31-79 | One iteration of the loop changes the printers and `cfiles` exactly as one routing step specifies. |
| `Routing.RouteDecls` | output.go:27-80 | The loop defaults every package in place and leaves the printers and `cfiles` as the fold over all declarations specifies. |
| `Routing.FoldKeys` | output.go:35-57 | There is a printer exactly for the files some contribution goes to, and `cfiles` has the same keys. |
| `Routing.FoldBuffer` | output.go:35-79 | When the contributions to a file agree on its header, its buffer is that header followed by every contribution to it, in order. |
| `Routing.RouteBuffer` | output.go:37-58 | The buffer of the file a declaration is routed to is that package's header followed by the texts of all declarations routed there, in order. |
| `Routing.RouteFiles` | output.go:33-57 | Printers exist exactly for the target files of the declarations, and `cfiles` has the same keys. |
| `Routing.RouteCFile` | output.go:34 | `cfiles` maps each file to the C file of the last declaration routed to it. |
| `Routing.PrepareClean` | output.go:87-101 | A buffer with no broken lines, no blank line after `{`, and that the formatter keeps, goes to the diffs unchanged. |
| `Routing.Counted` | output.go:104-107 | A diff's counter rises by one exactly when its `before` text occurs in the buffer. Its texts never change. |
| `Routing.Hits` | output.go:103-108 | Over a run of files, a diff counts at most one use per file. |
| `Routing.ApplyDiffUnchanged` | output.go:104-105 | A diff whose `before` text is absent, or equals its non-empty `after` text, leaves the buffer unchanged. |
| `Routing.NoDiffApplies` | output.go:103-108 | When no diff matches at its turn, the buffer comes out unchanged. |
| `Routing.RecountedStage` | output.go:103-108 | The counters do not affect the text: after earlier files, each buffer is rewritten as it would have been before them. |
| `Routing.Config.ApplyDiffs` | output.go:103-108 | The diff loop rewrites the buffer through the diffs in order. Each diff's counter rises by one exactly when its `before` text occurs in the buffer the earlier diffs left. |
| `Routing.Config.WriteFiles` | output.go:82-113 | One text is written per printer: the prepared buffer passed through the diffs. It does not depend on the map's iteration order. Each counter rises by the number of files it applied to. |
| `Routing.WriteGoFiles` | output.go:24-114 | The whole function, without the file system. Packages are defaulted in place, and every output file gets the diffed, prepared text of the buffer the routing built for it. Each diff's use count grows by the number of prepared buffers, in map order, that it applied to. |

## Left out

- The parser, `SyntaxInfo`, the derived fields `XDecl` and `XType`, `Expr.String` and the `StmtOp` table are not part of this model. A node keeps only the fields the walk and the dump read. A type keeps the text the external type printer renders for it. A statement keeps its operator's name.
- Initializer prefixes (`Init.Prefix`, cc/expr.go:160-171) are data only: the walk does not descend into them, and neither does the source.
- Panics are modelled as `ok == false` for a walk. In the dump, `None` models a panic of `prettyPrintSyntax`: the `default` case, or a nil `*Decl`, `*Stmt` or `*Expr` that is dereferenced. A nil `*Prog` or `*Label` matches its case and prints its word. In the as-written `String`, `None` models the index panic. The text of these panics is not modelled. The dump prints an operator through `fmt`, which recovers a panicking `String` and prints its `%!s(PANIC=...)` text instead; that text is modelled (`PrettyPrint.OpText`).
- The callbacks are recorded as an event log rather than run as closures. Callbacks that have side effects on the syntax graph are not modelled.
- `ExprOp` is an unbounded `int`. The 64-bit width of Go's `int` only matters to the `%d` fallback text, and that text is modelled exactly for every integer.
- Printers are represented by their buffer text. `Newline` is the text "\n". A declaration's comments and its rendering by the printer are pre-rendered strings.
- `format.Source` is the parameter `format`, and `None` stands for a formatting error. The error log line is not modelled.
- Go's map iteration order in the second loop is the parameter `order`.
- The file system (`filepath.Join` with the `-dst` flag, `os.MkdirAll`, `ioutil.WriteFile`) and the `log` calls are not modelled. `WriteGoFiles` returns the text written per file instead.
- `Routing.WriteGoFiles`: the `cfiles` map is built but never read by the source after the loop, so this contract does not mention it. `Routing.RouteCFile` states its contents.
- `GoStrings.ToLower`: only ASCII letters are lowered, not full Unicode case mapping. Bytes are modelled as characters.
- `Routing.Hits`: its own contract states only the at-most-one-per-file bound. The exact count is stated by `Routing.Config.WriteFiles`.
- test.go is context only and is not part of this model.
- `GoStrings.Base`: output.go:33 calls `filepath.Base`, which is modelled as `path.Base` with `/` as the only separator, as on a `/`-separated platform. Backslash separators and volume names are not modelled.
- `PrettyPrint.Describe`: a nil `*Type` is described as `None`. `(*Type).String` is not part of this model, so what `fmt` prints for it is not modelled. A walk never passes a nil `*Type` to `before`, because it is pre-seeded in `seen`.
- `ExprOps.TextUsers`: the comments in cc/expr.go disagree about which operators use `Text` and `Texts`. The field comments at cc/expr.go:16-17 give `Text` to Name, Number, Goto, Arrow and Dot, and `Texts` to String. The constant comment at cc/expr.go:86 says `String` uses `Text`. This contract follows the field comments, because the field declarations are the contract on `Expr` and the syntax dump at cc/parse_test.go:48 prints `Text` for none but Name, Number, Arrow and Dot. Goto is left out because it is not among the `ExprOp` constants at cc/expr.go:36-93, so no operator value has it.

## Findings

| source | as written | input that shows it | evidently intended | confidence | as-written member | corrected member |
|---|---|---|---|---|---|---|
| cc/expr.go:154 | `0 <= int(op) && int(op) <= len(exprOpString)` admits `op == 56`, and then `exprOpString[56]` indexes past the 56-entry table and panics | `ExprOp(56).String()` | `int(op) < len(exprOpString)`, so that 56 prints `ExprOp(56)` | not executed | `ExprOps.AsWrittenPanicsOnlyAtTableLen` | `ExprOps.OpStringInjective` |

The syntax dump (`PrettyPrint.Describe`) uses the as-written `String`, as the test file does. There the panic at 56 does not stop the dump: `fmt` recovers it and prints its message as the operator text (`PrettyPrint.DescribeOpPastTable`). Everything else uses the corrected `ExprOps.OpString`.
