# include-bytes: the rewrite pass, modelled in Dafny

The pass walks a parsed program post-order. Each call `includeBytes("<path>")`
that the walk visits (one not inside another call's callee) becomes
`env.latin1_string_to_uint8array("<file text>")`. The file is found by joining
the build's working directory with the literal's path.

The model has five modules:

- `Ast` (`ast.dfy`): a closed expression tree with five node kinds: `Ident`,
  `Str`, `Call(callee, args)`, `Member(obj, prop)`, `Other(children)`. It also
  holds the marker and runtime names, and the structural predicates the proofs
  use. `CallFree` means no call node is visited. `MarkerFree` means no inspected
  callee is the marker. `Simple` means every marker call the walk visits has call-free arguments.
- `Files` (`files.dfy`): the five error kinds and a `Result` type. A file system
  is a map from path to an entry, which is `Readable(text)` or `Unreadable`; a
  missing key means the path does not exist. `JoinPath` is POSIX path joining.
  `ReadFile` checks existence, then reads.
- `Transform` (`transform.dfy`): the `TransformVisitor` class. Its field
  `isIncludeBytes` is the marker flag. `cwd` and `filename` are fixed at
  construction. The methods are `VisitMutCallee` (the callee hook), `VisitMutExpr`
  (the expression hook; it visits the children first) and `VisitMutExprs` (a loop
  over a list of expression slots, in order). The pure functions `Walk` and
  `WalkSeq` return the rewritten tree and the final flag, or the error that aborts
  the walk. Each method's `ensures` ties its result and its new flag to these
  functions. `Substitute` is the rewrite-or-fail step that runs after a call's
  children when the flag is up.
- `Properties` (`properties.dfy`): lemmas about `Walk`. They cover how the flag
  moves through a tree, which trees come back unchanged, what a marker call turns
  into, the failure ladder, the nested-call behaviour, and when a second pass is a
  no-op.
- `Scenarios` (`scenarios.dfy`): concrete inputs. This includes the repository's
  own `.gitignore` example, stated once for `Walk` and once for a fresh visitor
  object.

The callee slot is never walked as an expression. The overriding callee hook
only looks at the callee; it does not descend into it. So `Walk` on a `Call`
checks the callee with `IsMarkerCallee` and then walks only the arguments.

The flag is not tied to the call that raised it. It is consumed by the next
call whose post-hook runs. In `includeBytes(f("x"))` the inner `f("x")` is the
call that gets rewritten, and the outer marker call is left as it was
(`InnerCallConsumesFlag`, `NestedMarkerExample`).

Three consequences of the code:

- `Path::join` replaces the base when the argument is absolute, so an absolute
  argument is read at its own path (`JoinPath`, `AbsolutePathExample`).
- A second pass over the output is proved a no-op, whatever the file system
  then holds, when no marker call has a call among its arguments
  (`SecondPassIsNoOp`). Otherwise it can change the output: on
  `includeBytes(f("x"))` a second pass rewrites the already-rewritten inner call
  again, reading the file named by the first file's text
  (`NestedMarkerExample`). It need not, though: when that file's text names the
  file itself, the second pass gives back the same tree
  (`NestedFixedPointExample`).
- A marker call inside a callee is never visited, so
  `includeBytes(".gitignore").slice(0)` is returned unchanged
  (`CalleePositionExample`).

## Model

| member | source | states |
|---|---|---|
| `Ast.IsMarkerCallee` | src/lib.rs:38-40 | a callee is flagged exactly when it is the bare identifier `includeBytes`; any other shape (member, call, other identifier) is not |
| `Ast.RuntimeCallee` | src/lib.rs:58-67 | the new callee is the member expression `env.latin1_string_to_uint8array`; it is not a bare identifier, so the callee hook can never flag it |
| `Files.JoinPath` | src/lib.rs:81 | an absolute argument replaces the base; otherwise the result is the base followed by the argument, with one `/` between them exactly when the base is non-empty and does not already end in `/` |
| `Files.ReadFile` | src/lib.rs:83-89 | a path that does not exist gives FileNotFound; a path that exists but cannot be read as text gives ReadFailure; otherwise the result is the file's whole text |
| `Transform.Substitute` | src/lib.rs:58-91 | the ladder, in order and both ways: MissingArgument exactly when there are no arguments, InvalidArgumentType exactly when the first argument is not a string literal, then MissingCwd, FileNotFound, ReadFailure; on success the callee is the runtime member, the first argument is the joined file's text, and the other arguments are unchanged |
| `Transform.Walk` | src/lib.rs:47-94 | the walk of one node: identifiers and literals come back untouched with the flag as it was; member and other nodes keep their kind, property and child count; a call's callee is never walked, so it comes back either as it was or as the runtime member; a call keeps its argument count and, when walked without error, always returns with the flag lowered (that the callee is inspected before the arguments is shown by `MarkerCallRewritten` and `InnerCallConsumesFlag`) |
| `Transform.WalkSeq` | src/lib.rs:48 | the walk of a list of slots keeps its length; the first slot is walked with the entry flag, and its failure aborts the list |
| `Transform.TransformVisitor.constructor` | src/lib.rs:23-29 | the flag starts lowered; `cwd` and `filename` are stored unchanged |
| `Transform.TransformVisitor.VisitMutCallee` | src/lib.rs:37-45 | the flag is raised when the callee is a bare identifier whose symbol is `includeBytes`; otherwise the flag is unchanged; the callee is only read |
| `Transform.TransformVisitor.VisitMutExpr` | src/lib.rs:47-94 | children first, then the post-hook; the returned node or error and the new flag are exactly `Walk` of the old flag and the node |
| `Transform.TransformVisitor.VisitMutExprs` | src/lib.rs:48 | the expression slots are visited left to right and the flag is threaded through; the first failure aborts the rest; the result and the new flag are exactly `WalkSeq` |
| `Properties.WalkCallClearsFlag` | src/lib.rs:50-56 | a call node walked without error always leaves the flag lowered; this restates, on its own, one clause of `Walk`'s contract |
| `Properties.WalkFlag` | src/lib.rs:41-93 | after a successful walk the flag is up exactly when it was up on entry and the subtree contains no visited call |
| `Properties.WalkSeqFlag` | src/lib.rs:48-93 | the same for a list of slots: the flag survives exactly when it was up and no slot contains a call |
| `Properties.FlagNeverLeaks` | src/lib.rs:23-94 | a program walked from a fresh visitor without error ends with the flag lowered, so no raised flag is left pending |
| `Properties.WalkCallFree` | src/lib.rs:47-56 | a subtree with no call comes back unchanged and passes the flag through, whatever its value |
| `Properties.WalkSeqCallFree` | src/lib.rs:48 | a list of call-free slots comes back unchanged and passes the flag through |
| `Properties.WalkMarkerFree` | src/lib.rs:37-56 | entered with the flag lowered, a tree with no inspected marker callee comes back unchanged, the flag stays lowered, and no file is read |
| `Properties.WalkSeqMarkerFree` | src/lib.rs:37-56 | the same for a list of slots |
| `Properties.UnmentionedIsMarkerFree` | src/lib.rs:38-40 | a tree where the identifier `includeBytes` never occurs has no inspected marker callee |
| `Properties.NoMarkerNoChange` | src/lib.rs:37-56 | a program that never names `includeBytes` is returned exactly as it came in |
| `Properties.MarkerCallRewritten` | src/lib.rs:58-93 | a marker call whose arguments hold no call consumes its own flag, whatever the flag was on entry; its outcome is the ladder applied to its own arguments, and the flag ends lowered |
| `Properties.MarkerCallSuccess` | src/lib.rs:58-93 | `includeBytes(P, rest...)` with `P` readable becomes `env.latin1_string_to_uint8array(C, rest...)`, where `C` is the text at `join(cwd, P)`; the rest is untouched and the flag ends lowered |
| `Properties.MarkerCallFailures` | src/lib.rs:69-89 | each rung of the ladder, seen from the walk of a marker call: no argument, a non-literal argument, no cwd, a missing file, an unreadable file |
| `Properties.InnerCallConsumesFlag` | src/lib.rs:50-56 | in `includeBytes(g(args))`, for any callee `g`, the inner call is rewritten (or fails the ladder on its own arguments); the outer marker call stays as it was and its own argument is never checked |
| `Properties.SimpleWalk` | src/lib.rs:58-67 | in a tree of the simple shape, a successful walk ends with the flag lowered and leaves no inspected marker callee |
| `Properties.SimpleWalkSeq` | src/lib.rs:58-67 | the same for a list of slots |
| `Properties.SecondPassIsNoOp` | src/lib.rs:38-40 | for programs of the simple shape, walking the output again returns it unchanged and reads no file, whatever the file system then holds |
| `Properties.StatementsIndependent` | src/lib.rs:48 | when each statement's walk leaves the flag lowered, the program's result is each statement's own result, in order |
| `Scenarios.GitignoreExample` | src/lib.rs:124-137 | `includeBytes(".gitignore")`, where `.gitignore` holds `/target\n^target/\ntarget\n`, becomes `env.latin1_string_to_uint8array("/target\n^target/\ntarget\n")` |
| `Scenarios.GitignoreThroughVisitor` | src/lib.rs:124-137 | the same example stated through a fresh visitor with no file name and a working directory |
| `Scenarios.NoArgumentExample` | src/lib.rs:69-71 | `includeBytes()` fails with MissingArgument |
| `Scenarios.IdentifierArgumentExample` | src/lib.rs:73-75 | `includeBytes(p)`, with an identifier argument, fails with InvalidArgumentType |
| `Scenarios.NoCwdExample` | src/lib.rs:77-79 | a marker call with a literal path but no working directory fails with MissingCwd |
| `Scenarios.MissingFileExample` | src/lib.rs:83-85 | a literal path that resolves to no file fails with FileNotFound |
| `Scenarios.UnreadableFileExample` | src/lib.rs:87-89 | a path that exists but cannot be read as text fails with ReadFailure |
| `Scenarios.AbsolutePathExample` | src/lib.rs:81 | an absolute argument is read at its own path, not under the working directory |
| `Scenarios.TwoStatementsExample` | src/lib.rs:91-93 | two marker calls in two statements each receive their own file's text |
| `Scenarios.NestedMarkerExample` | src/lib.rs:41 | `includeBytes(f("x"))` rewrites the inner call; a second pass over that output rewrites it again |
| `Scenarios.NestedFixedPointExample` | src/lib.rs:41-93 | `includeBytes(f("x"))` with `x` holding the text `x`: the first pass gives `includeBytes(env.latin1_string_to_uint8array("x"))`, and a second pass gives back that same tree, although the program is not of the simple shape |
| `Scenarios.CalleePositionExample` | src/lib.rs:37-45 | a marker call in callee position, as in `includeBytes(".gitignore").slice(0)` or `includeBytes(".gitignore")()`, is never visited: under any working directory and any file system the program comes back unchanged with the flag lowered |

## Left out

- `process_transform`, the plugin macro, the metadata context lookup and the `println!` of the file name (src/lib.rs:112-118) are host plumbing, not the pass. A program is modelled as its list of top-level expression slots, walked by `WalkSeq` from a fresh visitor.
- The library's generic descent is replaced by a hand-written walk over five node kinds. Not modelled: spans, `super`/`import` callees, spread markers on arguments, type arguments, computed member properties, and optional-chaining calls. `Other` stands for every node kind whose expression children are simply walked in order.
- The file system is a map, so symbolic links, permissions and races are not modelled. They appear as a readable entry, as `Unreadable`, or, when the existence check cannot read the path's metadata (a broken symbolic link, a permission error), as an absent path (`FileNotFound`). Invalid UTF-8 is also `Unreadable`.
- `Files.JoinPath`: only POSIX joining is modelled. Windows drive and UNC prefixes are not.
- The tree is a value. Each hook returns the node it produced instead of writing through `&mut`. The Rust code replaces the callee before it checks the arguments (src/lib.rs:58). That intermediate state is never observable, because any failure aborts the whole transform and the model then returns an error with no tree.
- Panics are modelled as `Err` of one of five kinds. The panic message text is not modelled.
- `Properties.SecondPassIsNoOp`: this is stated only for trees of the simple shape, because the general claim is false (`Scenarios.NestedMarkerExample`).
- The test harness itself (src/lib.rs:124-137) is not modelled. Only its one case is kept, as `Scenarios.GitignoreExample`.
