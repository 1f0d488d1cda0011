/** Concrete inputs to the pass: the repository's own example, the failure
    ladder on small inputs, an absolute path, two statements side by side,
    the nested marker call whose inner call is the one rewritten, and a
    marker call in callee position that the walk never visits. */
module Scenarios {
  import opened Ast
  import opened Files
  import opened Transform
  import opened Properties

  const GitignoreText: string := "/target\n^target/\ntarget\n"

  /** A working tree holding the repository's ignore file. */
  function RepoFiles(): FileSystem {
    map["/repo/.gitignore" := Readable(GitignoreText)]
  }

  function IncludeBytes(args: seq<Expr>): Expr {
    Call(Ident(MarkerName), args)
  }

  /** `const s = includeBytes(".gitignore");` becomes
      `const s = env.latin1_string_to_uint8array("/target\n^target/\ntarget\n");`. */
  lemma GitignoreExample()
    ensures Walk(Some("/repo"), RepoFiles(), false, IncludeBytes([Str(".gitignore")]))
      == Ok((Call(Member(Ident("env"), "latin1_string_to_uint8array"), [Str(GitignoreText)]), false))
  {
    assert JoinPath("/repo", ".gitignore") == "/repo/.gitignore";
    MarkerCallSuccess("/repo", RepoFiles(), ".gitignore", []);
    assert [Str(".gitignore")] + [] == [Str(".gitignore")];
    assert [Str(GitignoreText)] + [] == [Str(GitignoreText)];
  }

  /** The same example stated through the visitor object, built as the
      repository's test builds it: a fresh visitor with no file name and the
      working directory set. */
  method GitignoreThroughVisitor() returns (r: Result<Expr>)
    ensures r == Ok(Call(RuntimeCallee(), [Str(GitignoreText)]))
  {
    var visitor := new TransformVisitor(None, Some("/repo"));
    GitignoreExample();
    r := visitor.VisitMutExpr(RepoFiles(), IncludeBytes([Str(".gitignore")]));
    assert !visitor.isIncludeBytes;
  }

  /** The ladder on concrete marker calls, one rung per lemma. */
  lemma NoArgumentExample()
    ensures Walk(Some("/repo"), RepoFiles(), false, IncludeBytes([])) == Err(MissingArgument)
  {
    MarkerCallFailures(Some("/repo"), RepoFiles(), []);
  }

  lemma IdentifierArgumentExample()
    ensures Walk(Some("/repo"), RepoFiles(), false, IncludeBytes([Ident("p")])) == Err(InvalidArgumentType)
  {
    MarkerCallFailures(Some("/repo"), RepoFiles(), [Ident("p")]);
  }

  lemma NoCwdExample()
    ensures Walk(None, RepoFiles(), false, IncludeBytes([Str(".gitignore")])) == Err(MissingCwd)
  {
    MarkerCallFailures(None, RepoFiles(), [Str(".gitignore")]);
  }

  lemma MissingFileExample()
    ensures Walk(Some("/repo"), RepoFiles(), false, IncludeBytes([Str("absent")])) == Err(FileNotFound)
  {
    assert JoinPath("/repo", "absent") == "/repo/absent";
    MarkerCallFailures(Some("/repo"), RepoFiles(), [Str("absent")]);
  }

  lemma UnreadableFileExample()
    ensures Walk(Some("/repo"), map["/repo/bin" := Unreadable], false, IncludeBytes([Str("bin")]))
      == Err(ReadFailure)
  {
    assert JoinPath("/repo", "bin") == "/repo/bin";
    MarkerCallFailures(Some("/repo"), map["/repo/bin" := Unreadable], [Str("bin")]);
  }

  /** An absolute argument is read where it points, not under the working
      directory. */
  lemma AbsolutePathExample()
    ensures Walk(Some("/elsewhere"), RepoFiles(), false, IncludeBytes([Str("/repo/.gitignore")]))
      == Ok((Call(RuntimeCallee(), [Str(GitignoreText)]), false))
  {
    assert JoinPath("/elsewhere", "/repo/.gitignore") == "/repo/.gitignore";
    MarkerCallSuccess("/elsewhere", RepoFiles(), "/repo/.gitignore", []);
    assert [Str("/repo/.gitignore")] + [] == [Str("/repo/.gitignore")];
    assert [Str(GitignoreText)] + [] == [Str(GitignoreText)];
  }

  /** Two marker calls in two statements each receive their own file. */
  lemma TwoStatementsExample()
    ensures WalkSeq(Some("/r"), map["/r/a" := Readable("A"), "/r/b" := Readable("B")], false,
        [IncludeBytes([Str("a")]), IncludeBytes([Str("b")])])
      == Ok(([Call(RuntimeCallee(), [Str("A")]), Call(RuntimeCallee(), [Str("B")])], false))
  {
    var fs := map["/r/a" := Readable("A"), "/r/b" := Readable("B")];
    assert JoinPath("/r", "a") == "/r/a";
    assert JoinPath("/r", "b") == "/r/b";
    MarkerCallSuccess("/r", fs, "a", []);
    MarkerCallSuccess("/r", fs, "b", []);
    assert [Str("a")] + [] == [Str("a")] && [Str("A")] + [] == [Str("A")];
    assert [Str("b")] + [] == [Str("b")] && [Str("B")] + [] == [Str("B")];
    StatementsIndependent(Some("/r"), fs, [IncludeBytes([Str("a")]), IncludeBytes([Str("b")])],
      [Call(RuntimeCallee(), [Str("A")]), Call(RuntimeCallee(), [Str("B")])]);
  }

  /** `includeBytes(f("x"))`: the inner `f("x")` is rewritten and the outer
      marker call survives. A second pass then rewrites the already
      rewritten call again, reading a file named by the first file's text:
      the pass is not idempotent on this input. */
  lemma NestedMarkerExample()
    ensures Walk(Some("/r"), map["/r/x" := Readable("y"), "/r/y" := Readable("z")], false,
        IncludeBytes([Call(Ident("f"), [Str("x")])]))
      == Ok((IncludeBytes([Call(RuntimeCallee(), [Str("y")])]), false))
    ensures Walk(Some("/r"), map["/r/x" := Readable("y"), "/r/y" := Readable("z")], false,
        IncludeBytes([Call(RuntimeCallee(), [Str("y")])]))
      == Ok((IncludeBytes([Call(RuntimeCallee(), [Str("z")])]), false))
  {
    var fs := map["/r/x" := Readable("y"), "/r/y" := Readable("z")];
    assert JoinPath("/r", "x") == "/r/x";
    assert JoinPath("/r", "y") == "/r/y";
    InnerCallConsumesFlag(Some("/r"), fs, Ident("f"), [Str("x")]);
    InnerCallConsumesFlag(Some("/r"), fs, RuntimeCallee(), [Str("y")]);
    assert [Str("x")][1..] == [] && [Str("y")][1..] == [];
    assert [Str("y")] + [] == [Str("y")] && [Str("z")] + [] == [Str("z")];
    assert Substitute(Some("/r"), fs, [Str("x")]) == Ok(Call(RuntimeCallee(), [Str("y")]));
    assert Substitute(Some("/r"), fs, [Str("y")]) == Ok(Call(RuntimeCallee(), [Str("z")]));
  }

  /** A program not of the simple shape on which a second pass still
      changes nothing: `includeBytes(f("x"))` where `x` holds the text `x`. */
  lemma NestedFixedPointExample()
    ensures Walk(Some("/r"), map["/r/x" := Readable("x")], false,
        IncludeBytes([Call(Ident("f"), [Str("x")])]))
      == Ok((IncludeBytes([Call(RuntimeCallee(), [Str("x")])]), false))
    ensures Walk(Some("/r"), map["/r/x" := Readable("x")], false,
        IncludeBytes([Call(RuntimeCallee(), [Str("x")])]))
      == Ok((IncludeBytes([Call(RuntimeCallee(), [Str("x")])]), false))
  {
    var fs := map["/r/x" := Readable("x")];
    assert JoinPath("/r", "x") == "/r/x";
    InnerCallConsumesFlag(Some("/r"), fs, Ident("f"), [Str("x")]);
    InnerCallConsumesFlag(Some("/r"), fs, RuntimeCallee(), [Str("x")]);
    assert [Str("x")][1..] == [] && [Str("x")] + [] == [Str("x")];
    assert Substitute(Some("/r"), fs, [Str("x")]) == Ok(Call(RuntimeCallee(), [Str("x")]));
  }

  /** A marker call inside another call's callee is never visited, so
      `includeBytes(".gitignore").slice(0)` and `includeBytes(".gitignore")()`
      come back unchanged under every file system, even one that holds the
      file (the literal `0` stands as a leaf of `Other`). */
  lemma CalleePositionExample(cwd: Option<string>, fs: FileSystem)
    ensures Walk(cwd, fs, false,
        Call(Member(IncludeBytes([Str(".gitignore")]), "slice"), [Other([])]))
      == Ok((Call(Member(IncludeBytes([Str(".gitignore")]), "slice"), [Other([])]), false))
    ensures Walk(cwd, fs, false, Call(IncludeBytes([Str(".gitignore")]), []))
      == Ok((Call(IncludeBytes([Str(".gitignore")]), []), false))
  {
    assert MarkerFree([Other([])][0]);
    WalkMarkerFree(cwd, fs, Call(Member(IncludeBytes([Str(".gitignore")]), "slice"), [Other([])]));
    WalkMarkerFree(cwd, fs, Call(IncludeBytes([Str(".gitignore")]), []));
  }
}
