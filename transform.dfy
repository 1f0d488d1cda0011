/** The rewrite pass: the visitor object with its marker flag, its two
    hooks, and the post-order walk that drives them; with the pure
    functions that specify the walk. */
module Transform {
  import opened Ast
  import opened Files

  /** The path a marker argument resolves to under the working directory. */
  function ResolvedPath(cwd: string, arg: Expr): string
    requires arg.Str?
  {
    JoinPath(cwd, arg.value)
  }

  /** The post-hook of a call expression when the flag is raised: the call
      to the runtime decoder with the file text in place of the first
      argument, or the first condition of the failure ladder that fires. */
  function Substitute(cwd: Option<string>, fs: FileSystem, args: seq<Expr>): (r: Result<Expr>)
    ensures r == Err(MissingArgument) <==> |args| == 0
    ensures r == Err(InvalidArgumentType) <==> |args| > 0 && !args[0].Str?
    ensures r == Err(MissingCwd) <==> |args| > 0 && args[0].Str? && cwd.None?
    ensures r == Err(FileNotFound) <==>
      |args| > 0 && args[0].Str? && cwd.Some? && ResolvedPath(cwd.value, args[0]) !in fs
    ensures r == Err(ReadFailure) <==>
      |args| > 0 && args[0].Str? && cwd.Some? && ResolvedPath(cwd.value, args[0]) in fs
      && fs[ResolvedPath(cwd.value, args[0])].Unreadable?
    ensures r.Ok? ==>
      |args| > 0 && args[0].Str? && cwd.Some? && ResolvedPath(cwd.value, args[0]) in fs
      && fs[ResolvedPath(cwd.value, args[0])].Readable?
      && r.value == Call(RuntimeCallee(), [Str(fs[ResolvedPath(cwd.value, args[0])].text)] + args[1..])
  {
    if |args| == 0 then Err(MissingArgument)
    else if !args[0].Str? then Err(InvalidArgumentType)
    else if cwd.None? then Err(MissingCwd)
    else
      var contents :- ReadFile(fs, ResolvedPath(cwd.value, args[0]));
      Ok(Call(RuntimeCallee(), [Str(contents)] + args[1..]))
  }

  /** The walk of one expression slot entered with flag `flag`: the
      rewritten node and the flag afterwards, or the error that aborts.
      A call's callee slot is inspected, before the arguments, but never
      walked; the arguments are walked with the flag raised if the callee is
      the marker; the call's own post-hook runs last. */
  function Walk(cwd: Option<string>, fs: FileSystem, flag: bool, e: Expr): (r: Result<(Expr, bool)>)
    ensures e.Ident? || e.Str? ==> r == Ok((e, flag))
    ensures r.Ok? && e.Member? ==> r.value.0.Member? && r.value.0.prop == e.prop
    ensures r.Ok? && e.Other? ==> r.value.0.Other? && |r.value.0.children| == |e.children|
    ensures r.Ok? && e.Call? ==>
      !r.value.1 && r.value.0.Call? && |r.value.0.args| == |e.args|
      && (r.value.0.callee == e.callee || r.value.0.callee == RuntimeCallee())
    decreases e
  {
    match e
    case Ident(_) => Ok((e, flag))
    case Str(_) => Ok((e, flag))
    case Member(obj, prop) =>
      var o :- Walk(cwd, fs, flag, obj);
      Ok((Member(o.0, prop), o.1))
    case Other(children) =>
      var c :- WalkSeq(cwd, fs, flag, children);
      Ok((Other(c.0), c.1))
    case Call(callee, args) =>
      var a :- WalkSeq(cwd, fs, flag || IsMarkerCallee(callee), args);
      if !a.1 then Ok((Call(callee, a.0), false))
      else
        var s :- Substitute(cwd, fs, a.0);
        Ok((s, false))
  }

  /** The walk of a list of expression slots, left to right, threading the flag. */
  function WalkSeq(cwd: Option<string>, fs: FileSystem, flag: bool, es: seq<Expr>): (r: Result<(seq<Expr>, bool)>)
    ensures r.Ok? ==> |r.value.0| == |es|
    ensures |es| > 0 && Walk(cwd, fs, flag, es[0]).Err? ==> r == Err(Walk(cwd, fs, flag, es[0]).error)
    ensures |es| > 0 && r.Ok? ==>
      Walk(cwd, fs, flag, es[0]).Ok? && r.value.0[0] == Walk(cwd, fs, flag, es[0]).value.0
    decreases es
  {
    if es == [] then Ok(([], flag))
    else
      var h :- Walk(cwd, fs, flag, es[0]);
      var t :- WalkSeq(cwd, fs, h.1, es[1..]);
      Ok(([h.0] + t.0, t.1))
  }

  /** The walk of a list, given the nodes already walked and the walk of the rest. */
  function Prepend(done: seq<Expr>, rest: Result<(seq<Expr>, bool)>): Result<(seq<Expr>, bool)> {
    match rest
    case Ok(p) => Ok((done + p.0, p.1))
    case Err(k) => Err(k)
  }

  lemma PrependNothing(rest: Result<(seq<Expr>, bool)>)
    ensures Prepend([], rest) == rest
  {
    if rest.Ok? {
      assert [] + rest.value.0 == rest.value.0;
    }
  }

  /** One step of the walk of a suffix: its first slot, then the rest. */
  lemma WalkSeqUnfold(cwd: Option<string>, fs: FileSystem, flag: bool, es: seq<Expr>, i: nat)
    requires i < |es|
    ensures WalkSeq(cwd, fs, flag, es[i..]) ==
      match Walk(cwd, fs, flag, es[i])
      case Err(k) => Err(k)
      case Ok(h) => Prepend([h.0], WalkSeq(cwd, fs, h.1, es[i + 1..]))
  {
    assert es[i..][0] == es[i] && es[i..][1..] == es[i + 1..];
  }

  lemma PrependAppend(done: seq<Expr>, v: Expr, rest: Result<(seq<Expr>, bool)>)
    ensures Prepend(done, Prepend([v], rest)) == Prepend(done + [v], rest)
  {
    if rest.Ok? {
      assert done + ([v] + rest.value.0) == (done + [v]) + rest.value.0;
    }
  }

  /** The visitor. Its one piece of mutable state is the marker flag; the
      working directory and file name are fixed at construction. A walk
      that aborts leaves no tree behind, so each hook returns the node it
      produced instead of writing through a reference. */
  class TransformVisitor {
    var isIncludeBytes: bool
    const cwd: Option<string>
    /** Accepted and kept, never read by the transform. */
    const filename: Option<string>

    constructor (filename: Option<string>, cwd: Option<string>)
      ensures !isIncludeBytes
      ensures this.filename == filename && this.cwd == cwd
    {
      this.isIncludeBytes := false;
      this.filename := filename;
      this.cwd := cwd;
    }

    /** The hook on a call's callee slot: raises the flag on a bare marker
        identifier, leaves it alone on any other callee, and neither
        descends into nor changes the callee. */
    method VisitMutCallee(callee: Expr)
      modifies this
      ensures IsMarkerCallee(callee) ==> isIncludeBytes
      ensures !IsMarkerCallee(callee) ==> isIncludeBytes == old(isIncludeBytes)
    {
      if callee.Ident? {
        if callee.sym == MarkerName {
          isIncludeBytes := true;
        }
      }
    }

    /** The hook on every expression: visit the children first, then, if
        the flag is raised and the node is a call, rewrite it and clear the
        flag. */
    method VisitMutExpr(fs: FileSystem, n: Expr) returns (r: Result<Expr>)
      modifies this
      decreases n, 1
      ensures Walk(cwd, fs, old(isIncludeBytes), n).Err? ==>
        r == Err(Walk(cwd, fs, old(isIncludeBytes), n).error)
      ensures Walk(cwd, fs, old(isIncludeBytes), n).Ok? ==>
        r == Ok(Walk(cwd, fs, old(isIncludeBytes), n).value.0)
        && isIncludeBytes == Walk(cwd, fs, old(isIncludeBytes), n).value.1
    {
      var m: Expr;
      match n {
        case Ident(_) =>
          m := n;
        case Str(_) =>
          m := n;
        case Member(obj, prop) =>
          var o := VisitMutExpr(fs, obj);
          if o.Err? {
            return Err(o.error);
          }
          m := Member(o.value, prop);
        case Other(children) =>
          var c := VisitMutExprs(fs, children);
          if c.Err? {
            return Err(c.error);
          }
          m := Other(c.value);
        case Call(callee, args) =>
          VisitMutCallee(callee);
          var a := VisitMutExprs(fs, args);
          if a.Err? {
            return Err(a.error);
          }
          m := Call(callee, a.value);
      }

      if !isIncludeBytes {
        return Ok(m);
      }
      if !m.Call? {
        return Ok(m);
      }

      var args := m.args;
      if |args| == 0 {
        return Err(MissingArgument);
      }
      if !args[0].Str? {
        return Err(InvalidArgumentType);
      }
      if cwd.None? {
        return Err(MissingCwd);
      }
      var path := JoinPath(cwd.value, args[0].value);
      if path !in fs {
        return Err(FileNotFound);
      }
      if fs[path].Unreadable? {
        return Err(ReadFailure);
      }
      r := Ok(Call(RuntimeCallee(), [Str(fs[path].text)] + args[1..]));
      isIncludeBytes := false;
    }

    /** The walk of a list of expression slots, in order; the first
        failure aborts the rest. */
    method VisitMutExprs(fs: FileSystem, es: seq<Expr>) returns (r: Result<seq<Expr>>)
      modifies this
      decreases es, 0
      ensures WalkSeq(cwd, fs, old(isIncludeBytes), es).Err? ==>
        r == Err(WalkSeq(cwd, fs, old(isIncludeBytes), es).error)
      ensures WalkSeq(cwd, fs, old(isIncludeBytes), es).Ok? ==>
        r == Ok(WalkSeq(cwd, fs, old(isIncludeBytes), es).value.0)
        && isIncludeBytes == WalkSeq(cwd, fs, old(isIncludeBytes), es).value.1
    {
      var done: seq<Expr> := [];
      var i := 0;
      assert es[i..] == es;
      PrependNothing(WalkSeq(cwd, fs, isIncludeBytes, es));
      while i < |es|
        invariant 0 <= i <= |es|
        invariant WalkSeq(cwd, fs, old(isIncludeBytes), es)
          == Prepend(done, WalkSeq(cwd, fs, isIncludeBytes, es[i..]))
      {
        WalkSeqUnfold(cwd, fs, isIncludeBytes, es, i);
        var v := VisitMutExpr(fs, es[i]);
        if v.Err? {
          return Err(v.error);
        }
        PrependAppend(done, v.value, WalkSeq(cwd, fs, isIncludeBytes, es[i + 1..]));
        done := done + [v.value];
        i := i + 1;
      }
      assert es[i..] == [] && done + [] == done;
      r := Ok(done);
    }
  }
}
