/** What the walk guarantees: how the marker flag travels through a tree,
    which trees come back unchanged, what a marker call becomes, and when a
    second pass changes nothing. */
module Properties {
  import opened Ast
  import opened Files
  import opened Transform

  /** A call node that is walked without error always leaves the flag
      cleared: either it was not raised after the arguments, or the call
      consumed it. This only restates, on its own, one clause of `Walk`'s
      contract. */
  lemma WalkCallClearsFlag(cwd: Option<string>, fs: FileSystem, flag: bool, callee: Expr, args: seq<Expr>)
    requires Walk(cwd, fs, flag, Call(callee, args)).Ok?
    ensures !Walk(cwd, fs, flag, Call(callee, args)).value.1
  {
  }

  /** The flag survives a subtree exactly when the subtree holds no call:
      a call always leaves it cleared, nothing else raises it. */
  lemma {:induction false} WalkFlag(cwd: Option<string>, fs: FileSystem, flag: bool, e: Expr)
    requires Walk(cwd, fs, flag, e).Ok?
    ensures Walk(cwd, fs, flag, e).value.1 == (flag && CallFree(e))
    decreases e
  {
    match e
    case Ident(_) =>
    case Str(_) =>
    case Member(obj, _) =>
      WalkFlag(cwd, fs, flag, obj);
    case Other(children) =>
      WalkSeqFlag(cwd, fs, flag, children);
    case Call(_, _) =>
  }

  lemma {:induction false} WalkSeqFlag(cwd: Option<string>, fs: FileSystem, flag: bool, es: seq<Expr>)
    requires WalkSeq(cwd, fs, flag, es).Ok?
    ensures WalkSeq(cwd, fs, flag, es).value.1 == (flag && forall i :: 0 <= i < |es| ==> CallFree(es[i]))
    decreases es
  {
    if es != [] {
      WalkFlag(cwd, fs, flag, es[0]);
      var h := Walk(cwd, fs, flag, es[0]).value;
      WalkSeqFlag(cwd, fs, h.1, es[1..]);
      assert forall i :: 1 <= i < |es| ==> es[i] == es[1..][i - 1];
    }
  }

  /** The flag raised by a marker callee is never left pending once a
      whole program has been walked from a fresh visitor. */
  lemma FlagNeverLeaks(cwd: Option<string>, fs: FileSystem, program: seq<Expr>)
    requires WalkSeq(cwd, fs, false, program).Ok?
    ensures !WalkSeq(cwd, fs, false, program).value.1
  {
    WalkSeqFlag(cwd, fs, false, program);
  }

  /** A subtree with no call in it is handed back untouched and passes the
      flag through, whatever the flag. */
  lemma {:induction false} WalkCallFree(cwd: Option<string>, fs: FileSystem, flag: bool, e: Expr)
    requires CallFree(e)
    ensures Walk(cwd, fs, flag, e) == Ok((e, flag))
    decreases e
  {
    match e
    case Ident(_) =>
    case Str(_) =>
    case Member(obj, _) =>
      WalkCallFree(cwd, fs, flag, obj);
    case Other(children) =>
      WalkSeqCallFree(cwd, fs, flag, children);
  }

  lemma {:induction false} WalkSeqCallFree(cwd: Option<string>, fs: FileSystem, flag: bool, es: seq<Expr>)
    requires forall i :: 0 <= i < |es| ==> CallFree(es[i])
    ensures WalkSeq(cwd, fs, flag, es) == Ok((es, flag))
    decreases es
  {
    if es != [] {
      WalkCallFree(cwd, fs, flag, es[0]);
      assert forall i :: 0 <= i < |es| - 1 ==> es[1..][i] == es[i + 1];
      WalkSeqCallFree(cwd, fs, flag, es[1..]);
      assert [es[0]] + es[1..] == es;
    }
  }

  /** Entered with the flag down, a tree in which no inspected callee is
      the marker comes back unchanged and with the flag still down; no file
      is consulted. */
  lemma {:induction false} WalkMarkerFree(cwd: Option<string>, fs: FileSystem, e: Expr)
    requires MarkerFree(e)
    ensures Walk(cwd, fs, false, e) == Ok((e, false))
    decreases e
  {
    match e
    case Ident(_) =>
    case Str(_) =>
    case Member(obj, _) =>
      WalkMarkerFree(cwd, fs, obj);
    case Other(children) =>
      WalkSeqMarkerFree(cwd, fs, children);
    case Call(_, args) =>
      WalkSeqMarkerFree(cwd, fs, args);
  }

  lemma {:induction false} WalkSeqMarkerFree(cwd: Option<string>, fs: FileSystem, es: seq<Expr>)
    requires forall i :: 0 <= i < |es| ==> MarkerFree(es[i])
    ensures WalkSeq(cwd, fs, false, es) == Ok((es, false))
    decreases es
  {
    if es != [] {
      WalkMarkerFree(cwd, fs, es[0]);
      assert forall i :: 0 <= i < |es| - 1 ==> es[1..][i] == es[i + 1];
      WalkSeqMarkerFree(cwd, fs, es[1..]);
      assert [es[0]] + es[1..] == es;
    }
  }

  /** A tree that never mentions the marker identifier has no inspected
      marker callee. */
  lemma {:induction false} UnmentionedIsMarkerFree(e: Expr)
    requires !Mentions(e, MarkerName)
    ensures MarkerFree(e)
    decreases e
  {
    match e
    case Ident(_) =>
    case Str(_) =>
    case Member(obj, _) =>
      UnmentionedIsMarkerFree(obj);
    case Other(children) =>
      forall i | 0 <= i < |children| ensures MarkerFree(children[i]) {
        UnmentionedIsMarkerFree(children[i]);
      }
    case Call(callee, args) =>
      forall i | 0 <= i < |args| ensures MarkerFree(args[i]) {
        UnmentionedIsMarkerFree(args[i]);
      }
  }

  /** A program in which the marker name occurs nowhere is returned as it
      came in. */
  lemma NoMarkerNoChange(cwd: Option<string>, fs: FileSystem, program: seq<Expr>)
    requires forall i :: 0 <= i < |program| ==> !Mentions(program[i], MarkerName)
    ensures WalkSeq(cwd, fs, false, program) == Ok((program, false))
  {
    forall i | 0 <= i < |program| ensures MarkerFree(program[i]) {
      UnmentionedIsMarkerFree(program[i]);
    }
    WalkSeqMarkerFree(cwd, fs, program);
  }

  /** A marker call whose arguments hold no call consumes its own flag:
      whatever the flag on entry, the outcome is the failure ladder applied
      to that call's own arguments. */
  lemma MarkerCallRewritten(cwd: Option<string>, fs: FileSystem, flag: bool, callee: Expr, args: seq<Expr>)
    requires IsMarkerCallee(callee)
    requires forall i :: 0 <= i < |args| ==> CallFree(args[i])
    ensures Substitute(cwd, fs, args).Err? ==>
      Walk(cwd, fs, flag, Call(callee, args)) == Err(Substitute(cwd, fs, args).error)
    ensures Substitute(cwd, fs, args).Ok? ==>
      Walk(cwd, fs, flag, Call(callee, args)) == Ok((Substitute(cwd, fs, args).value, false))
  {
    WalkSeqCallFree(cwd, fs, true, args);
  }

  /** `includeBytes(P, rest...)` with `P` naming a readable file becomes
      `env.latin1_string_to_uint8array(C, rest...)` with `C` the file's
      text, and nothing else changes. */
  lemma MarkerCallSuccess(cwd: string, fs: FileSystem, path: string, rest: seq<Expr>)
    requires forall i :: 0 <= i < |rest| ==> CallFree(rest[i])
    requires JoinPath(cwd, path) in fs && fs[JoinPath(cwd, path)].Readable?
    ensures Walk(Some(cwd), fs, false, Call(Ident(MarkerName), [Str(path)] + rest))
      == Ok((Call(RuntimeCallee(), [Str(fs[JoinPath(cwd, path)].text)] + rest), false))
  {
    var args := [Str(path)] + rest;
    assert args[1..] == rest;
    MarkerCallRewritten(Some(cwd), fs, false, Ident(MarkerName), args);
  }

  /** The failure ladder seen from the walk, one rung at a time, for a
      marker call entered with the flag down. */
  lemma MarkerCallFailures(cwd: Option<string>, fs: FileSystem, args: seq<Expr>)
    requires forall i :: 0 <= i < |args| ==> CallFree(args[i])
    ensures |args| == 0 ==> Walk(cwd, fs, false, Call(Ident(MarkerName), args)) == Err(MissingArgument)
    ensures |args| > 0 && !args[0].Str? ==>
      Walk(cwd, fs, false, Call(Ident(MarkerName), args)) == Err(InvalidArgumentType)
    ensures |args| > 0 && args[0].Str? && cwd.None? ==>
      Walk(cwd, fs, false, Call(Ident(MarkerName), args)) == Err(MissingCwd)
    ensures |args| > 0 && args[0].Str? && cwd.Some? && JoinPath(cwd.value, args[0].value) !in fs ==>
      Walk(cwd, fs, false, Call(Ident(MarkerName), args)) == Err(FileNotFound)
    ensures (|args| > 0 && args[0].Str? && cwd.Some? && JoinPath(cwd.value, args[0].value) in fs
      && fs[JoinPath(cwd.value, args[0].value)].Unreadable?) ==>
      Walk(cwd, fs, false, Call(Ident(MarkerName), args)) == Err(ReadFailure)
  {
    MarkerCallRewritten(cwd, fs, false, Ident(MarkerName), args);
  }

  /** The flag is not tied to the call that raised it. In
      `includeBytes(g(args))`, whatever the callee `g` (another function, or
      the marker itself), the inner call's post-hook runs first and consumes the flag: the inner call is the one
      rewritten (or the one whose arguments fail the ladder), and the outer
      marker call is left as it is, its own argument never checked. */
  lemma InnerCallConsumesFlag(cwd: Option<string>, fs: FileSystem, g: Expr, args: seq<Expr>)
    requires forall i :: 0 <= i < |args| ==> CallFree(args[i])
    ensures Substitute(cwd, fs, args).Err? ==>
      Walk(cwd, fs, false, Call(Ident(MarkerName), [Call(g, args)]))
        == Err(Substitute(cwd, fs, args).error)
    ensures Substitute(cwd, fs, args).Ok? ==>
      Walk(cwd, fs, false, Call(Ident(MarkerName), [Call(g, args)]))
        == Ok((Call(Ident(MarkerName), [Substitute(cwd, fs, args).value]), false))
  {
    WalkSeqCallFree(cwd, fs, true, args);
    var inner := Walk(cwd, fs, true, Call(g, args));
    assert [Call(g, args)][0] == Call(g, args) && [Call(g, args)][1..] == [];
    assert WalkSeq(cwd, fs, false, []) == Ok(([], false));
    if inner.Ok? {
      assert inner == Ok((Substitute(cwd, fs, args).value, false));
      assert [inner.value.0] + [] == [inner.value.0];
      assert WalkSeq(cwd, fs, true, [Call(g, args)]) == Ok(([inner.value.0], false));
    }
  }

  /** In a tree of the simple shape, every walk that succeeds leaves the
      flag down and leaves no inspected marker callee behind. */
  lemma {:induction false} SimpleWalk(cwd: Option<string>, fs: FileSystem, e: Expr)
    requires Simple(e)
    requires Walk(cwd, fs, false, e).Ok?
    ensures !Walk(cwd, fs, false, e).value.1
    ensures MarkerFree(Walk(cwd, fs, false, e).value.0)
    decreases e
  {
    match e
    case Ident(_) =>
    case Str(_) =>
    case Member(obj, _) =>
      SimpleWalk(cwd, fs, obj);
    case Other(children) =>
      SimpleWalkSeq(cwd, fs, children);
    case Call(callee, args) =>
      if IsMarkerCallee(callee) {
        WalkSeqCallFree(cwd, fs, true, args);
        var s := Substitute(cwd, fs, args).value;
        forall i | 0 <= i < |s.args| ensures MarkerFree(s.args[i]) {
          if i > 0 {
            assert s.args[i] == args[i];
            CallFreeIsMarkerFree(args[i]);
          }
        }
      } else {
        SimpleWalkSeq(cwd, fs, args);
      }
  }

  lemma {:induction false} SimpleWalkSeq(cwd: Option<string>, fs: FileSystem, es: seq<Expr>)
    requires forall i :: 0 <= i < |es| ==> Simple(es[i])
    requires WalkSeq(cwd, fs, false, es).Ok?
    ensures !WalkSeq(cwd, fs, false, es).value.1
    ensures forall i :: 0 <= i < |WalkSeq(cwd, fs, false, es).value.0| ==>
      MarkerFree(WalkSeq(cwd, fs, false, es).value.0[i])
    decreases es
  {
    if es != [] {
      SimpleWalk(cwd, fs, es[0]);
      assert forall i :: 0 <= i < |es| - 1 ==> es[1..][i] == es[i + 1];
      SimpleWalkSeq(cwd, fs, es[1..]);
      var h := Walk(cwd, fs, false, es[0]).value;
      var t := WalkSeq(cwd, fs, false, es[1..]).value;
      assert WalkSeq(cwd, fs, false, es).value.0 == [h.0] + t.0;
    }
  }

  lemma {:induction false} CallFreeIsMarkerFree(e: Expr)
    requires CallFree(e)
    ensures MarkerFree(e)
    decreases e
  {
    match e
    case Ident(_) =>
    case Str(_) =>
    case Member(obj, _) =>
      CallFreeIsMarkerFree(obj);
    case Other(children) =>
      forall i | 0 <= i < |children| ensures MarkerFree(children[i]) {
        CallFreeIsMarkerFree(children[i]);
      }
  }

  /** For programs of the simple shape, running the pass again on its own
      output changes nothing and reads no file, whatever the file system
      then holds. */
  lemma SecondPassIsNoOp(cwd: Option<string>, fs: FileSystem, fs2: FileSystem, program: seq<Expr>)
    requires forall i :: 0 <= i < |program| ==> Simple(program[i])
    requires WalkSeq(cwd, fs, false, program).Ok?
    ensures WalkSeq(cwd, fs2, false, WalkSeq(cwd, fs, false, program).value.0)
      == Ok((WalkSeq(cwd, fs, false, program).value.0, false))
  {
    SimpleWalkSeq(cwd, fs, program);
    WalkSeqMarkerFree(cwd, fs2, WalkSeq(cwd, fs, false, program).value.0);
  }

  /** Statements that each leave the flag down are walked independently:
      the program's result is each statement's own result, in order. */
  lemma {:induction false} StatementsIndependent(cwd: Option<string>, fs: FileSystem, program: seq<Expr>, out: seq<Expr>)
    requires |out| == |program|
    requires forall i :: 0 <= i < |program| ==> Walk(cwd, fs, false, program[i]) == Ok((out[i], false))
    ensures WalkSeq(cwd, fs, false, program) == Ok((out, false))
    decreases program
  {
    if program != [] {
      assert forall i :: 0 <= i < |program| - 1 ==> program[1..][i] == program[i + 1] && out[1..][i] == out[i + 1];
      StatementsIndependent(cwd, fs, program[1..], out[1..]);
      assert [out[0]] + out[1..] == out;
    }
  }
}
