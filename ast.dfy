/** The closed expression tree the rewrite pass works on, the marker and
    runtime names it fixes, and structural predicates about which nodes the
    walk inspects. */
module Ast {

  /** An expression node. `Call` is `<callee>(<args>)`; `Member` is
      `obj.prop` with a plain identifier as property; `Str` is a string
      literal; `Other` stands for every other node kind, listed by the
      expression children the walk descends into. */
  datatype Expr =
    | Ident(sym: string)
    | Str(value: string)
    | Call(callee: Expr, args: seq<Expr>)
    | Member(obj: Expr, prop: string)
    | Other(children: seq<Expr>)

  /** The marker function's name. */
  const MarkerName: string := "includeBytes"
  /** The object and method the rewritten call invokes. */
  const RuntimeObject: string := "env"
  const RuntimeMethod: string := "latin1_string_to_uint8array"

  /** A callee the recogniser flags: a bare identifier whose symbol is the marker. */
  predicate IsMarkerCallee(callee: Expr): (b: bool)
    ensures b <==> callee == Ident(MarkerName)
  {
    callee.Ident? && callee.sym == MarkerName
  }

  /** The callee a rewritten call receives: `env.latin1_string_to_uint8array`.
      It is a member expression, so a later visit of it never raises the flag. */
  function RuntimeCallee(): (r: Expr)
    ensures r.Member? && r.obj == Ident(RuntimeObject) && r.prop == RuntimeMethod
    ensures !IsMarkerCallee(r)
  {
    Member(Ident(RuntimeObject), RuntimeMethod)
  }

  /** No call node in any position the walk visits as an expression. A
      callee is not such a position, so only the call node itself matters
      there. */
  predicate CallFree(e: Expr) {
    match e
    case Ident(_) => true
    case Str(_) => true
    case Call(_, _) => false
    case Member(obj, _) => CallFree(obj)
    case Other(children) => forall i :: 0 <= i < |children| ==> CallFree(children[i])
  }

  /** No call whose callee the recogniser inspects is the marker identifier. */
  predicate MarkerFree(e: Expr) {
    match e
    case Ident(_) => true
    case Str(_) => true
    case Call(callee, args) =>
      !IsMarkerCallee(callee) && forall i :: 0 <= i < |args| ==> MarkerFree(args[i])
    case Member(obj, _) => MarkerFree(obj)
    case Other(children) => forall i :: 0 <= i < |children| ==> MarkerFree(children[i])
  }

  /** The identifier `name` occurs somewhere in the tree, callee positions
      included. */
  predicate Mentions(e: Expr, name: string) {
    match e
    case Ident(sym) => sym == name
    case Str(_) => false
    case Call(callee, args) =>
      Mentions(callee, name) || exists i :: 0 <= i < |args| && Mentions(args[i], name)
    case Member(obj, prop) => Mentions(obj, name)
    case Other(children) => exists i :: 0 <= i < |children| && Mentions(children[i], name)
  }

  /** Every marker call visited has arguments without any call in them: the
      shape in which the flag a marker call raises is consumed by that same
      call. */
  predicate Simple(e: Expr) {
    match e
    case Ident(_) => true
    case Str(_) => true
    case Call(callee, args) =>
      (IsMarkerCallee(callee) ==> forall i :: 0 <= i < |args| ==> CallFree(args[i]))
      && forall i :: 0 <= i < |args| ==> Simple(args[i])
    case Member(obj, _) => Simple(obj)
    case Other(children) => forall i :: 0 <= i < |children| ==> Simple(children[i])
  }
}
