/**
 * `receiverIsLegacyHandle` and `txParamOriginIsLegacy` of apps/webapp/scripts/runOpsLegacyGuard.ts,
 * over a source file's syntax tree with TypeScript's symbol resolution as part of each identifier.
 */
module LegacyHandle {
  import opened Wrappers

  type Id = nat

  /**
   * A node of the tree. `Wrapped` is a parenthesized, `as`, `satisfies` or non-null expression,
   * and an identifier carries the declaration its symbol resolves to.
   */
  datatype Shape =
    | Wrapped(paren: bool, inner: Id)
    | Identifier(text: string, declaration: Option<Id>)
    | Variable(initializer: Option<Id>)
    | Parameter
    | FunctionLike
    | Call(callee: Option<string>, args: seq<Id>)
    | Other

  datatype Node = Node(shape: Shape, parent: Option<Id>)

  /** Nodes in pre-order: what a wrapper holds comes later, a parent comes earlier. */
  type Ast = nodes: seq<Node> | IsAst(nodes) witness []

  predicate IsAst(nodes: seq<Node>) {
    forall i | 0 <= i < |nodes| ::
      && (nodes[i].parent.Some? ==> nodes[i].parent.value < i)
      && match nodes[i].shape {
           case Wrapped(_, inner) => i < inner < |nodes|
           case Identifier(_, Some(d)) => d < |nodes|
           case Variable(Some(e)) => e < |nodes|
           case Call(_, args) => forall a | a in args :: a < |nodes|
           case _ => true
         }
  }

  const LEGACY_HANDLE_NAMES := {"runOpsLegacyPrisma", "runOpsLegacyReplica"}
  const TX_ORIGIN_FNS := {"$transaction", "runInTransaction"}

  /** The expression inside the wrappers. */
  function Unwrap(ast: Ast, e: Id): (r: Id)
    requires e < |ast|
    ensures r < |ast| && !ast[r].shape.Wrapped?
    decreases |ast| - e
  {
    if ast[e].shape.Wrapped? then Unwrap(ast, ast[e].shape.inner) else e
  }

  /** The outermost parentheses around a node. */
  function Container(ast: Ast, n: Id): (r: Id)
    requires n < |ast|
    ensures r < |ast|
    decreases n
  {
    var up := ast[n].parent;
    if up.Some? && ast[up.value].shape.Wrapped? && ast[up.value].shape.paren then Container(ast, up.value) else n
  }

  /** The client a callback parameter is bound to: the first argument of the transaction call. */
  function TxOrigin(ast: Ast, param: Id): (r: Option<Id>)
    requires param < |ast|
    ensures r.Some? ==> r.value < |ast|
  {
    var fn := ast[param].parent;
    if fn.None? || !ast[fn.value].shape.FunctionLike? then None
    else
      var container := Container(ast, fn.value);
      var call := ast[container].parent;
      if call.None? || !ast[call.value].shape.Call? then None
      else
        var Call(callee, args) := ast[call.value].shape;
        assert container in args ==> args[0] in args;
        if container !in args || callee.None? || callee.value !in TX_ORIGIN_FNS then None else Some(args[0])
  }

  /** The handle's own name stands here. */
  predicate LegacyName(ast: Ast, e: Id)
    requires e < |ast|
  {
    var shape := ast[Unwrap(ast, e)].shape;
    shape.Identifier? && shape.text in LEGACY_HANDLE_NAMES
  }

  /** Where an expression gets its client from: the initializer or the transaction it resolves to. */
  function Origin(ast: Ast, e: Id): (r: Option<Id>)
    requires e < |ast|
    ensures r.Some? ==> r.value < |ast|
  {
    match ast[Unwrap(ast, e)].shape
    case Identifier(_, Some(d)) =>
      if ast[d].shape.Variable? && ast[d].shape.initializer.Some? then ast[d].shape.initializer
      else if ast[d].shape.Parameter? then TxOrigin(ast, d)
      else None
    case _ => None
  }

  /** The expression `k` origins back. */
  function OriginAfter(ast: Ast, e: Id, k: nat): (r: Option<Id>)
    requires e < |ast|
    ensures r.Some? ==> r.value < |ast|
    decreases k
  {
    if k == 0 then Some(e)
    else if Origin(ast, e).None? then None
    else OriginAfter(ast, Origin(ast, e).value, k - 1)
  }

  /** Following origins from `e` leads to a legacy handle. */
  ghost predicate ComesFromLegacy(ast: Ast, e: Id)
    requires e < |ast|
  {
    exists k: nat :: OriginAfter(ast, e, k).Some? && LegacyName(ast, OriginAfter(ast, e, k).value)
  }

  lemma ComesFromOrigin(ast: Ast, e: Id)
    requires e < |ast|
    ensures ComesFromLegacy(ast, e) <==> LegacyName(ast, e) || (Origin(ast, e).Some? && ComesFromLegacy(ast, Origin(ast, e).value))
  {
    assert OriginAfter(ast, e, 0) == Some(e);
    if k: nat :| OriginAfter(ast, e, k).Some? && LegacyName(ast, OriginAfter(ast, e, k).value) {
      if k > 0 {
        assert OriginAfter(ast, Origin(ast, e).value, k - 1) == OriginAfter(ast, e, k);
      }
    }
    if Origin(ast, e).Some? && ComesFromLegacy(ast, Origin(ast, e).value) {
      var k: nat :| OriginAfter(ast, Origin(ast, e).value, k).Some? && LegacyName(ast, OriginAfter(ast, Origin(ast, e).value, k).value);
      assert OriginAfter(ast, e, k + 1) == OriginAfter(ast, Origin(ast, e).value, k);
    }
  }

  // ---------------------------------------------------------------- read off the tree

  predicate InParens(ast: Ast, n: Id)
    requires n < |ast|
  {
    ast[n].parent.Some? && ast[ast[n].parent.value].shape.Wrapped? && ast[ast[n].parent.value].shape.paren
  }

  /** `outer` is `n`, or the outermost of the parentheses around it. */
  predicate Around(ast: Ast, n: Id, outer: Id)
    requires n < |ast|
    decreases n
  {
    if InParens(ast, n) then Around(ast, ast[n].parent.value, outer) else n == outer
  }

  /** `param` belongs to a callback that, parentheses aside, is an argument of a transaction call on `client`. */
  ghost predicate TransactionParam(ast: Ast, param: Id, client: Id)
    requires param < |ast|
  {
    exists fn: Id, outer: Id, call: Id :: TransactionCallback(ast, param, client, fn, outer, call)
  }

  predicate TransactionCallback(ast: Ast, param: Id, client: Id, fn: Id, outer: Id, call: Id)
    requires param < |ast|
  {
    && fn < |ast| && outer < |ast| && call < |ast|
    && ast[param].parent == Some(fn) && ast[fn].shape.FunctionLike? && Around(ast, fn, outer)
    && ast[outer].parent == Some(call) && ast[call].shape.Call? && outer in ast[call].shape.args
    && (ast[call].shape.callee == Some("$transaction") || ast[call].shape.callee == Some("runInTransaction"))
    && client == ast[call].shape.args[0]
  }

  lemma {:induction false} AroundIs(ast: Ast, n: Id, outer: Id)
    requires n < |ast|
    ensures Around(ast, n, outer) <==> outer == Container(ast, n)
    decreases n
  {
    if InParens(ast, n) {
      AroundIs(ast, ast[n].parent.value, outer);
    }
  }

  lemma TxOriginIs(ast: Ast, param: Id, client: Id)
    requires param < |ast|
    ensures TxOrigin(ast, param) == Some(client) <==> TransactionParam(ast, param, client)
  {
    var fn := ast[param].parent;
    if fn.Some? {
      var outer := Container(ast, fn.value);
      AroundIs(ast, fn.value, outer);
      if TxOrigin(ast, param) == Some(client) {
        assert TransactionCallback(ast, param, client, fn.value, outer, ast[outer].parent.value);
      }
      if TransactionParam(ast, param, client) {
        var f: Id, o: Id, call: Id :| TransactionCallback(ast, param, client, f, o, call);
        AroundIs(ast, f, o);
      }
    }
  }

  /**
   * The whole rule on the syntax tree: through wrappers, an identifier is a handle by its name, by
   * the initializer of the variable it resolves to, or by the client of the transaction it is bound in.
   */
  lemma LegacyByShape(ast: Ast, e: Id)
    requires e < |ast|
    ensures ComesFromLegacy(ast, e) <==>
      match ast[e].shape
      case Wrapped(_, inner) => ComesFromLegacy(ast, inner)
      case Identifier(text, declaration) =>
        || text == "runOpsLegacyPrisma" || text == "runOpsLegacyReplica"
        || (declaration.Some? &&
            match ast[declaration.value].shape
            case Variable(Some(initializer)) => ComesFromLegacy(ast, initializer)
            case Parameter =>
              exists client: Id :: client < |ast| && TransactionParam(ast, declaration.value, client) && ComesFromLegacy(ast, client)
            case _ => false)
      case _ => false
  {
    ComesFromOrigin(ast, e);
    if ast[e].shape.Wrapped? {
      ComesFromOrigin(ast, ast[e].shape.inner);
    } else if ast[e].shape.Identifier? && ast[e].shape.declaration.Some? {
      var d := ast[e].shape.declaration.value;
      forall client: Id | client < |ast| { TxOriginIs(ast, d, client); }
    }
  }

  /** Nothing here is a handle, and each origin is here too or is `next`. */
  ghost predicate Followed(ast: Ast, s: set<Id>, next: Id) {
    forall e | e in s :: e < |ast| && !LegacyName(ast, e) && (Origin(ast, e).Some? ==> Origin(ast, e).value in s + {next})
  }

  /** Aliases that lead back into what was already followed never reach a handle. */
  lemma {:induction false} CycleHasNoHandle(ast: Ast, s: set<Id>, e: Id, k: nat)
    requires e in s && Followed(ast, s, e) && OriginAfter(ast, e, k).Some?
    ensures !LegacyName(ast, OriginAfter(ast, e, k).value)
    decreases k
  {
    if k > 0 {
      assert s + {e} == s;
      CycleHasNoHandle(ast, s, Origin(ast, e).value, k - 1);
    }
  }

  /** One question to the guard: the tree, and the visited set both recursions share. */
  class OriginWalk {
    const ast: Ast
    var seen: set<Id>

    constructor (a: Ast)
      ensures ast == a && seen == {}
    {
      ast := a;
      seen := {};
    }

    function Unseen(): nat
      reads this
    {
      |set i | 0 <= i < |ast| && i !in seen|
    }

    method ReceiverIsLegacyHandle(node: Id) returns (r: bool)
      requires node < |ast| && Followed(ast, seen, node)
      modifies this`seen
      ensures r <==> ComesFromLegacy(ast, node)
      decreases Unseen(), 1
    {
      if node in seen {
        forall k: nat | OriginAfter(ast, node, k).Some? ensures !LegacyName(ast, OriginAfter(ast, node, k).value) {
          CycleHasNoHandle(ast, seen, node, k);
        }
        return false;
      }
      ghost var before := set i | 0 <= i < |ast| && i !in seen;
      seen := seen + {node};
      UnseenShrinks(before, node);
      ComesFromOrigin(ast, node);
      var e := node;
      while ast[e].shape.Wrapped?
        invariant e < |ast| && Unwrap(ast, e) == Unwrap(ast, node)
        decreases |ast| - e
      {
        e := ast[e].shape.inner;
      }
      if !ast[e].shape.Identifier? {
        return false;
      }
      if ast[e].shape.text in LEGACY_HANDLE_NAMES {
        return true;
      }
      if ast[e].shape.declaration.None? {
        return false;
      }
      var d := ast[e].shape.declaration.value;
      if ast[d].shape.Variable? && ast[d].shape.initializer.Some? {
        r := ReceiverIsLegacyHandle(ast[d].shape.initializer.value);
      } else if ast[d].shape.Parameter? {
        r := TxParamOriginIsLegacy(d);
      } else {
        r := false;
      }
    }

    method TxParamOriginIsLegacy(param: Id) returns (r: bool)
      requires param < |ast|
      requires TxOrigin(ast, param).Some? ==> Followed(ast, seen, TxOrigin(ast, param).value)
      modifies this`seen
      ensures r <==> TxOrigin(ast, param).Some? && ComesFromLegacy(ast, TxOrigin(ast, param).value)
      decreases Unseen(), 2
    {
      var fn := ast[param].parent;
      if fn.None? || !ast[fn.value].shape.FunctionLike? {
        return false;
      }
      var container: Id := fn.value;
      while ast[container].parent.Some? && ast[ast[container].parent.value].shape.Wrapped? && ast[ast[container].parent.value].shape.paren
        invariant container < |ast| && Container(ast, container) == Container(ast, fn.value)
        decreases container
      {
        container := ast[container].parent.value;
      }
      var call := ast[container].parent;
      if call.None? || !ast[call.value].shape.Call? || container !in ast[call.value].shape.args {
        return false;
      }
      var callee := ast[call.value].shape.callee;
      if callee.None? || callee.value !in TX_ORIGIN_FNS {
        return false;
      }
      r := ReceiverIsLegacyHandle(ast[call.value].shape.args[0]);
    }

    lemma UnseenShrinks(before: set<Id>, node: Id)
      requires node in before && before == set i | 0 <= i < |ast| && (i !in seen || i == node)
      requires node in seen
      ensures Unseen() < |before|
    {
      var after := set i | 0 <= i < |ast| && i !in seen;
      assert after == before - {node};
    }
  }
}
