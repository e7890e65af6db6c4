/**
  The syntax trees the passes work on: an abstraction of the ECMAScript module
  AST that the parser produces and the printer consumes.

  Two views share one tree. The classifier sees every node as a `Node`: a kind
  and its sub-trees, where only await expressions, for-of loops, calls and the
  four function-like boundaries are told apart. The transformer sees the module
  body as typed items: imports, export forms and statements, with the
  declarations it rewrites spelled out and every other expression kept as an
  opaque `Node`.
*/
module Syntax {
  import opened Wrappers

  // ---------------------------------------------------------------------------
  // The classifier's view
  // ---------------------------------------------------------------------------

  datatype Kind =
    | AwaitExpr
    | ForOfStmt(isAwait: bool)
    /** A call; `importCallee` when the callee is the dynamic-import operator. */
    | CallExpr(importCallee: bool)
    /** Function declaration or expression: parameters and body. */
    | FunctionNode
    | ArrowFunction
    /** Class declaration or expression: super class, members, field initialisers. */
    | ClassNode
    /** Object-literal method shorthand: key, parameters and body. */
    | MethodProperty
    | OtherNode

  datatype Node = Node(kind: Kind, parts: seq<Node>)

  /** The node kinds whose bodies run later, not while the module evaluates. */
  predicate IsFunctionBoundary(k: Kind) {
    k.FunctionNode? || k.ArrowFunction? || k.ClassNode? || k.MethodProperty?
  }

  // ---------------------------------------------------------------------------
  // The transformer's view
  // ---------------------------------------------------------------------------

  datatype VarKind = Var | Let | Const

  datatype PropName = IdentKey(name: string) | ComputedKey(expr: Node) | LiteralKey

  /** Binding and assignment-target patterns. */
  datatype Pattern =
    | Ident(name: string)
    | ArrayPat(elements: seq<ArrayElement>)
    | ObjectPat(properties: seq<ObjectProperty>)
    /** `left = right`: a pattern with a default value. */
    | AssignPat(left: Pattern, right: Node)
    /** `...argument` */
    | RestPat(argument: Pattern)
    /** An expression used as an assignment target. */
    | ExprPat(expr: Node)
    | InvalidPat

  /** An array-pattern slot; a hole is an elided element such as the first one of `[, x]`. */
  datatype ArrayElement = Hole | Element(pattern: Pattern)

  datatype ObjectProperty =
    /** `key: value` */
    | KeyValueProp(key: PropName, value: Pattern)
    /** `key` or `key = default` */
    | AssignProp(name: string, default: Option<Node>)
    /** `...argument` */
    | RestProp(argument: Pattern)

  datatype Expr =
    /** An expression of the input, kept as it is. */
    | Opaque(node: Node)
    | Identifier(name: string)
    | Paren(expression: Expr)
    /** `left = right` */
    | Assign(left: Pattern, right: Expr)
    | Call(callee: Expr, arguments: seq<Expr>)
    /** `receiver.property` */
    | Member(receiver: Expr, property: string)
    | ArrayLit(elements: seq<Expr>)
    | Arrow(params: seq<Pattern>, body: Block, isAsync: bool, isGenerator: bool)
    | FunctionExpr(identifier: string, parts: seq<Node>)
    | ClassExpr(identifier: string, parts: seq<Node>)

  datatype Declarator = Declarator(id: Pattern, init: Option<Expr>)

  datatype Block = Block(stmts: seq<Stmt>)

  datatype CatchClause = CatchClause(param: Option<Pattern>, body: Block)

  datatype Stmt =
    | VarDecl(kind: VarKind, declarations: seq<Declarator>)
    | FunctionDecl(identifier: string, parts: seq<Node>)
    | ClassDecl(identifier: string, parts: seq<Node>)
    | ExprStmt(expression: Expr)
    | Return(argument: Expr)
    | Try(block: Block, handler: Option<CatchClause>, finalizer: Option<Block>)
    | OtherStmt(node: Node)

  datatype ImportSpecifier =
    /** `imported as local`, or just `local` when `imported` is absent */
    | NamedImport(local: string, imported: Option<string>)
    | DefaultImport(local: string)
    | NamespaceImport(local: string)

  datatype ExportSpecifier =
    /** `orig as exported`, or just `orig` when `exported` is absent */
    | PlainExport(orig: string, exported: Option<string>)
    /** `* as name` */
    | NamespaceExport(name: string)
    /** `name` exported as the default export (`export v from "mod"`) */
    | DefaultExport(name: string)

  /** The name a named import specifier takes from the other module: `imported`, else `local`. */
  function ImportedName(s: ImportSpecifier): string
    requires s.NamedImport?
  {
    if s.imported.Some? then s.imported.value else s.local
  }

  /** The name a plain export specifier exports: `exported`, else `orig`. */
  function ExportedName(s: ExportSpecifier): string
    requires s.PlainExport?
  {
    if s.exported.Some? then s.exported.value else s.orig
  }

  datatype ModuleItem =
    | Import(source: string, specifiers: seq<ImportSpecifier>)
    | ExportNamed(exportSpecifiers: seq<ExportSpecifier>, from: Option<string>)
    | ExportAll(allFrom: string)
    | ExportDefaultDecl(declaration: Node)
    | ExportDefaultExpr(expr: Node)
    | ExportDecl(decl: Stmt)
    | Statement(stmt: Stmt)

  datatype Module = Module(body: seq<ModuleItem>)

  // Solver hint: regrouping of concatenations, stated once over a type parameter so each use is cheap.
  lemma ConcatAssociative<T>(x: seq<T>, y: seq<T>, z: seq<T>)
    ensures (x + y) + z == x + (y + z)
  {
  }

  /** The import declarations among the items, in order. */
  function ImportsOf(items: seq<ModuleItem>): (r: seq<ModuleItem>)
    ensures forall i :: 0 <= i < |r| ==> r[i].Import?
    ensures forall x :: x in r <==> x in items && x.Import?
    ensures |r| <= |items|
  {
    if items == [] then []
    else (if items[0].Import? then [items[0]] else []) + ImportsOf(items[1..])
  }

  /** The filter keeps order: the imports of a concatenation are those of each part, in turn. */
  lemma {:induction false} ImportsOfAppend(a: seq<ModuleItem>, b: seq<ModuleItem>)
    ensures ImportsOf(a + b) == ImportsOf(a) + ImportsOf(b)
  {
    if a != [] {
      assert (a + b)[0] == a[0] && (a + b)[1..] == a[1..] + b;
      var head := if a[0].Import? then [a[0]] else [];
      assert ImportsOf(a + b) == head + ImportsOf(a[1..] + b);
      ImportsOfAppend(a[1..], b);
      assert ImportsOf(a + b) == head + (ImportsOf(a[1..]) + ImportsOf(b));
      assert ImportsOf(a) == head + ImportsOf(a[1..]);
      ConcatAssociative(head, ImportsOf(a[1..]), ImportsOf(b));
    } else {
      assert a + b == b;
    }
  }

  /** The filter drops nothing it should keep: a list of imports comes back whole, duplicates included. */
  lemma {:induction false} ImportsOfKeepsImports(items: seq<ModuleItem>)
    requires forall i :: 0 <= i < |items| ==> items[i].Import?
    ensures ImportsOf(items) == items
  {
    if items != [] {
      ImportsOfKeepsImports(items[1..]);
    }
  }

  // ---------------------------------------------------------------------------
  // From the transformer's view to the classifier's
  // ---------------------------------------------------------------------------

  const Leaf := Node(OtherNode, [])

  function PatternNode(p: Pattern): Node {
    match p
    case Ident(_) => Leaf
    case ArrayPat(elements) =>
      Node(OtherNode, seq(|elements|, i requires 0 <= i < |elements| =>
        match elements[i]
        case Hole => Leaf
        case Element(q) => PatternNode(q)))
    case ObjectPat(properties) =>
      Node(OtherNode, seq(|properties|, i requires 0 <= i < |properties| =>
        match properties[i]
        case KeyValueProp(key, value) =>
          Node(OtherNode, (if key.ComputedKey? then [key.expr] else []) + [PatternNode(value)])
        case AssignProp(_, default) => Node(OtherNode, if default.Some? then [default.value] else [])
        case RestProp(argument) => PatternNode(argument)))
    case AssignPat(left, right) => Node(OtherNode, [PatternNode(left), right])
    case RestPat(argument) => Node(OtherNode, [PatternNode(argument)])
    case ExprPat(expr) => expr
    case InvalidPat => Leaf
  }

  function ExprNode(e: Expr): Node {
    match e
    case Opaque(node) => node
    case Identifier(_) => Leaf
    case Paren(inner) => Node(OtherNode, [ExprNode(inner)])
    case Assign(left, right) => Node(OtherNode, [PatternNode(left), ExprNode(right)])
    case Call(callee, arguments) =>
      Node(CallExpr(false), [ExprNode(callee)] + seq(|arguments|, i requires 0 <= i < |arguments| => ExprNode(arguments[i])))
    case Member(receiver, _) => Node(OtherNode, [ExprNode(receiver)])
    case ArrayLit(elements) =>
      Node(OtherNode, seq(|elements|, i requires 0 <= i < |elements| => ExprNode(elements[i])))
    case Arrow(params, body, _, _) =>
      Node(ArrowFunction, seq(|params|, i requires 0 <= i < |params| => PatternNode(params[i]))
                        + BlockNodes(body))
    case FunctionExpr(_, parts) => Node(FunctionNode, parts)
    case ClassExpr(_, parts) => Node(ClassNode, parts)
  }

  function StmtNode(s: Stmt): Node {
    match s
    case VarDecl(_, declarations) =>
      Node(OtherNode, seq(|declarations|, i requires 0 <= i < |declarations| =>
        Node(OtherNode, [PatternNode(declarations[i].id)]
                        + (if declarations[i].init.Some? then [ExprNode(declarations[i].init.value)] else []))))
    case FunctionDecl(_, parts) => Node(FunctionNode, parts)
    case ClassDecl(_, parts) => Node(ClassNode, parts)
    case ExprStmt(expression) => Node(OtherNode, [ExprNode(expression)])
    case Return(argument) => Node(OtherNode, [ExprNode(argument)])
    case Try(block, handler, finalizer) =>
      Node(OtherNode, BlockNodes(block)
        + (if handler.Some? then
             (if handler.value.param.Some? then [PatternNode(handler.value.param.value)] else [])
             + BlockNodes(handler.value.body)
           else [])
        + (if finalizer.Some? then BlockNodes(finalizer.value) else []))
    case OtherStmt(node) => node
  }

  function BlockNodes(b: Block): seq<Node> {
    seq(|b.stmts|, i requires 0 <= i < |b.stmts| => StmtNode(b.stmts[i]))
  }

  function ItemNode(item: ModuleItem): Node {
    match item
    case Import(_, _) => Leaf
    case ExportNamed(_, _) => Leaf
    case ExportAll(_) => Leaf
    case ExportDefaultDecl(declaration) => declaration
    case ExportDefaultExpr(expr) => Node(OtherNode, [expr])
    case ExportDecl(decl) => StmtNode(decl)
    case Statement(stmt) => StmtNode(stmt)
  }

  /** The module body as the classifier walks it. */
  function ModuleNodes(m: Module): (r: seq<Node>)
    ensures |r| == |m.body|
  {
    seq(|m.body|, i requires 0 <= i < |m.body| => ItemNode(m.body[i]))
  }
}
