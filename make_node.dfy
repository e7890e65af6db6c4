/**
  The node builders of src/utils/make-node.ts. Each returns a fresh node; the
  bookkeeping fields (spans, type annotations, type arguments) are not part of
  the tree here, so the builders that only fill such fields are plain
  constructors.
*/
module MakeNode {
  import opened Wrappers
  import opened Syntax

  /** Strips one pair of parentheses, if there is one. */
  function Unparenthesized(e: Expr): Expr {
    if e.Paren? then e.expression else e
  }

  /** The callee kinds `makeCallExpression` puts in parentheses: immediately invoked function expressions. */
  predicate IsFunctionLike(e: Expr) {
    e.FunctionExpr? || e.Arrow?
  }

  /** `makeVariablesDeclaration(names)`: null for no names, else `let a, b, ...;` without initialisers. */
  function MakeVariablesDeclaration(names: seq<string>): (r: Option<Stmt>)
    ensures r.None? <==> names == []
    ensures r.Some? ==> r.value.VarDecl? && r.value.kind == Let && |r.value.declarations| == |names|
    ensures r.Some? ==> forall i :: 0 <= i < |names| ==> r.value.declarations[i] == Declarator(Ident(names[i]), None)
  {
    if names == [] then None
    else Some(VarDecl(Let, seq(|names|, i requires 0 <= i < |names| => Declarator(Ident(names[i]), None))))
  }

  /** `makeVariableInitDeclaration(name, value)`: `let name = value;`. */
  function MakeVariableInitDeclaration(name: string, value: Expr): (r: Stmt)
    ensures r.VarDecl? && r.kind == Let && |r.declarations| == 1
    ensures r.declarations[0].id == Ident(name) && r.declarations[0].init == Some(value)
  {
    VarDecl(Let, [Declarator(Ident(name), Some(value))])
  }

  function MakeStatement(expression: Expr): Stmt {
    ExprStmt(expression)
  }

  function MakeAssignmentExpression(left: Pattern, right: Expr): Expr {
    Assign(left, right)
  }

  function MakeParenthesisExpression(expression: Expr): Expr {
    Paren(expression)
  }

  /**
    `makeAssignmentStatement(left, right)`: the statement `left = right;`, in
    parentheses exactly when `left` is an object pattern (a statement may not
    start with `{`).
  */
  function MakeAssignmentStatement(left: Pattern, right: Expr): (r: Stmt)
    ensures r.ExprStmt? && Unparenthesized(r.expression) == Assign(left, right)
    ensures r.expression.Paren? <==> left.ObjectPat?
  {
    var assignment := MakeAssignmentExpression(left, right);
    MakeStatement(if left.ObjectPat? then MakeParenthesisExpression(assignment) else assignment)
  }

  /** `makeImportSpecifier(name, as)`: `name as alias`, written `alias` alone when the two agree. */
  function MakeImportSpecifier(name: string, alias: string): (r: ImportSpecifier)
    ensures r.NamedImport? && r.local == alias && ImportedName(r) == name
    ensures r.imported.None? <==> alias == name
  {
    NamedImport(alias, if alias == name then None else Some(name))
  }

  function MakeArrayExpression(items: seq<Expr>): Expr {
    ArrayLit(items)
  }

  /** `makeTryCatchStatement(tryStatements, catchStatements)`: `try { ... } catch { ... }`. */
  function MakeTryCatchStatement(tryStatements: seq<Stmt>, catchStatements: seq<Stmt>): (r: Stmt)
    ensures r.Try? && r.block.stmts == tryStatements && r.finalizer.None?
    ensures r.handler.Some? && r.handler.value.param.None? && r.handler.value.body.stmts == catchStatements
  {
    Try(Block(tryStatements), Some(CatchClause(None, Block(catchStatements))), None)
  }

  /**
    `makeArrowFunction(statements, async)`: `() => { ... }`, async exactly when
    the optional flag is given and true.
  */
  function MakeArrowFunction(statements: seq<Stmt>, async: Option<bool>): (r: Expr)
    ensures r.Arrow? && r.params == [] && r.body.stmts == statements && !r.isGenerator
    ensures r.isAsync <==> async == Some(true)
  {
    Arrow([], Block(statements), async.Some? && async.value, false)
  }

  /**
    `makeCallExpression(functionExpression, args)`: a call whose callee is put
    in parentheses when it is a function or arrow expression; missing
    arguments are an empty list.
  */
  function MakeCallExpression(functionExpression: Expr, args: Option<seq<Expr>>): (r: Expr)
    ensures r.Call? && r.arguments == (if args.Some? then args.value else [])
    ensures IsFunctionLike(functionExpression) ==> r.callee == Paren(functionExpression)
    ensures !IsFunctionLike(functionExpression) ==> r.callee == functionExpression
  {
    Call(if IsFunctionLike(functionExpression) then MakeParenthesisExpression(functionExpression) else functionExpression,
         if args.Some? then args.value else [])
  }

  function MakeReturnStatement(expression: Expr): Stmt {
    Return(expression)
  }

  /** The receiver of `makeMemberExpression`: a name or an expression. */
  datatype MemberObject = ObjectName(name: string) | ObjectExpression(expression: Expr)

  function MakeMemberExpression(receiver: MemberObject, member: string): Expr {
    Member(if receiver.ObjectName? then Identifier(receiver.name) else receiver.expression, member)
  }

  /**
    `makeExportListDeclaration(map)`: `export { identifier as exportName, ... }`
    with one specifier per pair, in order, written `identifier` alone when the
    two names agree.
  */
  function MakeExportListDeclaration(pairs: seq<(string, string)>): (r: ModuleItem)
    ensures r.ExportNamed? && r.from.None? && |r.exportSpecifiers| == |pairs|
    ensures forall i :: 0 <= i < |pairs| ==>
              && r.exportSpecifiers[i].PlainExport?
              && r.exportSpecifiers[i].orig == pairs[i].1
              && ExportedName(r.exportSpecifiers[i]) == pairs[i].0
              && (r.exportSpecifiers[i].exported.None? <==> pairs[i].0 == pairs[i].1)
  {
    ExportNamed(seq(|pairs|, i requires 0 <= i < |pairs| =>
      PlainExport(pairs[i].1, if pairs[i].1 == pairs[i].0 then None else Some(pairs[i].0))), None)
  }
}
