/**
  The module transformer (src/transform.ts): moves every top-level statement of
  a chunk into an async closure, hoists the exported bindings to the top level,
  awaits the promises of the imported chunks that are transformed too, and
  exports the chunk's own promise.

  `Transformed` is the specification, one pure function of the inputs; the
  method `TransformModule` builds the same result the way the source does,
  threading the promise imports through a loop and updating the export map in
  place, and is proved to agree with it. The lemmas state what the output
  guarantees: which inputs are rejected, the layout of the new body, that the
  export list keeps every original export, and that no top-level await is left.
*/
module Transform {
  import opened Wrappers
  import opened Errors
  import opened Syntax
  import opened MakeNode
  import RP = ResolvePattern
  import RI = ResolveImport
  import BI = BundleInfo
  import Find

  // ---------------------------------------------------------------------------
  // The export check
  // ---------------------------------------------------------------------------

  /** The type name the error reports for an export specifier. */
  function SpecifierTypeName(s: ExportSpecifier): string {
    match s
    case PlainExport(_, _) => "ExportSpecifier"
    case NamespaceExport(_) => "ExportNamespaceSpecifier"
    case DefaultExport(_) => "ExportDefaultSpecifier"
  }

  /** The error raised for the first specifier of an export list that is not a plain one. */
  function SpecifierError(specs: seq<ExportSpecifier>): (r: Option<Error>)
    ensures r.None? <==> forall i :: 0 <= i < |specs| ==> specs[i].PlainExport?
    ensures r.Some? ==> exists i :: 0 <= i < |specs| && !specs[i].PlainExport?
                                    && (forall j :: 0 <= j < i ==> specs[j].PlainExport?)
                                    && r.value == UnexpectedNode("export specifier", SpecifierTypeName(specs[i]))
  {
    if specs == [] then None
    else if !specs[0].PlainExport? then Some(UnexpectedNode("export specifier", SpecifierTypeName(specs[0])))
    else
      var rest := SpecifierError(specs[1..]);
      if rest.Some? then
        ghost var i :| 0 <= i < |specs[1..]| && !specs[1..][i].PlainExport?
                       && (forall j :: 0 <= j < i ==> specs[1..][j].PlainExport?)
                       && rest.value == UnexpectedNode("export specifier", SpecifierTypeName(specs[1..][i]));
        assert forall j :: 0 <= j < i + 1 ==> specs[j].PlainExport? by {
          forall j | 0 <= j < i + 1 ensures specs[j].PlainExport? {
            if j > 0 { assert specs[j] == specs[1..][j - 1]; }
          }
        }
        rest
      else rest
  }

  /**
    The error the export filter raises for one module item: the four export
    forms that are not a plain export list, and an export list holding
    anything but plain specifiers.
  */
  function ItemError(item: ModuleItem): (r: Option<Error>)
    ensures r.None? <==> item.Import? || item.Statement?
                         || (item.ExportNamed? && forall i :: 0 <= i < |item.exportSpecifiers| ==> item.exportSpecifiers[i].PlainExport?)
  {
    match item
    case ExportAll(_) => Some(UnexpectedNode("top-level statement", "ExportAllDeclaration"))
    case ExportDefaultDecl(_) => Some(UnexpectedNode("top-level statement", "ExportDefaultDeclaration"))
    case ExportDefaultExpr(_) => Some(UnexpectedNode("top-level statement", "ExportDefaultExpression"))
    case ExportDecl(_) => Some(UnexpectedNode("top-level statement", "ExportDeclaration"))
    case ExportNamed(specs, _) => SpecifierError(specs)
    case _ => None
  }

  /** The error of the first offending item, in module-body order. */
  function ExportsError(items: seq<ModuleItem>): (r: Option<Error>)
    ensures r.None? <==> forall i :: 0 <= i < |items| ==> ItemError(items[i]).None?
    ensures r.Some? ==> exists i :: 0 <= i < |items| && r == ItemError(items[i])
                                    && forall j :: 0 <= j < i ==> ItemError(items[j]).None?
  {
    if items == [] then None
    else if ItemError(items[0]).Some? then ItemError(items[0])
    else
      var rest := ExportsError(items[1..]);
      if rest.Some? then
        ghost var i :| 0 <= i < |items[1..]| && rest == ItemError(items[1..][i])
                       && forall j :: 0 <= j < i ==> ItemError(items[1..][j]).None?;
        assert forall j :: 0 <= j < i + 1 ==> ItemError(items[j]).None? by {
          forall j | 0 <= j < i + 1 ensures ItemError(items[j]).None? {
            if j > 0 { assert items[j] == items[1..][j - 1]; }
          }
        }
        rest
      else rest
  }

  ghost predicate ExportsSupported(items: seq<ModuleItem>) {
    forall i :: 0 <= i < |items| ==> ItemError(items[i]).None?
  }

  // ---------------------------------------------------------------------------
  // The export map: a string-keyed object with ordered keys
  // ---------------------------------------------------------------------------

  /** An object's entries in property order. */
  type Entries = seq<(string, string)>

  function KeysOf(m: Entries): (r: seq<string>)
    ensures |r| == |m|
  {
    seq(|m|, i requires 0 <= i < |m| => m[i].0)
  }

  function ValuesOf(m: Entries): (r: seq<string>)
    ensures |r| == |m|
  {
    seq(|m|, i requires 0 <= i < |m| => m[i].1)
  }

  /** `m[key] = value`: the entry of `key` takes the new value in place, or a new entry goes last. */
  function Put(m: Entries, key: string, value: string): (r: Entries)
    ensures key in KeysOf(m) ==> KeysOf(r) == KeysOf(m)
    ensures key !in KeysOf(m) ==> KeysOf(r) == KeysOf(m) + [key]
    ensures (key, value) in r
    ensures forall e: (string, string) :: e in r && e.0 == key ==> e.1 == value
    ensures forall e: (string, string) :: e.0 != key ==> (e in r <==> e in m)
    ensures BI.Distinct(KeysOf(m)) ==> BI.Distinct(KeysOf(r))
  {
    if key in KeysOf(m) then
      var r := seq(|m|, i requires 0 <= i < |m| => if m[i].0 == key then (key, value) else m[i]);
      assert KeysOf(r) == KeysOf(m);
      ghost var i :| 0 <= i < |m| && KeysOf(m)[i] == key;
      assert r[i] == (key, value);
      assert forall e :: e in m && e.0 != key ==> e in r by {
        forall e | e in m && e.0 != key ensures e in r {
          var j :| 0 <= j < |m| && m[j] == e;
          assert r[j] == e;
        }
      }
      r
    else
      var r := m + [(key, value)];
      assert KeysOf(r) == KeysOf(m) + [key];
      assert forall e :: e in m ==> e.0 != key by {
        forall e | e in m ensures e.0 != key {
          var j :| 0 <= j < |m| && m[j] == e;
          assert KeysOf(m)[j] == e.0;
        }
      }
      r
  }

  /** The elements of `s` in order, each at its first occurrence. */
  function FirstOccurrences(s: seq<string>): (r: seq<string>)
    ensures forall x :: x in r <==> x in s
    ensures BI.Distinct(r)
  {
    if s == [] then []
    else
      var d := FirstOccurrences(s[..|s| - 1]);
      assert s == s[..|s| - 1] + [s[|s| - 1]];
      if s[|s| - 1] in d then d else d + [s[|s| - 1]]
  }

  /** `Object.fromEntries(entries)`: each entry in turn assigned into an empty object. */
  function FromEntries(entries: Entries): (r: Entries)
    decreases |entries|
  {
    if entries == [] then []
    else
      var last := entries[|entries| - 1];
      Put(FromEntries(entries[..|entries| - 1]), last.0, last.1)
  }

  /** The keys come out once each, in the order of their first occurrence. */
  lemma {:induction false} FromEntriesKeys(entries: Entries)
    ensures KeysOf(FromEntries(entries)) == FirstOccurrences(KeysOf(entries))
    decreases |entries|
  {
    if entries != [] {
      var init := entries[..|entries| - 1];
      FromEntriesKeys(init);
      assert KeysOf(entries)[..|entries| - 1] == KeysOf(init);
    }
  }

  /** For each key, the value of its last entry wins. */
  lemma {:induction false} FromEntriesLastWins(entries: Entries, i: nat)
    requires i < |entries|
    requires forall j :: i < j < |entries| ==> entries[j].0 != entries[i].0
    ensures entries[i] in FromEntries(entries)
    ensures forall e :: e in FromEntries(entries) && e.0 == entries[i].0 ==> e == entries[i]
    decreases |entries|
  {
    var last := entries[|entries| - 1];
    var init := entries[..|entries| - 1];
    if i < |entries| - 1 {
      assert init[i] == entries[i];
      FromEntriesLastWins(init, i);
    }
  }

  /** Every entry of the object is one of the given entries. */
  lemma {:induction false} FromEntriesFrom(entries: Entries)
    ensures forall e :: e in FromEntries(entries) ==> e in entries
    decreases |entries|
  {
    if entries != [] {
      var init := entries[..|entries| - 1];
      FromEntriesFrom(init);
      assert forall e :: e in init ==> e in entries;
    }
  }

  /** The pairs `[exported name, local name]` of one export list. */
  function SpecifierEntries(specs: seq<ExportSpecifier>): (r: Entries)
    requires forall i :: 0 <= i < |specs| ==> specs[i].PlainExport?
    ensures |r| == |specs|
  {
    seq(|specs|, i requires 0 <= i < |specs| => (ExportedName(specs[i]), specs[i].orig))
  }

  /** The pairs of all the export lists of the module, in order. */
  function ExportEntries(items: seq<ModuleItem>): (r: Entries)
    requires ExportsSupported(items)
  {
    if items == [] then []
    else
      assert ItemError(items[0]).None?;
      (if items[0].ExportNamed? then SpecifierEntries(items[0].exportSpecifiers) else [])
      + ExportEntries(items[1..])
  }

  /** Each plain specifier of the module contributes its pair. */
  lemma {:induction false} ExportEntriesHold(items: seq<ModuleItem>, i: nat, j: nat)
    requires ExportsSupported(items)
    requires i < |items| && items[i].ExportNamed? && j < |items[i].exportSpecifiers|
    ensures items[i].exportSpecifiers[j].PlainExport?
    ensures (ExportedName(items[i].exportSpecifiers[j]), items[i].exportSpecifiers[j].orig) in ExportEntries(items)
  {
    assert ItemError(items[i]).None?;
    if i > 0 {
      assert items[1..][i - 1] == items[i];
      ExportEntriesHold(items[1..], i - 1, j);
    } else {
      assert SpecifierEntries(items[0].exportSpecifiers)[j]
          == (ExportedName(items[i].exportSpecifiers[j]), items[i].exportSpecifiers[j].orig);
    }
  }

  /** `exportMap` */
  function ExportMap(items: seq<ModuleItem>): Entries
    requires ExportsSupported(items)
  {
    FromEntries(ExportEntries(items))
  }

  /** `exportedNames`: the local names of the exports, duplicates kept. */
  function ExportedNames(items: seq<ModuleItem>): seq<string>
    requires ExportsSupported(items)
  {
    ValuesOf(ExportMap(items))
  }

  /**
    The export map of a module exports each name once, every exported name of
    the module's export lists among them, and its local names are the module's
    own.
  */
  lemma ExportMapProperties(items: seq<ModuleItem>)
    requires ExportsSupported(items)
    ensures BI.Distinct(KeysOf(ExportMap(items)))
    ensures forall k :: k in KeysOf(ExportMap(items)) <==> k in KeysOf(ExportEntries(items))
    ensures forall e :: e in ExportMap(items) ==> e in ExportEntries(items)
  {
    FromEntriesKeys(ExportEntries(items));
    FromEntriesFrom(ExportEntries(items));
  }

  // ---------------------------------------------------------------------------
  // Rewriting the top-level statements
  // ---------------------------------------------------------------------------

  /** `stmt.declarations.flatMap(decl => resolvePattern(decl.id))` */
  function DeclaredNames(decls: seq<Declarator>): Result<seq<string>, Error> {
    RP.FlatMap(seq(|decls|, i requires 0 <= i < |decls| => RP.Resolve(decls[i].id)))
  }

  /** The names of `names` that are in `exported` (`inside`) or not in it (`!inside`), in order. */
  function Select(names: seq<string>, exported: set<string>, inside: bool): (r: seq<string>)
    ensures forall x :: x in r <==> x in names && (x in exported <==> inside)
    ensures (forall x :: x in names ==> (x in exported) != inside) ==> r == []
  {
    if names == [] then []
    else (if (names[0] in exported) == inside then [names[0]] else []) + Select(names[1..], exported, inside)
  }

  /** The selection keeps order: selecting from a concatenation selects from each part, in turn. */
  lemma {:induction false} SelectAppend(a: seq<string>, b: seq<string>, exported: set<string>, inside: bool)
    ensures Select(a + b, exported, inside) == Select(a, exported, inside) + Select(b, exported, inside)
  {
    if a != [] {
      assert (a + b)[0] == a[0] && (a + b)[1..] == a[1..] + b;
      var head := if (a[0] in exported) == inside then [a[0]] else [];
      assert Select(a + b, exported, inside) == head + Select(a[1..] + b, exported, inside);
      SelectAppend(a[1..], b, exported, inside);
      assert Select(a + b, exported, inside) == head + (Select(a[1..], exported, inside) + Select(b, exported, inside));
      assert Select(a, exported, inside) == head + Select(a[1..], exported, inside);
      ConcatAssociative(head, Select(a[1..], exported, inside), Select(b, exported, inside));
    } else {
      assert a + b == b;
    }
  }

  /** Names that all qualify are kept whole, in order and with their repetitions. */
  lemma {:induction false} SelectKeepsAll(names: seq<string>, exported: set<string>, inside: bool)
    requires forall i :: 0 <= i < |names| ==> (names[i] in exported) == inside
    ensures Select(names, exported, inside) == names
  {
    if names != [] {
      SelectKeepsAll(names[1..], exported, inside);
    }
  }

  /** The declarators with an initialiser, in order. */
  function Initialised(decls: seq<Declarator>): (r: seq<Declarator>)
    ensures forall d :: d in r <==> d in decls && d.init.Some?
  {
    if decls == [] then []
    else (if decls[0].init.Some? then [decls[0]] else []) + Initialised(decls[1..])
  }

  /** The filter keeps order: the initialised declarators of a concatenation are those of each part, in turn. */
  lemma {:induction false} InitialisedAppend(a: seq<Declarator>, b: seq<Declarator>)
    ensures Initialised(a + b) == Initialised(a) + Initialised(b)
  {
    if a != [] {
      assert (a + b)[0] == a[0] && (a + b)[1..] == a[1..] + b;
      var head := if a[0].init.Some? then [a[0]] else [];
      assert Initialised(a + b) == head + Initialised(a[1..] + b);
      InitialisedAppend(a[1..], b);
      assert Initialised(a + b) == head + (Initialised(a[1..]) + Initialised(b));
      assert Initialised(a) == head + Initialised(a[1..]);
      ConcatAssociative(head, Initialised(a[1..]), Initialised(b));
    } else {
      assert a + b == b;
    }
  }

  /** Declarators that all have an initialiser are kept whole, in order. */
  lemma {:induction false} InitialisedKeepsAll(decls: seq<Declarator>)
    requires forall i :: 0 <= i < |decls| ==> decls[i].init.Some?
    ensures Initialised(decls) == decls
  {
    if decls != [] {
      InitialisedKeepsAll(decls[1..]);
    }
  }

  /** One assignment statement per initialised declarator, in order. */
  function InitAssignments(decls: seq<Declarator>): (r: seq<Stmt>)
    ensures |r| == |Initialised(decls)|
    ensures forall i :: 0 <= i < |r| ==>
              var d := Initialised(decls)[i];
              r[i].ExprStmt? && Unparenthesized(r[i].expression) == Assign(d.id, d.init.value)
  {
    var ds := Initialised(decls);
    seq(|ds|, i requires 0 <= i < |ds| => MakeAssignmentStatement(ds[i].id, ds[i].init.value))
  }

  /** The statements that replace `stmt` in the async closure, or the error `resolvePattern` raises. */
  function RewriteStatement(stmt: Stmt, exported: set<string>): Result<seq<Stmt>, Error> {
    match stmt
    case VarDecl(_, decls) =>
      var declared :- DeclaredNames(decls);
      if Select(declared, exported, true) == [] then Success([stmt])
      else
        var redeclared := MakeVariablesDeclaration(Select(declared, exported, false));
        Success((if redeclared.Some? then [redeclared.value] else []) + InitAssignments(decls))
    case FunctionDecl(name, parts) =>
      Success([if name in exported then MakeAssignmentStatement(Ident(name), FunctionExpr(name, parts)) else stmt])
    case ClassDecl(name, parts) =>
      Success([if name in exported then MakeAssignmentStatement(Ident(name), ClassExpr(name, parts)) else stmt])
    case _ => Success([stmt])
  }

  /** `topLevelStatements.flatMap(...)`: the rewritten statements in order, or the first error. */
  function RewriteStatements(stmts: seq<Stmt>, exported: set<string>): (r: Result<seq<Stmt>, Error>)
    ensures r.Success? <==> forall i :: 0 <= i < |stmts| ==> RewriteStatement(stmts[i], exported).Success?
  {
    if stmts == [] then Success([])
    else
      var head :- RewriteStatement(stmts[0], exported);
      var tail :- RewriteStatements(stmts[1..], exported);
      Success(head + tail)
  }

  /** A statement the rewriting accepts: every pattern of a variable declaration can be resolved. */
  ghost predicate StmtSupported(stmt: Stmt) {
    stmt.VarDecl? ==> forall i :: 0 <= i < |stmt.declarations| ==> RP.Supported(stmt.declarations[i].id)
  }

  /** The rewriting fails exactly on a variable declaration with a pattern `resolvePattern` rejects. */
  lemma RewriteSucceedsIff(stmt: Stmt, exported: set<string>)
    ensures RewriteStatement(stmt, exported).Success? <==> StmtSupported(stmt)
  {
    if stmt.VarDecl? {
      var decls := stmt.declarations;
      var rs := seq(|decls|, i requires 0 <= i < |decls| => RP.Resolve(decls[i].id));
      forall i | 0 <= i < |decls| ensures rs[i].Success? <==> RP.Supported(decls[i].id) {
        RP.ResolveSucceedsIff(decls[i].id);
      }
    }
  }

  /** A statement that declares no exported name comes out as it went in. */
  lemma RewriteKeepsUnexported(stmt: Stmt, exported: set<string>)
    requires stmt.VarDecl? ==> DeclaredNames(stmt.declarations).Success?
                               && forall x :: x in DeclaredNames(stmt.declarations).value ==> x !in exported
    requires stmt.FunctionDecl? || stmt.ClassDecl? ==> stmt.identifier !in exported
    ensures RewriteStatement(stmt, exported) == Success([stmt])
  {
  }

  /** `makeVariablesDeclaration(names)` declares exactly `names`, in order. */
  lemma LetDeclares(names: seq<string>)
    requires names != []
    ensures DeclaredNames(MakeVariablesDeclaration(names).value.declarations) == Success(names)
  {
    var decls := MakeVariablesDeclaration(names).value.declarations;
    assert seq(|decls|, i requires 0 <= i < |decls| => RP.Resolve(decls[i].id))
        == seq(|names|, i requires 0 <= i < |names| => Success([names[i]]));
    FlatMapSingletons(names);
  }

  lemma {:induction false} FlatMapSingletons(names: seq<string>)
    ensures RP.FlatMap(seq(|names|, i requires 0 <= i < |names| => Success([names[i]]))) == Success(names)
  {
    if names != [] {
      var rs: seq<Result<seq<string>, Error>> := seq(|names|, i requires 0 <= i < |names| => Success([names[i]]));
      assert rs[1..] == seq(|names[1..]|, i requires 0 <= i < |names[1..]| => Success([names[1..][i]]));
      FlatMapSingletons(names[1..]);
      assert [names[0]] + names[1..] == names;
    }
  }

  /**
    A variable declaration that declares an exported name becomes a `let` of
    exactly its unexported names (left out when there are none), followed by
    one assignment per initialised declarator, in order; the exported names
    are not declared again.
  */
  lemma RewriteExportedDeclaration(kind: VarKind, decls: seq<Declarator>, exported: set<string>)
    requires DeclaredNames(decls).Success?
    requires exists x :: x in DeclaredNames(decls).value && x in exported
    ensures var r := RewriteStatement(VarDecl(kind, decls), exported);
            var unexported := Select(DeclaredNames(decls).value, exported, false);
            && r.Success?
            && (forall x :: x in unexported <==> x in DeclaredNames(decls).value && x !in exported)
            && (unexported == [] ==> r.value == InitAssignments(decls))
            && (unexported != [] ==> && r.value[0].VarDecl? && r.value[0].kind == Let
                                     && DeclaredNames(r.value[0].declarations) == Success(unexported)
                                     && r.value[1..] == InitAssignments(decls))
  {
    var declared := DeclaredNames(decls).value;
    var x :| x in declared && x in exported;
    assert x in Select(declared, exported, true);
    var unexported := Select(declared, exported, false);
    if unexported != [] {
      LetDeclares(unexported);
      var r := RewriteStatement(VarDecl(kind, decls), exported).value;
      assert r == [MakeVariablesDeclaration(unexported).value] + InitAssignments(decls);
    } else {
      assert [] + InitAssignments(decls) == InitAssignments(decls);
    }
  }

  /** An exported function or class declaration becomes an assignment of the same function or class. */
  lemma RewriteExportedFunctionOrClass(stmt: Stmt, exported: set<string>)
    requires stmt.FunctionDecl? || stmt.ClassDecl?
    requires stmt.identifier in exported
    ensures var r := RewriteStatement(stmt, exported);
            && r.Success? && |r.value| == 1 && r.value[0].ExprStmt?
            && !r.value[0].expression.Paren?
            && r.value[0].expression.Assign? && r.value[0].expression.left == Ident(stmt.identifier)
            && r.value[0].expression.right.identifier == stmt.identifier
            && r.value[0].expression.right.parts == stmt.parts
            && (r.value[0].expression.right.FunctionExpr? <==> stmt.FunctionDecl?)
  {
  }

  /** `flatMap` with a callback that may fail: the results in order, or the first error. */
  function FlatMapResults<T, U, E>(xs: seq<T>, f: T -> Result<seq<U>, E>): Result<seq<U>, E> {
    if xs == [] then Success([])
    else
      var head :- f(xs[0]);
      var tail :- FlatMapResults(xs[1..], f);
      Success(head + tail)
  }

  /** `flatMap` over a concatenation is the concatenation of the two results. */
  lemma {:induction false} FlatMapResultsAppend<T, U, E>(a: seq<T>, b: seq<T>, f: T -> Result<seq<U>, E>)
    requires FlatMapResults(a, f).Success? && FlatMapResults(b, f).Success?
    ensures FlatMapResults(a + b, f) == Success(FlatMapResults(a, f).value + FlatMapResults(b, f).value)
  {
    if a == [] {
      assert a + b == b;
      assert [] + FlatMapResults(b, f).value == FlatMapResults(b, f).value;
    } else {
      assert (a + b)[0] == a[0] && (a + b)[1..] == a[1..] + b;
      FlatMapResultsAppend(a[1..], b, f);
      var h := f(a[0]).value;
      var ra := FlatMapResults(a[1..], f).value;
      var rb := FlatMapResults(b, f).value;
      assert h + (ra + rb) == (h + ra) + rb;
    }
  }

  /** The statement rewriting is `flatMap` of the per-statement rewriting. */
  lemma {:induction false} RewriteStatementsFlatMap(stmts: seq<Stmt>, exported: set<string>)
    ensures RewriteStatements(stmts, exported) == FlatMapResults(stmts, s => RewriteStatement(s, exported))
  {
    if stmts != [] {
      RewriteStatementsFlatMap(stmts[1..], exported);
    }
  }

  /** Rewriting a list is rewriting its parts: statement order is kept. */
  lemma RewriteStatementsAppend(a: seq<Stmt>, b: seq<Stmt>, exported: set<string>)
    requires RewriteStatements(a, exported).Success? && RewriteStatements(b, exported).Success?
    ensures RewriteStatements(a + b, exported)
         == Success(RewriteStatements(a, exported).value + RewriteStatements(b, exported).value)
  {
    RewriteStatementsFlatMap(a, exported);
    RewriteStatementsFlatMap(b, exported);
    RewriteStatementsFlatMap(a + b, exported);
    FlatMapResultsAppend(a, b, s => RewriteStatement(s, exported));
  }

  /** A module that exports nothing keeps all of its statements as they are. */
  lemma {:induction false} RewriteWithoutExports(stmts: seq<Stmt>)
    requires forall i :: 0 <= i < |stmts| ==> StmtSupported(stmts[i])
    ensures RewriteStatements(stmts, {}) == Success(stmts)
  {
    if stmts != [] {
      RewriteSucceedsIff(stmts[0], {});
      RewriteKeepsUnexported(stmts[0], {});
      RewriteWithoutExports(stmts[1..]);
      assert [stmts[0]] + stmts[1..] == stmts;
    }
  }

  /** The module body without its imports and export lists. */
  function TopLevelStatements(items: seq<ModuleItem>): (r: seq<Stmt>)
    ensures |r| <= |items|
    ensures forall s :: s in r <==> Statement(s) in items
  {
    if items == [] then []
    else (if items[0].Statement? then [items[0].stmt] else []) + TopLevelStatements(items[1..])
  }

  /** The filter keeps order: the statements of a concatenation are those of each part, in turn. */
  lemma {:induction false} TopLevelStatementsAppend(a: seq<ModuleItem>, b: seq<ModuleItem>)
    ensures TopLevelStatements(a + b) == TopLevelStatements(a) + TopLevelStatements(b)
  {
    if a != [] {
      assert (a + b)[0] == a[0] && (a + b)[1..] == a[1..] + b;
      var head := if a[0].Statement? then [a[0].stmt] else [];
      assert TopLevelStatements(a + b) == head + TopLevelStatements(a[1..] + b);
      TopLevelStatementsAppend(a[1..], b);
      assert TopLevelStatements(a + b) == head + (TopLevelStatements(a[1..]) + TopLevelStatements(b));
      assert TopLevelStatements(a) == head + TopLevelStatements(a[1..]);
      ConcatAssociative(head, TopLevelStatements(a[1..]), TopLevelStatements(b));
    } else {
      assert a + b == b;
    }
  }

  // ---------------------------------------------------------------------------
  // Awaiting the imported chunks' promises
  // ---------------------------------------------------------------------------

  /** The chunk an item imports, when it is an import declaration of a chunk of the bundle. */
  function Target(moduleName: string, item: ModuleItem): Option<string> {
    if item.Import? then RI.Resolve(moduleName, item.source) else None
  }

  /** Every chunk the imports resolve to has a record. */
  ghost predicate TargetsKnown(moduleName: string, info: map<string, BI.ModuleInfo>, imports: seq<ModuleItem>) {
    forall i :: 0 <= i < |imports| && Target(moduleName, imports[i]).Some? ==> Target(moduleName, imports[i]).value in info
  }

  /** The import loads a chunk that is transformed, so its promise is imported and awaited. */
  predicate NeedsPromise(moduleName: string, info: map<string, BI.ModuleInfo>, item: ModuleItem) {
    var t := Target(moduleName, item);
    t.Some? && t.value in info && info[t.value].transformNeeded
  }

  /** Which imports need a promise, one flag per import. */
  function Marks(moduleName: string, info: map<string, BI.ModuleInfo>, imports: seq<ModuleItem>): (r: seq<bool>)
    ensures |r| == |imports|
    ensures forall i :: 0 <= i < |imports| ==> r[i] == NeedsPromise(moduleName, info, imports[i])
  {
    seq(|imports|, i requires 0 <= i < |imports| => NeedsPromise(moduleName, info, imports[i]))
  }

  /** How many of the first `k` flags are set. */
  function CountSet(marks: seq<bool>, k: nat): nat
    requires k <= |marks|
  {
    if k == 0 then 0 else CountSet(marks, k - 1) + (if marks[k - 1] then 1 else 0)
  }

  /** How many of the first `k` imports need a promise: the number the next one gets. */
  function PromisesBefore(moduleName: string, info: map<string, BI.ModuleInfo>, imports: seq<ModuleItem>, k: nat): nat
    requires k <= |imports|
  {
    CountSet(Marks(moduleName, info, imports), k)
  }

  /** The import with one more specifier, `exportName as local`. */
  function WithPromise(item: ModuleItem, exportName: string, local: string): (r: ModuleItem)
    requires item.Import?
    ensures r.Import? && r.source == item.source && |r.specifiers| == |item.specifiers| + 1
    ensures r.specifiers[..|item.specifiers|] == item.specifiers
    ensures var s := r.specifiers[|item.specifiers|]; s.NamedImport? && ImportedName(s) == exportName && s.local == local
  {
    item.(specifiers := item.specifiers + [MakeImportSpecifier(exportName, local)])
  }

  /** The imports after the loop: the `i`-th import needing a promise imports it as `importName(i)`. */
  function Threaded(moduleName: string, info: map<string, BI.ModuleInfo>, imports: seq<ModuleItem>,
                    exportName: string, importName: nat -> string): (r: seq<ModuleItem>)
    ensures |r| == |imports|
  {
    seq(|imports|, i requires 0 <= i < |imports| =>
      if NeedsPromise(moduleName, info, imports[i])
      then WithPromise(imports[i], exportName, importName(PromisesBefore(moduleName, info, imports, i)))
      else imports[i])
  }

  /**
    The loop over the imports: each import of a transformed chunk gains the
    specifier `exportName as importName(count)`, and `count` goes up.
  */
  method ThreadPromiseImports(moduleName: string, info: map<string, BI.ModuleInfo>, imports: seq<ModuleItem>,
                              exportName: string, importName: nat -> string)
    returns (threaded: seq<ModuleItem>, count: nat)
    requires TargetsKnown(moduleName, info, imports)
    ensures threaded == Threaded(moduleName, info, imports, exportName, importName)
    ensures count == PromisesBefore(moduleName, info, imports, |imports|)
  {
    ghost var expected := Threaded(moduleName, info, imports, exportName, importName);
    threaded := imports;
    count := 0;
    var i := 0;
    while i < |imports|
      invariant 0 <= i <= |imports| && |threaded| == |imports|
      invariant count == PromisesBefore(moduleName, info, imports, i)
      invariant threaded[..i] == expected[..i] && threaded[i..] == imports[i..]
    {
      var item, promised := ThreadImport(moduleName, info, imports[i], exportName, importName(count));
      PromisesStep(moduleName, info, imports, i);
      ThreadedAt(moduleName, info, imports, exportName, importName, i);
      ReplaceNext(threaded, expected, imports, i, item);
      threaded := threaded[i := item];
      if promised {
        count := count + 1;
      }
      i := i + 1;
    }
    assert threaded == threaded[..i];
    assert expected == expected[..i];
  }

  /**
    One turn of the loop: an import whose target is a chunk of the bundle that
    is transformed gains the specifier `exportName as local`; any other item
    is kept.
  */
  method ThreadImport(moduleName: string, info: map<string, BI.ModuleInfo>, item: ModuleItem,
                      exportName: string, local: string)
    returns (threaded: ModuleItem, promised: bool)
    requires Target(moduleName, item).Some? ==> Target(moduleName, item).value in info
    ensures promised == NeedsPromise(moduleName, info, item)
    ensures threaded == if promised then WithPromise(item, exportName, local) else item
  {
    threaded, promised := item, false;
    if item.Import? {
      var importedModuleName := RI.Resolve(moduleName, item.source);
      if importedModuleName.Some? && info[importedModuleName.value].transformNeeded {
        threaded, promised := WithPromise(item, exportName, local), true;
      }
    }
  }

  /** Replacing element `i` by the expected one extends the agreeing prefix by one. */
  lemma ReplaceNext<T>(a: seq<T>, expected: seq<T>, original: seq<T>, i: nat, x: T)
    requires i < |a| == |original| && i < |expected| && x == expected[i]
    requires a[..i] == expected[..i] && a[i..] == original[i..]
    ensures a[i := x][..i + 1] == expected[..i + 1] && a[i := x][i + 1..] == original[i + 1..]
  {
    assert a[i := x][..i + 1] == a[..i] + [x];
    assert expected[..i + 1] == expected[..i] + [expected[i]];
    assert a[i := x][i + 1..] == a[i..][1..];
  }

  /** One more import: the count goes up by one exactly when it needs a promise. */
  lemma PromisesStep(moduleName: string, info: map<string, BI.ModuleInfo>, imports: seq<ModuleItem>, i: nat)
    requires i < |imports|
    ensures PromisesBefore(moduleName, info, imports, i + 1)
         == PromisesBefore(moduleName, info, imports, i) + (if NeedsPromise(moduleName, info, imports[i]) then 1 else 0)
  {
  }

  lemma ThreadedAt(moduleName: string, info: map<string, BI.ModuleInfo>, imports: seq<ModuleItem>,
                   exportName: string, importName: nat -> string, i: nat)
    requires i < |imports|
    ensures Threaded(moduleName, info, imports, exportName, importName)[i]
         == if NeedsPromise(moduleName, info, imports[i])
            then WithPromise(imports[i], exportName, importName(PromisesBefore(moduleName, info, imports, i)))
            else imports[i]
  {
  }

  lemma {:induction false} CountSetMonotone(marks: seq<bool>, i: nat, j: nat)
    requires i <= j <= |marks|
    ensures CountSet(marks, i) <= CountSet(marks, j)
    decreases j
  {
    if i < j {
      CountSetMonotone(marks, i, j - 1);
    }
  }

  /** A set flag gets a number below that of every later position. */
  lemma {:induction false} CountSetIncreases(marks: seq<bool>, i: nat, j: nat)
    requires i < j <= |marks| && marks[i]
    ensures CountSet(marks, i) < CountSet(marks, j)
  {
    assert CountSet(marks, i + 1) == CountSet(marks, i) + 1;
    CountSetMonotone(marks, i + 1, j);
  }

  /** Each number below the count of the first `k` flags belongs to one set flag. */
  lemma {:induction false} CountSetNumbered(marks: seq<bool>, k: nat, n: nat)
    requires k <= |marks| && n < CountSet(marks, k)
    ensures exists i :: 0 <= i < k && marks[i] && CountSet(marks, i) == n
    decreases k
  {
    if n < CountSet(marks, k - 1) {
      CountSetNumbered(marks, k - 1, n);
    }
  }

  /** The numbers below `k`. */
  function Below(k: nat): (r: set<nat>)
    ensures forall n :: n in r <==> 0 <= n < k
  {
    if k == 0 then {} else Below(k - 1) + {k - 1}
  }

  /** The numbers the set flags receive. */
  function Numbers(marks: seq<bool>): set<nat> {
    set i | 0 <= i < |marks| && marks[i] :: CountSet(marks, i)
  }

  /** The numbers handed out are exactly 0, 1, ..., count - 1. */
  lemma {:induction false} NumbersCover(marks: seq<bool>)
    ensures Numbers(marks) == Below(CountSet(marks, |marks|))
  {
    forall i | 0 <= i < |marks| && marks[i] ensures CountSet(marks, i) < CountSet(marks, |marks|) {
      CountSetIncreases(marks, i, |marks|);
    }
    forall n | 0 <= n < CountSet(marks, |marks|) ensures n in Numbers(marks) {
      CountSetNumbered(marks, |marks|, n);
    }
  }

  /** Distinct imports needing a promise get increasing numbers, all below the count. */
  lemma PromiseNumbersIncrease(moduleName: string, info: map<string, BI.ModuleInfo>, imports: seq<ModuleItem>,
                               i: nat, j: nat)
    requires i < j <= |imports| && NeedsPromise(moduleName, info, imports[i])
    ensures PromisesBefore(moduleName, info, imports, i) < PromisesBefore(moduleName, info, imports, j)
  {
    CountSetIncreases(Marks(moduleName, info, imports), i, j);
  }

  /** The numbers the imports needing a promise receive. */
  function UsedNumbers(moduleName: string, info: map<string, BI.ModuleInfo>, imports: seq<ModuleItem>): set<nat> {
    set i | 0 <= i < |imports| && NeedsPromise(moduleName, info, imports[i]) :: PromisesBefore(moduleName, info, imports, i)
  }

  /** The numbers in use are exactly those below the count: 0, 1, ..., count - 1. */
  lemma PromiseNumbersCover(moduleName: string, info: map<string, BI.ModuleInfo>, imports: seq<ModuleItem>)
    ensures UsedNumbers(moduleName, info, imports) == Below(PromisesBefore(moduleName, info, imports, |imports|))
  {
    var marks := Marks(moduleName, info, imports);
    NumbersCover(marks);
    assert UsedNumbers(moduleName, info, imports) == Numbers(marks);
  }

  /**
    The loop changes only the specifier lists of the imports of transformed
    chunks, each by one specifier at the end importing `exportName`.
  */
  lemma ThreadedChanges(moduleName: string, info: map<string, BI.ModuleInfo>, imports: seq<ModuleItem>,
                        exportName: string, importName: nat -> string, i: nat)
    requires i < |imports|
    ensures var t := Threaded(moduleName, info, imports, exportName, importName)[i];
            && (!NeedsPromise(moduleName, info, imports[i]) ==> t == imports[i])
            && (NeedsPromise(moduleName, info, imports[i]) ==>
                  && imports[i].Import? && t.Import? && t.source == imports[i].source
                  && |t.specifiers| == |imports[i].specifiers| + 1
                  && t.specifiers[..|imports[i].specifiers|] == imports[i].specifiers
                  && var s := t.specifiers[|imports[i].specifiers|];
                     s.NamedImport? && ImportedName(s) == exportName
                     && s.local == importName(PromisesBefore(moduleName, info, imports, i)))
  {
    var t := Threaded(moduleName, info, imports, exportName, importName)[i];
    if NeedsPromise(moduleName, info, imports[i]) {
      assert t == WithPromise(imports[i], exportName, importName(PromisesBefore(moduleName, info, imports, i)));
    }
  }

  /** The loop leaves import declarations import declarations. */
  lemma ThreadedImports(moduleName: string, info: map<string, BI.ModuleInfo>, imports: seq<ModuleItem>,
                        exportName: string, importName: nat -> string)
    requires forall i :: 0 <= i < |imports| ==> imports[i].Import?
    ensures forall i :: 0 <= i < |imports| ==> Threaded(moduleName, info, imports, exportName, importName)[i].Import?
  {
    forall i | 0 <= i < |imports| ensures Threaded(moduleName, info, imports, exportName, importName)[i].Import? {
      ThreadedChanges(moduleName, info, imports, exportName, importName, i);
    }
  }

  // ---------------------------------------------------------------------------
  // The promise expression
  // ---------------------------------------------------------------------------

  /** `(() => { try { return name; } catch {} })()` */
  function TryReturn(name: string): (r: Expr)
    ensures r.Call? && r.arguments == [] && r.callee.Paren?
    ensures var f := r.callee.expression;
            && f.Arrow? && !f.isAsync && f.params == [] && |f.body.stmts| == 1
            && f.body.stmts[0].Try? && f.body.stmts[0].block.stmts == [Return(Identifier(name))]
            && f.body.stmts[0].handler.Some? && f.body.stmts[0].handler.value.body.stmts == []
  {
    MakeCallExpression(MakeArrowFunction([MakeTryCatchStatement([MakeReturnStatement(Identifier(name))], [])], None), None)
  }

  /** `importedPromiseArray`: none for no promise imports, else one guarded read per promise, in order. */
  function PromiseArray(count: nat, importName: nat -> string): (r: Option<Expr>)
    ensures r.None? <==> count == 0
    ensures r.Some? ==> r.value.ArrayLit? && |r.value.elements| == count
                        && forall i :: 0 <= i < count ==> r.value.elements[i] == TryReturn(importName(i))
  {
    if count == 0 then None
    else Some(MakeArrayExpression(seq(count, i requires 0 <= i < count => TryReturn(importName(i)))))
  }

  /** `async () => { statements }` */
  function Wrapped(statements: seq<Stmt>): Expr {
    MakeArrowFunction(statements, Some(true))
  }

  /**
    `promiseExpression`: the async closure over the statements, run after all
    the imported promises settle when there are any, else called at once.
  */
  function PromiseExpression(promises: Option<Expr>, statements: seq<Stmt>): (r: Expr)
    ensures r.Call?
    ensures promises.None? ==> r.callee == Paren(Wrapped(statements)) && r.arguments == []
    ensures promises.Some? ==>
              && r.arguments == [Wrapped(statements)]
              && r.callee == Member(Call(Member(Identifier("Promise"), "all"), [promises.value]), "then")
  {
    var wrapped := Wrapped(statements);
    if promises.Some? then
      MakeCallExpression(
        MakeMemberExpression(
          ObjectExpression(MakeCallExpression(MakeMemberExpression(ObjectName("Promise"), "all"), Some([promises.value]))),
          "then"),
        Some([wrapped]))
    else MakeCallExpression(wrapped, None)
  }

  // ---------------------------------------------------------------------------
  // Assembly
  // ---------------------------------------------------------------------------

  /** `newTopLevel`: imports, hoisted `let`, then the promise declaration and export list, or the bare promise statement. */
  function NewTopLevel(imports: seq<ModuleItem>, names: seq<string>, promise: Expr,
                       exportMap: Entries, exportName: string, exported: bool): seq<ModuleItem>
  {
    imports + HoistedItems(names) + PromiseItems(promise, exportMap, exportName, exported)
  }

  /** `exportedNamesDeclaration`, dropped when null. */
  function HoistedItems(names: seq<string>): (r: seq<ModuleItem>)
    ensures |r| == if names == [] then 0 else 1
  {
    var hoisted := MakeVariablesDeclaration(names);
    if hoisted.Some? then [Statement(hoisted.value)] else []
  }

  /** What follows the hoisted names: the promise declaration and the export list, or the promise statement. */
  function PromiseItems(promise: Expr, exportMap: Entries, exportName: string, exported: bool): (r: seq<ModuleItem>)
    ensures |r| == if exported then 2 else 1
  {
    if exported
    then [Statement(MakeVariableInitDeclaration(exportName, promise)),
          MakeExportListDeclaration(Put(exportMap, exportName, exportName))]
    else [Statement(MakeStatement(promise))]
  }

  /** The promise binding is exported when the chunk exports anything or another chunk imports it. */
  predicate ExportsPromise(names: seq<string>, self: BI.ModuleInfo) {
    |names| > 0 || |self.importedBy| > 0
  }

  /** The chunk's promise, awaiting the promises its imports bring in. */
  function PromiseFor(moduleName: string, info: map<string, BI.ModuleInfo>, imports: seq<ModuleItem>,
                      importName: nat -> string, statements: seq<Stmt>): Expr
  {
    PromiseExpression(PromiseArray(PromisesBefore(moduleName, info, imports, |imports|), importName), statements)
  }

  /** `transformModule(ast, moduleName, bundleInfo, options)`, as one value: the new module or the error raised. */
  function Transformed(ast: Module, moduleName: string, info: map<string, BI.ModuleInfo>,
                       exportName: string, importName: nat -> string): Result<Module, Error>
    requires moduleName in info
  {
    var err := ExportsError(ast.body);
    if err.Some? then Failure(err.value)
    else
      var names := ExportedNames(ast.body);
      var statements :- RewriteStatements(TopLevelStatements(ast.body), set x | x in names);
      var imports := ImportsOf(ast.body);
      Success(Module(NewTopLevel(Threaded(moduleName, info, imports, exportName, importName), names,
                                 PromiseFor(moduleName, info, imports, importName, statements),
                                 ExportMap(ast.body), exportName, ExportsPromise(names, info[moduleName]))))
  }

  /** The transformation, step by step as the source performs it. */
  method TransformModule(ast: Module, moduleName: string, info: map<string, BI.ModuleInfo>,
                         exportName: string, importName: nat -> string)
    returns (r: Result<Module, Error>)
    requires moduleName in info
    requires TargetsKnown(moduleName, info, ImportsOf(ast.body))
    ensures r == Transformed(ast, moduleName, info, exportName, importName)
  {
    var err := ExportsError(ast.body);
    if err.Some? {
      return Failure(err.value);
    }
    var exportMap := ExportMap(ast.body);
    var exportedNames := ValuesOf(exportMap);
    var statements := RewriteStatements(TopLevelStatements(ast.body), set x | x in exportedNames);
    if statements.Failure? {
      return Failure(statements.error);
    }
    var imports, count := ThreadPromiseImports(moduleName, info, ImportsOf(ast.body), exportName, importName);
    var promise := PromiseExpression(PromiseArray(count, importName), statements.value);
    var hoisted := MakeVariablesDeclaration(exportedNames);
    var newTopLevel := imports + (if hoisted.Some? then [Statement(hoisted.value)] else []);
    if |exportedNames| > 0 || |info[moduleName].importedBy| > 0 {
      var declaration := MakeVariableInitDeclaration(exportName, promise);
      exportMap := Put(exportMap, exportName, exportName);
      newTopLevel := newTopLevel + [Statement(declaration), MakeExportListDeclaration(exportMap)];
    } else {
      newTopLevel := newTopLevel + [Statement(MakeStatement(promise))];
    }
    r := Success(Module(newTopLevel));
  }

  // ---------------------------------------------------------------------------
  // What the output guarantees
  // ---------------------------------------------------------------------------

  lemma TransformedUnfold(ast: Module, moduleName: string, info: map<string, BI.ModuleInfo>,
                          exportName: string, importName: nat -> string)
    requires moduleName in info
    requires Transformed(ast, moduleName, info, exportName, importName).Success?
    ensures ExportsSupported(ast.body)
    ensures RewriteStatements(TopLevelStatements(ast.body), set x | x in ExportedNames(ast.body)).Success?
    ensures Transformed(ast, moduleName, info, exportName, importName).value.body
         == NewTopLevel(Threaded(moduleName, info, ImportsOf(ast.body), exportName, importName),
                        ExportedNames(ast.body),
                        PromiseFor(moduleName, info, ImportsOf(ast.body), importName,
                                   RewriteStatements(TopLevelStatements(ast.body), set x | x in ExportedNames(ast.body)).value),
                        ExportMap(ast.body), exportName, ExportsPromise(ExportedNames(ast.body), info[moduleName]))
  {
  }

  lemma TransformedOutcome(ast: Module, moduleName: string, info: map<string, BI.ModuleInfo>,
                           exportName: string, importName: nat -> string)
    requires moduleName in info
    ensures Transformed(ast, moduleName, info, exportName, importName).Success?
        <==> ExportsError(ast.body).None?
             && RewriteStatements(TopLevelStatements(ast.body), set x | x in ExportedNames(ast.body)).Success?
    ensures ExportsError(ast.body).Some? ==>
              Transformed(ast, moduleName, info, exportName, importName) == Failure(ExportsError(ast.body).value)
  {
  }

  /** The parts of `newTopLevel`, item by item. */
  lemma NewTopLevelLayout(imports: seq<ModuleItem>, names: seq<string>, promise: Expr,
                          exportMap: Entries, exportName: string, exported: bool)
    requires forall i :: 0 <= i < |imports| ==> imports[i].Import?
    ensures var out := NewTopLevel(imports, names, promise, exportMap, exportName, exported);
            && |out| == |imports| + (if names == [] then 0 else 1) + (if exported then 2 else 1)
            && out[..|imports|] == imports
            && (names != [] ==> out[|imports|] == Statement(MakeVariablesDeclaration(names).value))
            && (forall i :: |imports| <= i < |out| ==> !out[i].Import?)
            && (forall i :: 0 <= i < |out| - 1 ==> !out[i].ExportNamed?)
            && (exported ==> && out[|out| - 2] == Statement(MakeVariableInitDeclaration(exportName, promise))
                             && out[|out| - 1] == MakeExportListDeclaration(Put(exportMap, exportName, exportName)))
            && (!exported ==> out[|out| - 1] == Statement(MakeStatement(promise)))
  {
    var hoisted := HoistedItems(names);
    var tail := PromiseItems(promise, exportMap, exportName, exported);
    var out := imports + hoisted + tail;
    assert out[..|imports|] == imports;
    forall i | |imports| <= i < |out| ensures !out[i].Import? && (i < |out| - 1 ==> !out[i].ExportNamed?) {
      if i < |imports| + |hoisted| {
        assert out[i] == hoisted[i - |imports|];
      } else {
        assert out[i] == tail[i - |imports| - |hoisted|];
      }
    }
    assert out[|out| - 1] == tail[|tail| - 1];
    if exported {
      assert out[|out| - 2] == tail[0];
    }
    if names != [] {
      assert out[|imports|] == hoisted[0];
    }
  }

  /**
    The transformation fails exactly on an unsupported export form, reported
    for the first offending item, or on a variable declaration whose pattern
    cannot be resolved.
  */
  lemma TransformedSucceedsIff(ast: Module, moduleName: string, info: map<string, BI.ModuleInfo>,
                               exportName: string, importName: nat -> string)
    requires moduleName in info
    ensures Transformed(ast, moduleName, info, exportName, importName).Success?
        <==> ExportsSupported(ast.body)
             && forall i :: 0 <= i < |TopLevelStatements(ast.body)| ==> StmtSupported(TopLevelStatements(ast.body)[i])
    ensures ExportsError(ast.body).Some? ==>
              Transformed(ast, moduleName, info, exportName, importName) == Failure(ExportsError(ast.body).value)
  {
    TransformedOutcome(ast, moduleName, info, exportName, importName);
    if ExportsSupported(ast.body) {
      var stmts := TopLevelStatements(ast.body);
      var exported := set x | x in ExportedNames(ast.body);
      forall i | 0 <= i < |stmts| ensures RewriteStatement(stmts[i], exported).Success? <==> StmtSupported(stmts[i]) {
        RewriteSucceedsIff(stmts[i], exported);
      }
    }
  }

  /**
    On success the new body is: the imports, in order, with the promise
    specifiers added; the `let` of the exported names when there are any;
    then either the promise declaration followed by the only export list, or
    the bare promise statement. No original export list survives.
  */
  lemma TransformedLayout(ast: Module, moduleName: string, info: map<string, BI.ModuleInfo>,
                          exportName: string, importName: nat -> string)
    requires moduleName in info
    requires Transformed(ast, moduleName, info, exportName, importName).Success?
    ensures ExportsSupported(ast.body)
    ensures var out := Transformed(ast, moduleName, info, exportName, importName).value.body;
            var imports := ImportsOf(ast.body);
            var names := ExportedNames(ast.body);
            var exported := ExportsPromise(names, info[moduleName]);
            && |out| == |imports| + (if names == [] then 0 else 1) + (if exported then 2 else 1)
            && out[..|imports|] == Threaded(moduleName, info, imports, exportName, importName)
            && (names != [] ==> out[|imports|].Statement?
                                && DeclaredNames(out[|imports|].stmt.declarations) == Success(names))
            && (forall i :: 0 <= i < |imports| ==> out[i].Import?)
            && (forall i :: |imports| <= i < |out| ==> !out[i].Import?)
            && (forall i :: 0 <= i < |out| - 1 ==> !out[i].ExportNamed?)
            && (out[|out| - 1].ExportNamed? <==> exported)
            && (exported ==> out[|out| - 2].Statement? && out[|out| - 2].stmt.VarDecl?
                             && out[|out| - 2].stmt.declarations[0].id == Ident(exportName))
    ensures RewriteStatements(TopLevelStatements(ast.body), set x | x in ExportedNames(ast.body)).Success?
    ensures var out := Transformed(ast, moduleName, info, exportName, importName).value.body;
            var imports := ImportsOf(ast.body);
            var names := ExportedNames(ast.body);
            var statements := RewriteStatements(TopLevelStatements(ast.body), set x | x in names).value;
            var promise := PromiseFor(moduleName, info, imports, importName, statements);
            && (ExportsPromise(names, info[moduleName]) ==>
                  out[|out| - 2] == Statement(MakeVariableInitDeclaration(exportName, promise)))
            && (!ExportsPromise(names, info[moduleName]) ==> out[|out| - 1] == Statement(MakeStatement(promise)))
  {
    TransformedUnfold(ast, moduleName, info, exportName, importName);
    var imports := ImportsOf(ast.body);
    var threaded := Threaded(moduleName, info, imports, exportName, importName);
    var names := ExportedNames(ast.body);
    var statements := RewriteStatements(TopLevelStatements(ast.body), set x | x in names).value;
    var promise := PromiseFor(moduleName, info, imports, importName, statements);
    var exported := ExportsPromise(names, info[moduleName]);
    var out := Transformed(ast, moduleName, info, exportName, importName).value.body;
    assert out == NewTopLevel(threaded, names, promise, ExportMap(ast.body), exportName, exported);
    ThreadedImports(moduleName, info, imports, exportName, importName);
    NewTopLevelLayout(threaded, names, promise, ExportMap(ast.body), exportName, exported);
    forall i | 0 <= i < |imports| ensures out[i].Import? {
      assert out[i] == threaded[i];
    }
    if names != [] {
      LetDeclares(names);
    }
  }

  /**
    When the promise is exported, the export list exports each name once:
    every name the module exported, still bound to the local name of its last
    specifier, in order of first appearance, then `exportName` bound to the
    promise (in place, if the module already exported that name); each local
    name in the list is the promise or one of the hoisted names.
  */
  lemma TransformedExports(ast: Module, moduleName: string, info: map<string, BI.ModuleInfo>,
                           exportName: string, importName: nat -> string)
    requires moduleName in info
    requires Transformed(ast, moduleName, info, exportName, importName).Success?
    ensures ExportsSupported(ast.body)
    ensures var out := Transformed(ast, moduleName, info, exportName, importName).value.body;
            var names := ExportedNames(ast.body);
            ExportsPromise(names, info[moduleName]) ==>
              ExportListKeeps(out[|out| - 1].exportSpecifiers, ExportEntries(ast.body), exportName)
  {
    TransformedUnfold(ast, moduleName, info, exportName, importName);
    var names := ExportedNames(ast.body);
    var imports := ImportsOf(ast.body);
    var statements := RewriteStatements(TopLevelStatements(ast.body), set x | x in names).value;
    var m := ExportMap(ast.body);
    if ExportsPromise(names, info[moduleName]) {
      var out := Transformed(ast, moduleName, info, exportName, importName).value.body;
      assert out[|out| - 1] == MakeExportListDeclaration(Put(m, exportName, exportName)) by {
        ThreadedImports(moduleName, info, imports, exportName, importName);
        NewTopLevelLayout(Threaded(moduleName, info, imports, exportName, importName), names,
                          PromiseFor(moduleName, info, imports, importName, statements),
                          m, exportName, true);
      }
      ExportListFromMap(ExportEntries(ast.body), exportName);
    }
  }

  /**
    `specs` is the final export list of a module whose export lists hold the
    pairs `original` (`[exported, local]`).
  */
  ghost predicate ExportListKeeps(specs: seq<ExportSpecifier>, original: Entries, exportName: string) {
    && (forall j :: 0 <= j < |specs| ==> specs[j].PlainExport?)
    && ExportListNames(specs, original, exportName)
    && ExportListBindings(specs, original, exportName)
  }

  /**
    Each name once, every original name among them and `exportName` bound to
    the promise; no other local name than the promise and the module's
    exported ones.
  */
  ghost predicate ExportListNames(specs: seq<ExportSpecifier>, original: Entries, exportName: string)
    requires forall j :: 0 <= j < |specs| ==> specs[j].PlainExport?
  {
    && (forall j, k :: 0 <= j < k < |specs| ==> ExportedName(specs[j]) != ExportedName(specs[k]))
    && (exists j :: 0 <= j < |specs| && ExportedName(specs[j]) == exportName && specs[j].orig == exportName)
    && (forall j :: 0 <= j < |specs| ==> specs[j].orig == exportName || specs[j].orig in ValuesOf(FromEntries(original)))
    && (forall e :: e in original ==>
          exists j :: 0 <= j < |specs| && ExportedName(specs[j]) == e.0)
  }

  /**
    The names in order of first appearance, then `exportName` unless the
    module already exported it, in which case it was bound to the promise in
    place; each other original name still bound to the local name of its last
    pair.
  */
  ghost predicate ExportListBindings(specs: seq<ExportSpecifier>, original: Entries, exportName: string)
    requires forall j :: 0 <= j < |specs| ==> specs[j].PlainExport?
  {
    var order := FirstOccurrences(KeysOf(original)) + (if exportName in KeysOf(original) then [] else [exportName]);
    && (forall i :: 0 <= i < |original| && original[i].0 != exportName
                     && (forall k :: i < k < |original| ==> original[k].0 != original[i].0) ==>
          exists j :: 0 <= j < |specs| && ExportedName(specs[j]) == original[i].0 && specs[j].orig == original[i].1)
    && |specs| == |order|
    && (forall j :: 0 <= j < |specs| ==> ExportedName(specs[j]) == order[j])
    && (exportName !in KeysOf(original) ==> |specs| > 0 && specs[|specs| - 1].orig == exportName)
  }

  /** The export list built from the export map with the promise added. */
  lemma ExportListFromMap(original: Entries, exportName: string)
    ensures ExportListKeeps(MakeExportListDeclaration(Put(FromEntries(original), exportName, exportName)).exportSpecifiers,
                            original, exportName)
  {
    ExportListNamesFromMap(original, exportName);
    ExportListBindingsFromMap(original, exportName);
  }

  lemma ExportListNamesFromMap(original: Entries, exportName: string)
    ensures ExportListNames(MakeExportListDeclaration(Put(FromEntries(original), exportName, exportName)).exportSpecifiers,
                            original, exportName)
  {
    var m := FromEntries(original);
    var entries := Put(m, exportName, exportName);
    var specs := MakeExportListDeclaration(entries).exportSpecifiers;
    FromEntriesKeys(original);
    assert forall j, k :: 0 <= j < k < |specs| ==> ExportedName(specs[j]) != ExportedName(specs[k]) by {
      ExportListDistinct(entries);
    }
    assert exists j :: 0 <= j < |specs| && ExportedName(specs[j]) == exportName && specs[j].orig == exportName by {
      ExportListHas(entries, exportName, exportName);
    }
    assert forall j :: 0 <= j < |specs| ==> specs[j].orig == exportName || specs[j].orig in ValuesOf(m) by {
      forall e | e in entries ensures e.1 == exportName || e.1 in ValuesOf(m) {
        if e.0 != exportName {
          ValueOfEntry(m, e);
        }
      }
      ExportListLocals(entries, exportName, ValuesOf(m));
    }
    assert forall e :: e in original ==> exists j :: 0 <= j < |specs| && ExportedName(specs[j]) == e.0 by {
      forall e | e in original ensures e.0 in KeysOf(entries) {
        KeyOfEntry(original, e);
      }
      ExportListKeys(entries, KeysOf(original));
    }
  }

  lemma ExportListBindingsFromMap(original: Entries, exportName: string)
    ensures ExportListBindings(MakeExportListDeclaration(Put(FromEntries(original), exportName, exportName)).exportSpecifiers,
                               original, exportName)
  {
    var specs := MakeExportListDeclaration(Put(FromEntries(original), exportName, exportName)).exportSpecifiers;
    forall i | 0 <= i < |original| && original[i].0 != exportName
                && (forall k :: i < k < |original| ==> original[k].0 != original[i].0)
      ensures exists j :: 0 <= j < |specs| && ExportedName(specs[j]) == original[i].0 && specs[j].orig == original[i].1
    {
      ExportListBinds(original, exportName, i);
    }
    ExportListOrder(original, exportName);
  }

  /** A name's last entry gives its binding in the export list. */
  lemma ExportListBinds(original: Entries, key: string, i: nat)
    requires i < |original| && original[i].0 != key
    requires forall k :: i < k < |original| ==> original[k].0 != original[i].0
    ensures var specs := MakeExportListDeclaration(Put(FromEntries(original), key, key)).exportSpecifiers;
            exists j :: 0 <= j < |specs| && ExportedName(specs[j]) == original[i].0 && specs[j].orig == original[i].1
  {
    PutKeepsLastEntry(original, key, key, i);
    ExportListHas(Put(FromEntries(original), key, key), original[i].0, original[i].1);
  }

  /** The export list names the keys in order of first appearance, then `key` last when it is new, bound to itself. */
  lemma ExportListOrder(original: Entries, key: string)
    ensures var specs := MakeExportListDeclaration(Put(FromEntries(original), key, key)).exportSpecifiers;
            var order := FirstOccurrences(KeysOf(original)) + (if key in KeysOf(original) then [] else [key]);
            && |specs| == |order|
            && (forall j :: 0 <= j < |specs| ==> ExportedName(specs[j]) == order[j])
            && (key !in KeysOf(original) ==> |specs| > 0 && specs[|specs| - 1].orig == key)
  {
    var m := FromEntries(original);
    var entries := Put(m, key, key);
    FromEntriesKeys(original);
    assert key in KeysOf(m) <==> key in KeysOf(original);
    if key !in KeysOf(original) {
      var last := entries[|entries| - 1];
      assert last.0 == KeysOf(entries)[|entries| - 1] == key;
      assert last in entries;
    }
  }

  /** An entry that is the last for its key survives `Object.fromEntries` and the assignment of another key. */
  lemma PutKeepsLastEntry(entries: Entries, key: string, value: string, i: nat)
    requires i < |entries| && entries[i].0 != key
    requires forall k :: i < k < |entries| ==> entries[k].0 != entries[i].0
    ensures entries[i] in Put(FromEntries(entries), key, value)
  {
    FromEntriesLastWins(entries, i);
  }

  lemma KeyOfEntry(m: Entries, e: (string, string))
    requires e in m
    ensures e.0 in KeysOf(m)
  {
    var i :| 0 <= i < |m| && m[i] == e;
    assert KeysOf(m)[i] == e.0;
  }

  lemma ValueOfEntry(m: Entries, e: (string, string))
    requires e in m
    ensures e.1 in ValuesOf(m)
  {
    var i :| 0 <= i < |m| && m[i] == e;
    assert ValuesOf(m)[i] == e.1;
  }

  /** Distinct keys make distinct exported names. */
  lemma ExportListDistinct(entries: Entries)
    requires BI.Distinct(KeysOf(entries))
    ensures var specs := MakeExportListDeclaration(entries).exportSpecifiers;
            && (forall j :: 0 <= j < |specs| ==> specs[j].PlainExport?)
            && (forall j, k :: 0 <= j < k < |specs| ==> ExportedName(specs[j]) != ExportedName(specs[k]))
  {
    var specs := MakeExportListDeclaration(entries).exportSpecifiers;
    assert forall j :: 0 <= j < |specs| ==> ExportedName(specs[j]) == KeysOf(entries)[j];
  }

  lemma ExportListHas(entries: Entries, name: string, local: string)
    requires (name, local) in entries
    ensures var specs := MakeExportListDeclaration(entries).exportSpecifiers;
            exists j :: 0 <= j < |specs| && ExportedName(specs[j]) == name && specs[j].orig == local
  {
    var specs := MakeExportListDeclaration(entries).exportSpecifiers;
    var j :| 0 <= j < |entries| && entries[j] == (name, local);
    assert ExportedName(specs[j]) == name && specs[j].orig == local;
  }

  lemma ExportListKeys(entries: Entries, keys: seq<string>)
    requires forall k :: k in keys ==> k in KeysOf(entries)
    ensures var specs := MakeExportListDeclaration(entries).exportSpecifiers;
            forall k :: k in keys ==> exists j :: 0 <= j < |specs| && ExportedName(specs[j]) == k
  {
    var specs := MakeExportListDeclaration(entries).exportSpecifiers;
    forall k | k in keys ensures exists j :: 0 <= j < |specs| && ExportedName(specs[j]) == k {
      var j :| 0 <= j < |entries| && KeysOf(entries)[j] == k;
      assert ExportedName(specs[j]) == k;
    }
  }

  lemma ExportListLocals(entries: Entries, exportName: string, locals: seq<string>)
    requires forall e :: e in entries ==> e.1 == exportName || e.1 in locals
    ensures var specs := MakeExportListDeclaration(entries).exportSpecifiers;
            forall j :: 0 <= j < |specs| ==> specs[j].orig == exportName || specs[j].orig in locals
  {
    var specs := MakeExportListDeclaration(entries).exportSpecifiers;
    forall j | 0 <= j < |specs| ensures specs[j].orig == exportName || specs[j].orig in locals {
      assert entries[j] in entries;
    }
  }

  // ---------------------------------------------------------------------------
  // No top-level await is left
  // ---------------------------------------------------------------------------

  lemma LeafHasNoTla()
    ensures !Find.HasTla(Leaf, 0)
  {
  }

  /** A `let` of plain names without initialisers. */
  lemma BareLetHasNoTla(names: seq<string>)
    requires names != []
    ensures !Find.HasTla(StmtNode(MakeVariablesDeclaration(names).value), 0)
  {
    var decls := MakeVariablesDeclaration(names).value.declarations;
    var n := StmtNode(MakeVariablesDeclaration(names).value);
    forall i | 0 <= i < |decls| ensures !Find.HasTla(n.parts[i], 0) {
      assert decls[i] == Declarator(Ident(names[i]), None);
      assert [PatternNode(decls[i].id)] + [] == [Leaf];
      assert n.parts[i] == Node(OtherNode, [Leaf]);
      assert Node(OtherNode, [Leaf]).parts[0] == Leaf;
    }
  }

  /** An arrow function keeps what it holds from the top level. */
  lemma ArrowHasNoTla(e: Expr)
    requires e.Arrow?
    ensures !Find.HasTla(ExprNode(e), 0)
  {
    Find.BoundaryHidesAwaitAt(ExprNode(e), 0);
  }

  /** An immediately invoked arrow function. */
  lemma CalledArrowHasNoTla(f: Expr)
    requires f.Arrow?
    ensures !Find.HasTla(ExprNode(Call(Paren(f), [])), 0)
  {
    ArrowHasNoTla(f);
    var paren := ExprNode(Paren(f));
    assert paren.parts == [ExprNode(f)];
    assert ExprNode(Call(Paren(f), [])).parts == [paren];
  }

  lemma PromiseArrayHasNoTla(count: nat, importName: nat -> string)
    requires count > 0
    ensures !Find.HasTla(ExprNode(PromiseArray(count, importName).value), 0)
  {
    var elements := PromiseArray(count, importName).value.elements;
    var n := ExprNode(PromiseArray(count, importName).value);
    forall i | 0 <= i < count ensures !Find.HasTla(n.parts[i], 0) {
      assert n.parts[i] == ExprNode(elements[i]);
      CalledArrowHasNoTla(TryReturn(importName(i)).callee.expression);
    }
  }

  lemma PromiseHasNoTla(count: nat, importName: nat -> string, statements: seq<Stmt>)
    ensures !Find.HasTla(ExprNode(PromiseExpression(PromiseArray(count, importName), statements)), 0)
  {
    var promises := PromiseArray(count, importName);
    var wrapped := Wrapped(statements);
    var p := PromiseExpression(promises, statements);
    if count == 0 {
      CalledArrowHasNoTla(wrapped);
    } else {
      PromiseArrayHasNoTla(count, importName);
      ArrowHasNoTla(wrapped);
      var all := Call(Member(Identifier("Promise"), "all"), [promises.value]);
      var allNode := ExprNode(all);
      assert ExprNode(Member(Identifier("Promise"), "all")).parts == [Leaf];
      assert allNode.parts == [ExprNode(Member(Identifier("Promise"), "all")), ExprNode(promises.value)];
      assert !Find.HasTla(allNode, 0);
      var thenNode := ExprNode(Member(all, "then"));
      assert thenNode.parts == [allNode];
      assert ExprNode(p).parts == [thenNode, ExprNode(wrapped)];
    }
  }

  /** A `let` binding one plain name to `value`. */
  lemma InitLetHasNoTla(name: string, value: Expr)
    requires !Find.HasTla(ExprNode(value), 0)
    ensures !Find.HasTla(StmtNode(MakeVariableInitDeclaration(name, value)), 0)
  {
    var decl := Node(OtherNode, [PatternNode(Ident(name))] + [ExprNode(value)]);
    assert decl.parts == [Leaf, ExprNode(value)];
    forall i | 0 <= i < |decl.parts| ensures !Find.HasTla(decl.parts[i], 0) {
      assert i == 0 || decl.parts[i] == ExprNode(value);
    }
    assert !Find.HasTla(decl, 0);
    assert StmtNode(MakeVariableInitDeclaration(name, value)).parts == [decl];
  }

  /** `newTopLevel` holds no top-level await when the promise holds none. */
  lemma NewTopLevelHasNoTla(imports: seq<ModuleItem>, names: seq<string>, promise: Expr,
                            exportMap: Entries, exportName: string, exported: bool)
    requires forall i :: 0 <= i < |imports| ==> imports[i].Import?
    requires !Find.HasTla(ExprNode(promise), 0)
    ensures !Find.HasTla(Find.ModuleRoot(Module(NewTopLevel(imports, names, promise, exportMap, exportName, exported))), 0)
  {
    var body := NewTopLevel(imports, names, promise, exportMap, exportName, exported);
    NewTopLevelLayout(imports, names, promise, exportMap, exportName, exported);
    var root := Find.ModuleRoot(Module(body));
    assert |root.parts| == |body|;
    forall i | 0 <= i < |body| ensures !Find.HasTla(root.parts[i], 0) {
      assert root.parts[i] == ItemNode(body[i]);
      if i < |imports| {
        assert body[i] == imports[i];
      } else if names != [] && i == |imports| {
        BareLetHasNoTla(names);
      } else if exported && i == |body| - 2 {
        InitLetHasNoTla(exportName, promise);
      } else if !exported {
        assert body[i] == Statement(MakeStatement(promise));
        assert ItemNode(body[i]).parts == [ExprNode(promise)];
      } else {
        assert body[i].ExportNamed?;
      }
    }
  }

  /**
    The transformed module holds no top-level await: every original
    statement now runs inside the async closure.
  */
  lemma TransformedHasNoTla(ast: Module, moduleName: string, info: map<string, BI.ModuleInfo>,
                            exportName: string, importName: nat -> string)
    requires moduleName in info
    requires Transformed(ast, moduleName, info, exportName, importName).Success?
    ensures !Find.HasTla(Find.ModuleRoot(Transformed(ast, moduleName, info, exportName, importName).value), 0)
  {
    TransformedUnfold(ast, moduleName, info, exportName, importName);
    var imports := ImportsOf(ast.body);
    var names := ExportedNames(ast.body);
    var statements := RewriteStatements(TopLevelStatements(ast.body), set x | x in names).value;
    var threaded := Threaded(moduleName, info, imports, exportName, importName);
    PromiseHasNoTla(PromisesBefore(moduleName, info, imports, |imports|), importName, statements);
    ThreadedImports(moduleName, info, imports, exportName, importName);
    NewTopLevelHasNoTla(threaded, names, PromiseFor(moduleName, info, imports, importName, statements),
                        ExportMap(ast.body), exportName, ExportsPromise(names, info[moduleName]));
  }
}
