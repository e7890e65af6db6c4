/**
  The module classifier (src/find.ts): the highest blocking construct that one
  module contains.

  `HasTla` and `HasDynamicImport` are the specification: an await expression or
  a for-await loop counts when no function, arrow function, class or method
  property encloses it; a dynamic-import call counts at any depth. The visitor
  class is the source's counter-based traversal, with the exception that ends
  it early turned into a returned flag, and is proved to compute exactly that.
*/
module Find {
  import opened Wrappers
  import opened Syntax

  datatype CodePattern = TopLevelAwait | DynamicImport

  /** The nesting depth of the parts of a node of kind `k` found at depth `depth`. */
  function PartsDepth(k: Kind, depth: nat): (r: nat)
    ensures r == depth || (IsFunctionBoundary(k) && r == depth + 1)
  {
    if IsFunctionBoundary(k) then depth + 1 else depth
  }

  /** The node blocks module evaluation: it holds an await or for-await at depth 0. */
  predicate IsTlaAt(n: Node, depth: nat) {
    depth == 0 && (n.kind.AwaitExpr? || n.kind == ForOfStmt(true))
  }

  /** `n`, found at nesting depth `depth`, contains a top-level await. */
  predicate HasTla(n: Node, depth: nat)
    decreases n
  {
    IsTlaAt(n, depth) || exists i :: 0 <= i < |n.parts| && HasTla(n.parts[i], PartsDepth(n.kind, depth))
  }

  /** `n` contains a call whose callee is the dynamic-import operator, at any depth. */
  predicate HasDynamicImport(n: Node)
    decreases n
  {
    n.kind == CallExpr(true) || exists i :: 0 <= i < |n.parts| && HasDynamicImport(n.parts[i])
  }

  /** The module body under one root, as `visitModule` walks it. */
  function ModuleRoot(ast: Module): Node {
    Node(OtherNode, ModuleNodes(ast))
  }

  /** `findHighestPattern`: TopLevelAwait over DynamicImport over nothing (None for `null`). */
  function HighestPattern(ast: Module): Option<CodePattern> {
    var root := ModuleRoot(ast);
    if HasTla(root, 0) then Some(TopLevelAwait)
    else if HasDynamicImport(root) then Some(DynamicImport)
    else None
  }

  /** Nothing below a function-like boundary counts as top-level await. */
  lemma {:induction false} NoTlaBelowTopLevel(n: Node, depth: nat)
    requires depth > 0
    ensures !HasTla(n, depth)
    decreases n
  {
    forall i | 0 <= i < |n.parts|
      ensures !HasTla(n.parts[i], PartsDepth(n.kind, depth))
    {
      NoTlaBelowTopLevel(n.parts[i], PartsDepth(n.kind, depth));
    }
  }

  /** At the root, a pattern is found exactly when one of the module's items holds it. */
  lemma RootHolds(m: Module)
    ensures HasTla(ModuleRoot(m), 0) <==> exists item :: item in m.body && HasTla(ItemNode(item), 0)
    ensures HasDynamicImport(ModuleRoot(m)) <==> exists item :: item in m.body && HasDynamicImport(ItemNode(item))
  {
    var root := ModuleRoot(m);
    assert forall i :: 0 <= i < |root.parts| ==> root.parts[i] == ItemNode(m.body[i]);
    if HasTla(root, 0) {
      var i :| 0 <= i < |root.parts| && HasTla(root.parts[i], 0);
      assert m.body[i] in m.body;
    }
    if HasDynamicImport(root) {
      var i :| 0 <= i < |root.parts| && HasDynamicImport(root.parts[i]);
      assert m.body[i] in m.body;
    }
  }

  /**
    The result does not depend on the order of the module's items: the same
    items in any order give the same pattern.
  */
  lemma OrderIndependent(a: Module, b: Module)
    requires multiset(a.body) == multiset(b.body)
    ensures HighestPattern(a) == HighestPattern(b)
  {
    forall x ensures x in a.body <==> x in b.body {
      assert x in a.body <==> x in multiset(a.body);
      assert x in b.body <==> x in multiset(b.body);
    }
    RootHolds(a);
    RootHolds(b);
  }

  /** The traversal: fields as in the source, the early exit returned as `foundTla`. */
  class FindPatternsVisitor {
    var foundDynamicImport: bool
    var currentLevel: nat

    constructor()
      ensures !foundDynamicImport && currentLevel == 0
    {
      foundDynamicImport := false;
      currentLevel := 0;
    }

    /**
      Visits `n`. True means a top-level await was found and the traversal
      stops; otherwise the level counter is back where it was and the flag
      records every dynamic import seen.
    */
    method Visit(n: Node) returns (foundTla: bool)
      modifies this
      decreases n
      ensures foundTla == HasTla(n, old(currentLevel))
      ensures !foundTla ==> currentLevel == old(currentLevel)
      ensures !foundTla ==> foundDynamicImport == (old(foundDynamicImport) || HasDynamicImport(n))
    {
      var boundary := IsFunctionBoundary(n.kind);
      if boundary {
        if foundDynamicImport {
          // Once a dynamic import is known, function-like subtrees are skipped.
          BoundaryHidesAwaitAt(n, currentLevel);
          return false;
        }
        currentLevel := currentLevel + 1;
      } else if n.kind.AwaitExpr? || n.kind == ForOfStmt(true) {
        if currentLevel == 0 {
          return true;
        }
      } else if n.kind == CallExpr(true) {
        foundDynamicImport := true;
      }
      var level := currentLevel;
      assert level == PartsDepth(n.kind, old(currentLevel));
      var i := 0;
      while i < |n.parts|
        invariant 0 <= i <= |n.parts|
        invariant currentLevel == level
        invariant foundDynamicImport == (old(foundDynamicImport) || n.kind == CallExpr(true)
                                         || exists j :: 0 <= j < i && HasDynamicImport(n.parts[j]))
        invariant forall j :: 0 <= j < i ==> !HasTla(n.parts[j], level)
      {
        foundTla := Visit(n.parts[i]);
        if foundTla {
          return;
        }
        i := i + 1;
      }
      if boundary {
        currentLevel := currentLevel - 1;
      }
      foundTla := false;
    }
  }

  /** A function, arrow function, class or method property never holds a top-level await, at any depth. */
  lemma BoundaryHidesAwaitAt(n: Node, depth: nat)
    requires IsFunctionBoundary(n.kind)
    ensures !HasTla(n, depth)
  {
    forall i | 0 <= i < |n.parts|
      ensures !HasTla(n.parts[i], depth + 1)
    {
      NoTlaBelowTopLevel(n.parts[i], depth + 1);
    }
  }

  /** `findHighestPattern(ast)` */
  method FindHighestPattern(ast: Module) returns (p: Option<CodePattern>)
    ensures p == HighestPattern(ast)
    ensures p == Some(TopLevelAwait) <==> HasTla(ModuleRoot(ast), 0)
  {
    var visitor := new FindPatternsVisitor();
    var foundTla := visitor.Visit(ModuleRoot(ast));
    if foundTla {
      return Some(TopLevelAwait);
    }
    if visitor.foundDynamicImport {
      return Some(DynamicImport);
    }
    return None;
  }

  // ---------------------------------------------------------------------------
  // The cases of the repository's tests, on small trees
  // ---------------------------------------------------------------------------

  const AwaitLeaf := Node(AwaitExpr, [Leaf])

  /** `await p;` at top level, also nested in other statements and expressions. */
  lemma AwaitInBlocksIsTopLevel(n: Node)
    requires !IsFunctionBoundary(n.kind)
    requires AwaitLeaf in n.parts
    ensures HasTla(Node(ForOfStmt(false), [Node(OtherNode, [n])]), 0)
  {
    var i :| 0 <= i < |n.parts| && n.parts[i] == AwaitLeaf;
    assert HasTla(n.parts[i], 0);
    assert HasTla(n, 0);
    var block := Node(OtherNode, [n]);
    assert block.parts[0] == n;
    assert HasTla(block, 0);
    assert Node(ForOfStmt(false), [block]).parts[0] == block;
  }

  /** A plain for-of loop with nothing blocking inside is not top-level await; a for-await loop is. */
  lemma ForOfExamples()
    ensures !HasTla(Node(ForOfStmt(false), [Leaf, Leaf]), 0)
    ensures HasTla(Node(ForOfStmt(true), [Leaf, Leaf]), 0)
  {
    // Solver hint: the loop's parts are leaves, and a leaf holds nothing that blocks.
    var n := Node(ForOfStmt(false), [Leaf, Leaf]);
    assert !HasTla(Leaf, 0);
    assert forall i :: 0 <= i < |n.parts| ==> n.parts[i] == Leaf;
  }

  /** An import() call inside a function gives DynamicImport when nothing blocks. */
  lemma DynamicImportInFunction()
    ensures HighestPattern(Module([Statement(FunctionDecl("f", [Node(CallExpr(true), [Leaf])]))])) == Some(DynamicImport)
  {
    var m := Module([Statement(FunctionDecl("f", [Node(CallExpr(true), [Leaf])]))]);
    var f := Node(FunctionNode, [Node(CallExpr(true), [Leaf])]);
    var root := ModuleRoot(m);
    assert ItemNode(m.body[0]) == f;
    assert root.parts == [f];
    BoundaryHidesAwaitAt(f, 0);
    assert !HasTla(root, 0);
    assert HasDynamicImport(f.parts[0]);
    assert HasDynamicImport(f);
    assert HasDynamicImport(root.parts[0]);
  }
}
