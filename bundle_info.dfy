/**
  The bundle analysis (src/bundle-info.ts): which chunk imports which, and
  which chunks must be rewritten.

  Pass 1 records, for every chunk, the chunks it imports, adds the reverse
  edges, and classifies the chunk by itself. Pass 2 walks the reverse edges
  from every chunk with top-level await, breadth first, marking every chunk
  that transitively imports one. The records are plain values that no two
  chunks share, so the model keeps them in a map that each step replaces.
*/
module BundleInfo {
  import opened Wrappers
  import opened Syntax
  import opened Find
  import RI = ResolveImport

  /** The record kept for each chunk. */
  datatype ModuleInfo = ModuleInfo(
    imported: seq<string>,
    importedBy: seq<string>,
    withTopLevelAwait: bool,
    transformNeeded: bool)

  /** The parsed chunks: file names in the order of the record's keys, and their syntax trees. */
  datatype Bundle = Bundle(names: seq<string>, asts: map<string, Module>)

  predicate Distinct(s: seq<string>) {
    forall i, j :: 0 <= i < j < |s| ==> s[i] != s[j]
  }

  /** A record has each key once, and its key order lists exactly its keys. */
  ghost predicate ValidBundle(b: Bundle) {
    Distinct(b.names) && forall n :: n in b.names <==> n in b.asts
  }

  // ---------------------------------------------------------------------------
  // The dependency graph, as pass 1 sees it
  // ---------------------------------------------------------------------------

  /**
    The import targets of `items`, for a chunk named `moduleName`: each import
    declaration's resolved specifier, in order, dropping the external ones.
  */
  function ResolvedImports(moduleName: string, items: seq<ModuleItem>): (r: seq<string>)
    ensures |r| <= |items|
  {
    if items == [] then []
    else
      var head := if items[0].Import? then RI.Resolve(moduleName, items[0].source) else None;
      (if head.Some? then [head.value] else []) + ResolvedImports(moduleName, items[1..])
  }

  /** The targets keep the order of the declarations: those of a concatenation are those of each part, in turn. */
  lemma {:induction false} ResolvedImportsAppend(moduleName: string, a: seq<ModuleItem>, b: seq<ModuleItem>)
    ensures ResolvedImports(moduleName, a + b) == ResolvedImports(moduleName, a) + ResolvedImports(moduleName, b)
  {
    if a != [] {
      assert (a + b)[0] == a[0] && (a + b)[1..] == a[1..] + b;
      var head := var h := if a[0].Import? then RI.Resolve(moduleName, a[0].source) else None; if h.Some? then [h.value] else [];
      assert ResolvedImports(moduleName, a + b) == head + ResolvedImports(moduleName, a[1..] + b);
      ResolvedImportsAppend(moduleName, a[1..], b);
      assert ResolvedImports(moduleName, a + b) == head + (ResolvedImports(moduleName, a[1..]) + ResolvedImports(moduleName, b));
      assert ResolvedImports(moduleName, a) == head + ResolvedImports(moduleName, a[1..]);
      ConcatAssociative(head, ResolvedImports(moduleName, a[1..]), ResolvedImports(moduleName, b));
    } else {
      assert a + b == b;
    }
  }

  /**
    Each declaration contributes its own target once, so a chunk imported by
    two declarations is listed twice.
  */
  lemma ResolvedImportsOfOne(moduleName: string, item: ModuleItem)
    ensures ResolvedImports(moduleName, [item])
         == if item.Import? && RI.Resolve(moduleName, item.source).Some?
            then [RI.Resolve(moduleName, item.source).value] else []
  {
    assert [item][1..] == [];
  }

  /** What pass 1 learns of one chunk by itself: its import targets and its highest pattern. */
  datatype Local = Local(imported: seq<string>, pattern: Option<CodePattern>)

  /** The chunks in key order, and what each one says about itself. */
  datatype Graph = Graph(names: seq<string>, locals: map<string, Local>)

  ghost predicate ValidGraph(g: Graph) {
    Distinct(g.names) && forall n :: n in g.names <==> n in g.locals
  }

  function BundleGraph(b: Bundle): (g: Graph)
    ensures g.names == b.names && g.locals.Keys == b.asts.Keys
  {
    Graph(b.names, map n | n in b.asts :: Local(ResolvedImports(n, b.asts[n].body), HighestPattern(b.asts[n])))
  }

  /** The number of occurrences of `x` in `s`. */
  function Count(s: seq<string>, x: string): (r: nat)
    ensures r > 0 <==> x in s
  {
    if s == [] then 0
    else Count(s[..|s| - 1], x) + (if s[|s| - 1] == x then 1 else 0)
  }

  function Repeat(x: string, n: nat): (r: seq<string>)
    ensures |r| == n && forall i :: 0 <= i < n ==> r[i] == x
  {
    if n == 0 then [] else Repeat(x, n - 1) + [x]
  }

  /**
    The importers of `t` among the first `k` chunks: each importer once per
    import of `t` it holds, in the order pass 1 meets those imports.
  */
  function ImportersUpTo(g: Graph, k: nat, t: string): (r: seq<string>)
    requires ValidGraph(g) && k <= |g.names|
    ensures forall x :: x in r ==> x in g.locals
  {
    if k == 0 then []
    else
      var m := g.names[k - 1];
      ImportersUpTo(g, k - 1, t) + Repeat(m, Count(g.locals[m].imported, t))
  }

  /** The `importedBy` list pass 1 builds for `t`. */
  function ImportedBy(g: Graph, t: string): (r: seq<string>)
    requires ValidGraph(g)
    ensures forall x :: x in r ==> x in g.locals
  {
    ImportersUpTo(g, |g.names|, t)
  }

  predicate IsTla(g: Graph, m: string) {
    m in g.locals && g.locals[m].pattern == Some(TopLevelAwait)
  }

  /** The records as pass 1 leaves them. */
  ghost predicate AfterForwardPass(g: Graph, info: map<string, ModuleInfo>)
    requires ValidGraph(g)
  {
    && info.Keys == g.locals.Keys
    && forall m :: m in info ==> Recorded(g, info, m) && info[m].importedBy == ImportedBy(g, m)
  }

  /** A chain of chunks of the bundle, each importing the next. */
  ghost predicate IsImportPath(g: Graph, path: seq<string>)
    decreases |path|
  {
    && |path| >= 1
    && path[0] in g.locals
    && (|path| > 1 ==> path[1] in g.locals[path[0]].imported && IsImportPath(g, path[1..]))
  }

  /** `m` imports, directly or through other chunks, a chunk with top-level await. */
  ghost predicate ReachesTla(g: Graph, m: string) {
    exists path :: IsImportPath(g, path) && path[0] == m && IsTla(g, path[|path| - 1])
  }

  // ---------------------------------------------------------------------------
  // Pass 1
  // ---------------------------------------------------------------------------

  /** The record of `m` holds what pass 1 learns of `m` by itself. */
  ghost predicate Recorded(g: Graph, info: map<string, ModuleInfo>, m: string)
    requires m in g.locals && m in info
  {
    && info[m].imported == g.locals[m].imported
    && info[m].withTopLevelAwait == IsTla(g, m)
    && info[m].transformNeeded == g.locals[m].pattern.Some?
  }

  /** Builds the records, the reverse edges and each chunk's own flags. */
  method ForwardPass(b: Bundle) returns (info: map<string, ModuleInfo>)
    requires ValidBundle(b)
    ensures ValidGraph(BundleGraph(b)) && AfterForwardPass(BundleGraph(b), info)
  {
    ghost var g := BundleGraph(b);
    assert ValidGraph(g);
    info := map n | n in b.asts :: ModuleInfo([], [], false, false);
    var k := 0;
    while k < |b.names|
      invariant k <= |b.names|
      invariant info.Keys == b.asts.Keys
      invariant forall j :: 0 <= j < k ==> Recorded(g, info, b.names[j])
      invariant forall t :: t in info ==> info[t].importedBy == ImportersUpTo(g, k, t)
    {
      var moduleName := b.names[k];
      ghost var before := info;
      ghost var named, linked;
      info, named, linked := RecordChunk(info, moduleName, b.asts[moduleName]);
      assert g.locals[moduleName] == Local(ResolvedImports(moduleName, b.asts[moduleName].body), HighestPattern(b.asts[moduleName]));
      ghost var done := k;
      k := k + 1;
      ForwardStepRecords(g, done, k, before, named, linked, info);
      ForwardStepLinks(g, done, k, before, named, linked, info);
    }
    forall m | m in info ensures Recorded(g, info, m) {
      var j :| 0 <= j < |b.names| && b.names[j] == m;
    }
  }

  /**
    One iteration of pass 1, for the chunk `moduleName` with syntax tree
    `ast`; `named` and `linked` are the records after each of its first two steps.
  */
  method RecordChunk(info: map<string, ModuleInfo>, moduleName: string, ast: Module)
    returns (r: map<string, ModuleInfo>, ghost named: map<string, ModuleInfo>, ghost linked: map<string, ModuleInfo>)
    requires moduleName in info
    ensures ForwardStepDone(moduleName, Local(ResolvedImports(moduleName, ast.body), HighestPattern(ast)), info, named, linked, r)
    ensures r.Keys == info.Keys
    ensures r[moduleName].imported == ResolvedImports(moduleName, ast.body)
    ensures r[moduleName].withTopLevelAwait <==> HighestPattern(ast) == Some(TopLevelAwait)
    ensures r[moduleName].transformNeeded <==> HighestPattern(ast).Some?
    ensures forall t :: t in info ==>
              r[t].importedBy == info[t].importedBy + Repeat(moduleName, Count(ResolvedImports(moduleName, ast.body), t))
  {
    var imported := ResolvedImports(moduleName, ast.body);
    r := info[moduleName := info[moduleName].(imported := imported)];
    named := r;
    r := AddReverseEdges(r, moduleName, imported);
    linked := r;
    var highestPattern := FindHighestPattern(ast);
    r := r[moduleName := r[moduleName].(
      transformNeeded := highestPattern == Some(TopLevelAwait) || highestPattern == Some(DynamicImport),
      withTopLevelAwait := highestPattern == Some(TopLevelAwait))];
  }

  /**
    How one iteration of pass 1 changes the records, with `m` the chunk it
    handles: its targets are stored, it is pushed onto its targets'
    importers, and its own flags are set.
  */
  ghost predicate ForwardStepDone(m: string, loc: Local, before: map<string, ModuleInfo>, named: map<string, ModuleInfo>,
                                  linked: map<string, ModuleInfo>, after: map<string, ModuleInfo>)
  {
    && m in before
    && named == before[m := before[m].(imported := loc.imported)]
    && EdgesAdded(named, m, loc.imported, linked)
    && after == linked[m := linked[m].(transformNeeded := loc.pattern.Some?,
                                       withTopLevelAwait := loc.pattern == Some(TopLevelAwait))]
  }

  /** One iteration of pass 1 records one more chunk and leaves the others' records alone. */
  lemma ForwardStepRecords(g: Graph, k: nat, next: nat, before: map<string, ModuleInfo>, named: map<string, ModuleInfo>,
                           linked: map<string, ModuleInfo>, after: map<string, ModuleInfo>)
    requires ValidGraph(g) && k < |g.names| && next == k + 1 && before.Keys == g.locals.Keys
    requires forall j :: 0 <= j < k ==> Recorded(g, before, g.names[j])
    requires ForwardStepDone(g.names[k], g.locals[g.names[k]], before, named, linked, after)
    ensures after.Keys == g.locals.Keys
    ensures forall j :: 0 <= j < next ==> Recorded(g, after, g.names[j])
  {
    forall j | 0 <= j < next ensures Recorded(g, after, g.names[j]) {
      if j < k {
        assert g.names[j] != g.names[k];
        RecordedFrame(g, before, after, g.names[j]);
      }
    }
  }

  /** One iteration of pass 1 adds the importers among one more chunk. */
  lemma ForwardStepLinks(g: Graph, k: nat, next: nat, before: map<string, ModuleInfo>, named: map<string, ModuleInfo>,
                         linked: map<string, ModuleInfo>, after: map<string, ModuleInfo>)
    requires ValidGraph(g) && k < |g.names| && next == k + 1 && before.Keys == g.locals.Keys
    requires forall t :: t in before ==> before[t].importedBy == ImportersUpTo(g, k, t)
    requires ForwardStepDone(g.names[k], g.locals[g.names[k]], before, named, linked, after)
    ensures forall t :: t in after ==> after[t].importedBy == ImportersUpTo(g, next, t)
  {
    var m := g.names[k];
    forall t | t in after ensures after[t].importedBy == ImportersUpTo(g, next, t) {
      assert after[t].importedBy == linked[t].importedBy;
      assert named[t].importedBy == before[t].importedBy;
      ImportersStep(g, k, t);
    }
  }

  /** Recording is about the fields other than `importedBy`. */
  lemma RecordedFrame(g: Graph, a: map<string, ModuleInfo>, c: map<string, ModuleInfo>, m: string)
    requires m in g.locals && m in a && m in c && Recorded(g, a, m)
    requires c[m] == a[m].(importedBy := c[m].importedBy)
    ensures Recorded(g, c, m)
  {
  }

  lemma ImportersStep(g: Graph, k: nat, t: string)
    requires ValidGraph(g) && k < |g.names|
    ensures ImportersUpTo(g, k + 1, t)
            == ImportersUpTo(g, k, t) + Repeat(g.names[k], Count(g.locals[g.names[k]].imported, t))
  {
  }

  /**
    The reverse edges of one chunk: `moduleName` is pushed onto the importers
    of each of its targets that the bundle holds, once per import.
  */
  method AddReverseEdges(info: map<string, ModuleInfo>, moduleName: string, imported: seq<string>)
    returns (r: map<string, ModuleInfo>)
    ensures EdgesAdded(info, moduleName, imported, r)
  {
    r := info;
    var l := 0;
    EdgesNone(info, moduleName);
    while l < |imported|
      invariant l <= |imported|
      invariant EdgesAdded(info, moduleName, imported[..l], r)
    {
      var target := imported[l];
      ghost var seen := imported[..l];
      ghost var before := r;
      if target in r {
        r := r[target := r[target].(importedBy := r[target].importedBy + [moduleName])];
      }
      l := l + 1;
      assert imported[..l] == seen + [target];
      EdgesStep(info, moduleName, seen, target, before, r);
    }
    assert imported[..l] == imported;
  }

  /**
    `r` is `info` with `moduleName` appended to the importers of each chunk
    `t` as many times as `imported` lists `t`.
  */
  ghost predicate EdgesAdded(info: map<string, ModuleInfo>, moduleName: string, imported: seq<string>, r: map<string, ModuleInfo>) {
    && r.Keys == info.Keys
    && forall t :: t in info ==> r[t] == info[t].(importedBy := info[t].importedBy + Repeat(moduleName, Count(imported, t)))
  }

  lemma EdgesNone(info: map<string, ModuleInfo>, moduleName: string)
    ensures EdgesAdded(info, moduleName, [], info)
  {
    forall t | t in info ensures info[t] == info[t].(importedBy := info[t].importedBy + Repeat(moduleName, Count([], t))) {
      assert info[t].importedBy + [] == info[t].importedBy;
    }
  }

  /** One more import of `target` pushes `moduleName` once more onto its importers, if the bundle holds it. */
  lemma EdgesStep(info: map<string, ModuleInfo>, moduleName: string, seen: seq<string>, target: string,
                  before: map<string, ModuleInfo>, after: map<string, ModuleInfo>)
    requires EdgesAdded(info, moduleName, seen, before)
    requires after == if target in before then before[target := before[target].(importedBy := before[target].importedBy + [moduleName])] else before
    ensures EdgesAdded(info, moduleName, seen + [target], after)
  {
    assert (seen + [target])[..|seen|] == seen;
    forall t | t in info
      ensures after[t] == info[t].(importedBy := info[t].importedBy + Repeat(moduleName, Count(seen + [target], t)))
    {
      if t == target {
        assert info[t].importedBy + Repeat(moduleName, Count(seen, t)) + [moduleName]
            == info[t].importedBy + Repeat(moduleName, Count(seen, t) + 1);
      }
    }
  }

  // ---------------------------------------------------------------------------
  // Pass 2
  // ---------------------------------------------------------------------------

  /** The chunks of `names` whose record has the top-level-await flag, in order. */
  function FlaggedIn(names: seq<string>, info: map<string, ModuleInfo>): (r: seq<string>)
    ensures forall x :: x in r <==> x in names && x in info && info[x].withTopLevelAwait
    ensures Distinct(names) ==> Distinct(r)
  {
    if names == [] then []
    else
      var rest := FlaggedIn(names[1..], info);
      var flagged := names[0] in info && info[names[0]].withTopLevelAwait;
      assert forall x :: x in rest ==> x in names[1..];
      (if flagged then [names[0]] else []) + rest
  }

  /**
    Pass 2 changes only the two flags, never clears one, and sets
    `transformNeeded` whenever it sets `withTopLevelAwait`.
  */
  ghost predicate Kept(info: map<string, ModuleInfo>, r: map<string, ModuleInfo>) {
    && r.Keys == info.Keys
    && forall m :: m in r ==>
         && r[m].imported == info[m].imported
         && r[m].importedBy == info[m].importedBy
         && (info[m].withTopLevelAwait ==> r[m].withTopLevelAwait)
         && r[m].transformNeeded == (info[m].transformNeeded || r[m].withTopLevelAwait)
  }

  /**
    The reverse edges pass 1 leaves: `n` is among the importers of `m`
    exactly when `m` is among the targets of `n`.
  */
  ghost predicate Mirrored(g: Graph, info: map<string, ModuleInfo>) {
    forall m, n :: m in info && n in info && n in g.locals ==>
      (n in info[m].importedBy <==> m in g.locals[n].imported)
  }

  lemma MirroredAt(g: Graph, info: map<string, ModuleInfo>, m: string, n: string)
    requires Mirrored(g, info) && m in info && n in info && n in g.locals
    ensures n in info[m].importedBy <==> m in g.locals[n].imported
  {
  }

  /** Every importer recorded is a chunk of the bundle. */
  ghost predicate ImportersKnown(info: map<string, ModuleInfo>) {
    forall m, n :: m in info && n in info[m].importedBy ==> n in info
  }

  /** Every flagged chunk reaches top-level await. */
  ghost predicate Sound(g: Graph, r: map<string, ModuleInfo>) {
    forall m {:trigger ReachesTla(g, m)} :: m in r && r[m].withTopLevelAwait ==> ReachesTla(g, m)
  }

  /** The chunks ever enqueued are the flagged ones, each enqueued once. */
  ghost predicate FlagsMatch(r: map<string, ModuleInfo>, enqueued: seq<string>) {
    Distinct(enqueued) && forall m :: m in enqueued <==> m in r && r[m].withTopLevelAwait
  }

  /** Every importer of a chunk taken off the queue is flagged. */
  ghost predicate ClosedOver(r: map<string, ModuleInfo>, done: seq<string>) {
    forall m :: m in done ==> m in r && forall n :: n in r[m].importedBy ==> n in r && r[n].withTopLevelAwait
  }

  /** `moduleInfo.withTopLevelAwait = true; moduleInfo.transformNeeded = true;` on the record of `m`. */
  function Flag(r: map<string, ModuleInfo>, m: string): (flagged: map<string, ModuleInfo>)
    requires m in r
    ensures flagged.Keys == r.Keys && flagged[m].withTopLevelAwait && flagged[m].transformNeeded
    ensures forall n :: n in r && n != m ==> flagged[n] == r[n]
  {
    r[m := r[m].(withTopLevelAwait := true, transformNeeded := true)]
  }

  /** What holds after the first `j` importers of the chunk taken off the queue have been visited. */
  ghost predicate EnqueueInv(g: Graph, info: map<string, ModuleInfo>, enqueued: seq<string>, importers: seq<string>,
                             j: nat, r: map<string, ModuleInfo>, added: seq<string>)
  {
    && j <= |importers|
    && Kept(info, r) && Sound(g, r) && FlagsMatch(r, enqueued + added)
    && forall i :: 0 <= i < j ==> importers[i] in r && r[importers[i]].withTopLevelAwait
  }

  /**
    The body of pass 2 for the chunk `moduleName` just taken off the queue:
    each of its importers not yet flagged is flagged and enqueued.
  */
  method EnqueueImporters(g: Graph, info: map<string, ModuleInfo>, r0: map<string, ModuleInfo>, moduleName: string,
                          q0: seq<string>, ghost enqueued: seq<string>)
    returns (r: map<string, ModuleInfo>, q: seq<string>, ghost added: seq<string>)
    requires Kept(info, r0) && Sound(g, r0) && FlagsMatch(r0, enqueued)
    requires moduleName in r0 && r0[moduleName].withTopLevelAwait
    requires forall n :: n in r0[moduleName].importedBy ==> n in r0 && ReachesTla(g, n)
    ensures Kept(info, r) && Sound(g, r) && FlagsMatch(r, enqueued + added)
    ensures q == q0 + added
    ensures forall m :: m in r0 && r0[m].withTopLevelAwait ==> r[m].withTopLevelAwait
    ensures forall n :: n in r[moduleName].importedBy ==> n in r && r[n].withTopLevelAwait
  {
    r, q, added := r0, q0, [];
    var importers := r[moduleName].importedBy;
    AppendNothing(enqueued);
    var j := 0;
    while j < |importers|
      invariant EnqueueInv(g, info, enqueued, importers, j, r, added)
      invariant q == q0 + added
    {
      var next := importers[j];
      ghost var visited := j;
      j := j + 1;
      if r[next].withTopLevelAwait {
        StepSkips(g, info, enqueued, importers, visited, j, r, added);
      } else {
        StepFlags(g, info, enqueued, importers, visited, j, r, added);
        ConcatAssociative(q0, added, [next]);
        r := Flag(r, next);
        q := q + [next];
        added := added + [next];
      }
    }
    FlagsGrow(r0, r, enqueued, added);
    ImportersAllFlagged(r, importers);
  }

  /** The importers of a flagged chunk reach top-level await. */
  lemma ImportersReach(g: Graph, info: map<string, ModuleInfo>, r: map<string, ModuleInfo>, m: string)
    requires info.Keys == g.locals.Keys && Mirrored(g, info) && ImportersKnown(info)
    requires Kept(info, r) && Sound(g, r)
    requires m in r && r[m].withTopLevelAwait
    ensures forall n :: n in r[m].importedBy ==> n in r && ReachesTla(g, n)
  {
    forall n | n in r[m].importedBy ensures n in r && ReachesTla(g, n) {
      assert n in info[m].importedBy;
      MirroredAt(g, info, m, n);
      ImporterOfReaching(g, m, n);
    }
  }

  /** Visiting an importer that is already flagged keeps the loop invariant. */
  lemma StepSkips(g: Graph, info: map<string, ModuleInfo>, enqueued: seq<string>, importers: seq<string>,
                  j: nat, next: nat, r: map<string, ModuleInfo>, added: seq<string>)
    requires EnqueueInv(g, info, enqueued, importers, j, r, added)
    requires j < |importers| && next == j + 1 && importers[j] in r && r[importers[j]].withTopLevelAwait
    ensures EnqueueInv(g, info, enqueued, importers, next, r, added)
  {
  }

  /** Flagging and enqueuing an importer that reaches top-level await keeps the loop invariant. */
  lemma StepFlags(g: Graph, info: map<string, ModuleInfo>, enqueued: seq<string>, importers: seq<string>,
                  j: nat, next: nat, r: map<string, ModuleInfo>, added: seq<string>)
    requires EnqueueInv(g, info, enqueued, importers, j, r, added)
    requires j < |importers| && next == j + 1 && importers[j] in r && !r[importers[j]].withTopLevelAwait
    requires ReachesTla(g, importers[j])
    ensures EnqueueInv(g, info, enqueued, importers, next, Flag(r, importers[j]), added + [importers[j]])
  {
    var n := importers[j];
    FlagKeepsInvariants(g, info, r, n, enqueued + added);
    assert (enqueued + added) + [n] == enqueued + (added + [n]);
    var flagged := Flag(r, n);
    forall i | 0 <= i < next ensures importers[i] in flagged && flagged[importers[i]].withTopLevelAwait {
      if i < j && importers[i] != n {
        assert r[importers[i]].withTopLevelAwait;
      }
    }
  }

  /** Pass 2 never clears a flag: everything enqueued before stays enqueued. */
  lemma FlagsGrow(r0: map<string, ModuleInfo>, r: map<string, ModuleInfo>, enqueued: seq<string>, added: seq<string>)
    requires FlagsMatch(r0, enqueued) && FlagsMatch(r, enqueued + added)
    ensures forall m :: m in r0 && r0[m].withTopLevelAwait ==> m in r && r[m].withTopLevelAwait
  {
    forall m | m in r0 && r0[m].withTopLevelAwait ensures m in r && r[m].withTopLevelAwait {
      assert m in enqueued;
      assert m in enqueued + added;
    }
  }

  lemma ImportersAllFlagged(r: map<string, ModuleInfo>, importers: seq<string>)
    requires forall i :: 0 <= i < |importers| ==> importers[i] in r && r[importers[i]].withTopLevelAwait
    ensures forall n :: n in importers ==> n in r && r[n].withTopLevelAwait
  {
  }

  /** Flagging one more chunk that reaches top-level await, and enqueuing it, keeps pass 2's invariants. */
  lemma FlagKeepsInvariants(g: Graph, info: map<string, ModuleInfo>, r: map<string, ModuleInfo>, next: string,
                            enqueued: seq<string>)
    requires Kept(info, r) && Sound(g, r) && FlagsMatch(r, enqueued)
    requires next in r && !r[next].withTopLevelAwait && ReachesTla(g, next)
    ensures Kept(info, Flag(r, next)) && Sound(g, Flag(r, next)) && FlagsMatch(Flag(r, next), enqueued + [next])
  {
    var flagged := Flag(r, next);
    assert next !in enqueued;
    forall i, j | 0 <= i < j < |enqueued + [next]| ensures (enqueued + [next])[i] != (enqueued + [next])[j] {
      if j == |enqueued| {
        assert (enqueued + [next])[i] == enqueued[i];
      }
    }
    assert Sound(g, flagged) by {
      forall m | m in flagged && flagged[m].withTopLevelAwait ensures ReachesTla(g, m) {
        if m != next {
          assert r[m].withTopLevelAwait;
        }
      }
    }
  }

  /**
    What holds at the head of pass 2's loop: `done` are the chunks taken off
    the queue, `q` the queue, and their concatenation every chunk enqueued.
  */
  ghost predicate PropagateInv(g: Graph, info: map<string, ModuleInfo>, r: map<string, ModuleInfo>,
                               done: seq<string>, q: seq<string>)
  {
    && Kept(info, r) && Sound(g, r) && FlagsMatch(r, done + q)
    && ClosedOver(r, done)
  }

  /**
    Spreads the top-level-await flag along the reverse edges, breadth first.
    `enqueued` is every chunk the queue ever held, in order.
  */
  method PropagateTla(g: Graph, info: map<string, ModuleInfo>) returns (r: map<string, ModuleInfo>, ghost enqueued: seq<string>)
    requires ValidGraph(g) && info.Keys == g.locals.Keys && Mirrored(g, info) && ImportersKnown(info)
    requires forall m :: m in info ==> info[m].withTopLevelAwait == IsTla(g, m)
    ensures r.Keys == info.Keys
    ensures forall m :: m in r ==> r[m].imported == info[m].imported && r[m].importedBy == info[m].importedBy
    ensures forall m :: m in r ==> (r[m].withTopLevelAwait <==> ReachesTla(g, m))
    ensures forall m :: m in r ==> r[m].transformNeeded == (info[m].transformNeeded || r[m].withTopLevelAwait)
    ensures FlagsMatch(r, enqueued)
  {
    r := info;
    var q := FlaggedIn(g.names, info);
    ghost var done: seq<string> := [];
    PropagateStarts(g, info, q);
    while |q| > 0
      invariant PropagateInv(g, info, r, done, q)
      decreases |g.names| - |done|
    {
      var moduleName := q[0];
      var rest := q[1..];
      ghost var before, added := r, [];
      PropagateHead(g, info, r, done, q);
      HeadAndRest(q);
      r, q, added := EnqueueImporters(g, info, r, moduleName, rest, done + ([moduleName] + rest));
      PropagateSteps(g, info, before, r, done, moduleName, rest, added);
      done := done + [moduleName];
    }
    enqueued := done;
    assert done + q == done;
    PropagateCompletes(g, info, r, done);
  }

  /** Pass 2 starts from the chunks with top-level await of their own, each queued once. */
  lemma PropagateStarts(g: Graph, info: map<string, ModuleInfo>, q: seq<string>)
    requires ValidGraph(g) && info.Keys == g.locals.Keys
    requires forall m :: m in info ==> info[m].withTopLevelAwait == IsTla(g, m)
    requires q == FlaggedIn(g.names, info)
    ensures PropagateInv(g, info, info, [], q)
  {
    assert [] + q == q;
    forall m | m in info && info[m].withTopLevelAwait ensures ReachesTla(g, m) {
      TlaReachesItself(g, m);
    }
  }

  /**
    The head of the queue is flagged and its importers reach top-level await;
    every chunk is enqueued at most once, so the loop takes at most one turn per chunk.
  */
  lemma PropagateHead(g: Graph, info: map<string, ModuleInfo>, r: map<string, ModuleInfo>, done: seq<string>, q: seq<string>)
    requires ValidGraph(g) && info.Keys == g.locals.Keys && Mirrored(g, info) && ImportersKnown(info)
    requires PropagateInv(g, info, r, done, q) && |q| > 0
    ensures |done| < |g.names|
    ensures q[0] in r && r[q[0]].withTopLevelAwait
    ensures forall n :: n in r[q[0]].importedBy ==> n in r && ReachesTla(g, n)
  {
    EnqueuedBound(g, done + q);
    assert q[0] in done + q;
    ImportersReach(g, info, r, q[0]);
  }

  // Solver hint: names the identity the queue bookkeeping needs, so it is not re-derived elementwise.
  lemma AppendNothing(s: seq<string>)
    ensures s + [] == s
  {
  }

  // Solver hint: splits the queue at its head for the step that dequeues it.
  lemma HeadAndRest(q: seq<string>)
    requires |q| > 0
    ensures q == [q[0]] + q[1..]
  {
  }

  /** One turn of pass 2's loop keeps its invariant. */
  lemma PropagateSteps(g: Graph, info: map<string, ModuleInfo>, before: map<string, ModuleInfo>, after: map<string, ModuleInfo>,
                       done: seq<string>, moduleName: string, rest: seq<string>, added: seq<string>)
    requires PropagateInv(g, info, before, done, [moduleName] + rest)
    requires Kept(info, after) && Sound(g, after) && FlagsMatch(after, (done + ([moduleName] + rest)) + added)
    requires forall m :: m in before && before[m].withTopLevelAwait ==> after[m].withTopLevelAwait
    requires moduleName in after
    requires forall n :: n in after[moduleName].importedBy ==> n in after && after[n].withTopLevelAwait
    ensures PropagateInv(g, info, after, done + [moduleName], rest + added)
  {
    assert (done + ([moduleName] + rest)) + added == (done + [moduleName]) + (rest + added);
    var closed := done + [moduleName];
    forall m | m in closed ensures m in after && forall n :: n in after[m].importedBy ==> n in after && after[n].withTopLevelAwait {
      if m != moduleName {
        assert m in done;
        forall n | n in after[m].importedBy ensures n in after && after[n].withTopLevelAwait {
          assert n in before[m].importedBy;
        }
      }
    }
  }

  /** When the queue is empty, the flagged chunks are exactly those that reach top-level await. */
  lemma PropagateCompletes(g: Graph, info: map<string, ModuleInfo>, r: map<string, ModuleInfo>, done: seq<string>)
    requires ValidGraph(g) && info.Keys == g.locals.Keys && Mirrored(g, info)
    requires forall m :: m in info ==> info[m].withTopLevelAwait == IsTla(g, m)
    requires PropagateInv(g, info, r, done, [])
    ensures forall m :: m in r ==> (r[m].withTopLevelAwait <==> ReachesTla(g, m))
  {
    assert done + [] == done;
    var flagged := set m | m in r && r[m].withTopLevelAwait;
    forall m | IsTla(g, m) ensures m in flagged {
      assert info[m].withTopLevelAwait;
    }
    forall m, n | m in flagged && n in g.locals && m in g.locals[n].imported ensures n in flagged {
      MirroredAt(g, info, m, n);
      assert m in done;
    }
    forall m | m in r && ReachesTla(g, m) ensures r[m].withTopLevelAwait {
      var path :| IsImportPath(g, path) && path[0] == m && IsTla(g, path[|path| - 1]);
      ClosedSetHoldsReaching(g, flagged, path);
    }
  }

  /** `parseBundleInfo(bundleAsts)`: pass 1, then pass 2. */
  method ParseBundleInfo(b: Bundle) returns (info: map<string, ModuleInfo>)
    requires ValidBundle(b)
    ensures info.Keys == b.asts.Keys
    ensures forall m :: m in info ==> info[m].imported == ResolvedImports(m, b.asts[m].body)
    ensures forall m :: m in info ==> info[m].importedBy == ImportedBy(BundleGraph(b), m)
    ensures forall m :: m in info ==> (info[m].withTopLevelAwait <==> ReachesTla(BundleGraph(b), m))
    ensures forall m :: m in info ==>
              (info[m].transformNeeded <==> HighestPattern(b.asts[m]).Some? || ReachesTla(BundleGraph(b), m))
    ensures forall m :: m in info && info[m].withTopLevelAwait ==> info[m].transformNeeded
  {
    var pass1 := ForwardPass(b);
    ForwardPassMirrors(BundleGraph(b), pass1);
    ghost var enqueued;
    info, enqueued := PropagateTla(BundleGraph(b), pass1);
  }

  // ---------------------------------------------------------------------------
  // Lemmas
  // ---------------------------------------------------------------------------

  /** The import targets are exactly the resolved specifiers of the import declarations. */
  lemma {:induction false} ResolvedImportsExactly(moduleName: string, items: seq<ModuleItem>, x: string)
    ensures x in ResolvedImports(moduleName, items) <==>
            exists i :: 0 <= i < |items| && items[i].Import? && RI.Resolve(moduleName, items[i].source) == Some(x)
  {
    if items != [] {
      ResolvedImportsExactly(moduleName, items[1..], x);
      if exists i :: 0 <= i < |items| && items[i].Import? && RI.Resolve(moduleName, items[i].source) == Some(x) {
        var i :| 0 <= i < |items| && items[i].Import? && RI.Resolve(moduleName, items[i].source) == Some(x);
        if i > 0 {
          assert items[1..][i - 1] == items[i];
        }
      }
      if exists i :: 0 <= i < |items| - 1 && items[1..][i].Import? && RI.Resolve(moduleName, items[1..][i].source) == Some(x) {
        var i :| 0 <= i < |items| - 1 && items[1..][i].Import? && RI.Resolve(moduleName, items[1..][i].source) == Some(x);
        assert items[i + 1] == items[1..][i];
      }
    }
  }

  lemma {:induction false} ImportersUpToExactly(g: Graph, k: nat, t: string, c: string)
    requires ValidGraph(g) && k <= |g.names|
    ensures c in ImportersUpTo(g, k, t) <==> exists i :: 0 <= i < k && g.names[i] == c && t in g.locals[c].imported
  {
    if k > 0 {
      ImportersUpToExactly(g, k - 1, t, c);
      var m := g.names[k - 1];
      assert c in Repeat(m, Count(g.locals[m].imported, t)) <==> c == m && t in g.locals[m].imported;
    }
  }

  /**
    The reverse edges mirror the forward ones: `c` is among the importers of
    `t` exactly when `t` is among the import targets of `c`.
  */
  lemma EdgeSymmetry(g: Graph, t: string, c: string)
    requires ValidGraph(g) && c in g.locals
    ensures c in ImportedBy(g, t) <==> t in g.locals[c].imported
  {
    ImportersUpToExactly(g, |g.names|, t, c);
    if t in g.locals[c].imported {
      var i :| 0 <= i < |g.names| && g.names[i] == c;
    }
  }

  /** Pass 1 leaves the reverse edges mirroring the forward ones. */
  lemma ForwardPassMirrors(g: Graph, info: map<string, ModuleInfo>)
    requires ValidGraph(g) && AfterForwardPass(g, info)
    ensures Mirrored(g, info) && ImportersKnown(info)
  {
    forall m, n | m in info && n in info && n in g.locals
      ensures n in info[m].importedBy <==> m in g.locals[n].imported
    {
      EdgeSymmetry(g, m, n);
    }
  }

  /** A chunk imported `n` times by `c` lists `c` that many times among its importers. */
  lemma {:induction false} ImportersMultiplicity(g: Graph, k: nat, t: string, i: nat)
    requires ValidGraph(g) && i < k <= |g.names|
    ensures Count(ImportersUpTo(g, k, t), g.names[i]) == Count(g.locals[g.names[i]].imported, t)
  {
    if i == k - 1 {
      LastImporterMultiplicity(g, k, t);
    } else {
      ImportersMultiplicity(g, k - 1, t, i);
      EarlierImporterMultiplicity(g, k, t, i);
    }
  }

  lemma LastImporterMultiplicity(g: Graph, k: nat, t: string)
    requires ValidGraph(g) && 0 < k <= |g.names|
    ensures Count(ImportersUpTo(g, k, t), g.names[k - 1]) == Count(g.locals[g.names[k - 1]].imported, t)
  {
    var m := g.names[k - 1];
    var before := ImportersUpTo(g, k - 1, t);
    var own := Count(g.locals[m].imported, t);
    assert ImportersUpTo(g, k, t) == before + Repeat(m, own);
    NotYetAnImporter(g, k - 1, t, k - 1);
    CountStep(before, m, own, m, own);
  }

  lemma EarlierImporterMultiplicity(g: Graph, k: nat, t: string, i: nat)
    requires ValidGraph(g) && i < k - 1 && k <= |g.names|
    requires Count(ImportersUpTo(g, k - 1, t), g.names[i]) == Count(g.locals[g.names[i]].imported, t)
    ensures Count(ImportersUpTo(g, k, t), g.names[i]) == Count(g.locals[g.names[i]].imported, t)
  {
    var c, m := g.names[i], g.names[k - 1];
    var before := ImportersUpTo(g, k - 1, t);
    var own := Count(g.locals[m].imported, t);
    assert ImportersUpTo(g, k, t) == before + Repeat(m, own);
    DistinctAt(g.names, i, k - 1);
    CountStep(before, m, own, c, Count(g.locals[c].imported, t));
  }

  /** Appending `own` copies of `m` adds `own` to the count of `m` and nothing to the others. */
  lemma CountStep(before: seq<string>, m: string, own: nat, c: string, expected: nat)
    requires (c == m && c !in before && own == expected) || (c != m && Count(before, c) == expected)
    ensures Count(before + Repeat(m, own), c) == expected
  {
    CountAppend(before, Repeat(m, own), c);
    CountRepeat(m, own, c);
  }

  // Solver hint: instantiates Distinct at two given positions.
  lemma DistinctAt(s: seq<string>, i: nat, j: nat)
    requires Distinct(s) && i < j < |s|
    ensures s[i] != s[j]
  {
  }

  /** Pass 1 has not yet recorded any chunk it has not reached. */
  lemma {:induction false} NotYetAnImporter(g: Graph, k: nat, t: string, i: nat)
    requires ValidGraph(g) && k <= i < |g.names|
    ensures g.names[i] !in ImportersUpTo(g, k, t)
  {
    if k > 0 {
      NotYetAnImporter(g, k - 1, t, i);
      assert g.names[k - 1] != g.names[i];
    }
  }

  lemma {:induction false} CountAppend(a: seq<string>, b: seq<string>, x: string)
    ensures Count(a + b, x) == Count(a, x) + Count(b, x)
  {
    if b == [] {
      assert a + b == a;
    } else {
      assert (a + b)[..|a + b| - 1] == a + b[..|b| - 1];
      CountAppend(a, b[..|b| - 1], x);
    }
  }

  lemma {:induction false} CountRepeat(m: string, n: nat, x: string)
    ensures Count(Repeat(m, n), x) == if x == m then n else 0
  {
    if n > 0 {
      assert Repeat(m, n)[..n - 1] == Repeat(m, n - 1);
      CountRepeat(m, n - 1, x);
    }
  }

  /** A chunk with top-level await reaches itself. */
  lemma TlaReachesItself(g: Graph, m: string)
    requires IsTla(g, m)
    ensures ReachesTla(g, m)
  {
    assert IsImportPath(g, [m]);
  }

  /** An importer of a chunk that reaches top-level await reaches it too. */
  lemma ImporterOfReaching(g: Graph, m: string, n: string)
    requires ReachesTla(g, m)
    requires n in g.locals && m in g.locals[n].imported
    ensures ReachesTla(g, n)
  {
    var path :| IsImportPath(g, path) && path[0] == m && IsTla(g, path[|path| - 1]);
    var longer := [n] + path;
    assert longer[1..] == path;
    assert IsImportPath(g, longer);
  }

  /**
    A set of chunks that holds every chunk with top-level await and every
    importer of its members holds every chunk that reaches top-level await.
  */
  lemma {:induction false} ClosedSetHoldsReaching(g: Graph, flagged: set<string>, path: seq<string>)
    requires forall m :: IsTla(g, m) ==> m in flagged
    requires forall m, n :: m in flagged && n in g.locals && m in g.locals[n].imported ==> n in flagged
    requires IsImportPath(g, path) && IsTla(g, path[|path| - 1])
    ensures path[0] in flagged
    decreases |path|
  {
    if |path| > 1 {
      assert IsImportPath(g, path[1..]);
      ClosedSetHoldsReaching(g, flagged, path[1..]);
    }
  }

  /** A set of chunks without top-level await whose imports stay inside it reaches none. */
  lemma {:induction false} ClosedSetReachesNothing(g: Graph, closed: set<string>, path: seq<string>)
    requires forall m :: m in closed && m in g.locals ==> !IsTla(g, m)
    requires forall m, n :: m in closed && m in g.locals && n in g.locals[m].imported && n in g.locals ==> n in closed
    requires IsImportPath(g, path) && path[0] in closed
    ensures !IsTla(g, path[|path| - 1])
    decreases |path|
  {
    if |path| > 1 {
      assert IsImportPath(g, path[1..]);
      ClosedSetReachesNothing(g, closed, path[1..]);
    }
  }

  /** The queue never holds more chunks than the bundle has. */
  lemma EnqueuedBound(g: Graph, enqueued: seq<string>)
    requires ValidGraph(g) && Distinct(enqueued)
    requires forall m :: m in enqueued ==> m in g.locals
    ensures |enqueued| <= |g.names|
  {
    DistinctCard(enqueued);
    DistinctCard(g.names);
    SubsetCard(set m | m in enqueued, set m | m in g.names);
  }

  lemma {:induction false} DistinctCard(s: seq<string>)
    requires Distinct(s)
    ensures |set m | m in s| == |s|
  {
    if s != [] {
      DistinctCard(s[1..]);
      assert (set m | m in s) == {s[0]} + set m | m in s[1..];
      assert s[0] !in set m | m in s[1..];
    }
  }

  lemma {:induction false} SubsetCard(a: set<string>, b: set<string>)
    requires a <= b
    ensures |a| <= |b|
    decreases |a|
  {
    if a != {} {
      var x :| x in a;
      SubsetCard(a - {x}, b - {x});
    }
  }

  // ---------------------------------------------------------------------------
  // The graph of the repository's tests
  // ---------------------------------------------------------------------------

  /**
    a imports b, c, d; b imports c, d; d imports b, f; e imports a, c;
    f imports g; g imports h; h imports i; f and h hold top-level await.
  */
  function ExampleGraph(): Graph {
    var tla := Some(TopLevelAwait);
    Graph(["a", "b", "c", "d", "e", "f", "g", "h", "i"],
      map[
        "a" := Local(["b", "c", "d"], None),
        "b" := Local(["c", "d"], None),
        "c" := Local([], None),
        "d" := Local(["b", "f"], None),
        "e" := Local(["a", "c"], None),
        "f" := Local(["g"], tla),
        "g" := Local(["h"], None),
        "h" := Local(["i"], tla),
        "i" := Local([], None)])
  }

  /** A chain of imports that ends in a chunk with top-level await is a witness for its first chunk. */
  lemma PathReaches(g: Graph, path: seq<string>)
    requires IsImportPath(g, path) && IsTla(g, path[|path| - 1])
    ensures ReachesTla(g, path[0])
  {
  }

  /** c and i have no pattern and import nothing that blocks, so they alone need no transform. */
  lemma ExampleLeavesDoNotReach()
    ensures ExampleGraph().locals["c"].pattern.None? && !ReachesTla(ExampleGraph(), "c")
    ensures ExampleGraph().locals["i"].pattern.None? && !ReachesTla(ExampleGraph(), "i")
  {
    var g := ExampleGraph();
    forall path | IsImportPath(g, path) && (path[0] == "c" || path[0] == "i") ensures !IsTla(g, path[|path| - 1]) {
      ClosedSetReachesNothing(g, {"c", "i"}, path);
    }
  }

  /** f and h hold top-level await; d imports f, and a and b import d. */
  lemma ExampleNeedsTransform()
    ensures ExampleGraph().locals["f"].pattern.Some? && ExampleGraph().locals["h"].pattern.Some?
    ensures ReachesTla(ExampleGraph(), "a") && ReachesTla(ExampleGraph(), "b") && ReachesTla(ExampleGraph(), "d")
  {
    var g := ExampleGraph();
    PathReaches(g, ["a", "d", "f"]);
    PathReaches(g, ["b", "d", "f"]);
    PathReaches(g, ["d", "f"]);
  }

  /** e imports a, which reaches f; g imports h. */
  lemma ExampleNeedsTransformFurther()
    ensures ReachesTla(ExampleGraph(), "e") && ReachesTla(ExampleGraph(), "g")
  {
    var g := ExampleGraph();
    PathReaches(g, ["e", "a", "d", "f"]);
    PathReaches(g, ["g", "h"]);
  }
}
