# vite-plugin-top-level-await, modelled in Dafny

`vite-plugin-top-level-await` makes a bundle whose chunks use top-level `await` run on targets that do not support it. Its core is five parts:

- It analyses the chunks of a bundle as a whole. It records which chunk imports which, classifies each chunk by itself (top-level await, dynamic import, or neither), and propagates "has top-level await" backwards along the import edges. This decides which chunks must be rewritten.
- It rewrites each such chunk into a deferred form:
  - Every top-level statement moves into an async closure.
  - Exported bindings are hoisted to `let` declarations at the top level.
  - The closure is chained after the completion promises of the imported chunks that are rewritten too.
  - When the chunk exports names or is imported by another chunk, it exports its own completion promise. An entry chunk that exports nothing runs the promise as a bare statement instead.
- It resolves an import specifier against the importing chunk's name. The result is `null` only for a specifier that names another origin, such as a URL with a host of its own; every other specifier becomes a normalised path. A path that names no chunk of the bundle stays in the chunk's import list, and the bundle analysis warns about it and records no importer for it.
- It collects the names a destructuring pattern binds.
- It provides a set of small syntax-node builders.

The Dafny project models that core:

| file | module | models |
|---|---|---|
| `wrappers.dfy` | `Wrappers` | `Option`, and `Result` for the errors the source throws |
| `errors.dfy` | `Errors` | the "unexpected node" error of `src/utils/error.ts` |
| `syntax.dfy` | `Syntax` | the part of the SWC module tree the core reads and writes, plus a generic scan tree for the classifier |
| `resolve_import.dfy` | `ResolveImport` | `isRelativeUrl` and `resolveImport`, with POSIX `path.dirname`/`path.join`/`path.normalize` |
| `resolve_pattern.dfy` | `ResolvePattern` | `resolvePattern` |
| `find.dfy` | `Find` | `FindPatternsVisitor` as a class with its two fields, and `findHighestPattern` |
| `make_node.dfy` | `MakeNode` | the node builders |
| `bundle_info.dfy` | `BundleInfo` | `parseBundleInfo`: the forward pass, the reverse edges and the breadth-first propagation |
| `transform.dfy` | `Transform` | the four-argument `transformModule` |

The modelling follows the source's form:

- **Pure code stays pure.** Resolution, the builders and pattern resolution are functions with lemmas.
- **The classifier is a class.** Its `Visit` method updates `currentLevel` and `foundDynamicImport` as the hooked visitor does. It is proved to compute a recursive specification (`HasTla`, `HasDynamicImport`).
- **`parseBundleInfo` is a method.** Its loops update a map of chunk records and a work queue. It is proved to produce:
  - the resolved imports;
  - the reverse edges, with their multiplicities;
  - exactly the chunks from which some chain of imports reaches a chunk with top-level await.
- **`transformModule` has two halves.**
  - `Transformed` is its specification as one pure function.
  - `TransformModule` is the method that threads the promise imports through the counting loop and puts the promise name into the export map. It is proved equal to `Transformed`.
  - The lemmas about `Transformed` state what the rewritten chunk guarantees.

The options (`promiseExportName`, `promiseImportName`) are parameters: `exportName: string` and `importName: nat -> string`.

## Model

| member | source | states |
|---|---|---|
| `Syntax.ImportsOf` | src/transform.ts:26 | an item is selected exactly when it is an import declaration of the body; no more items than the body holds |
| `Syntax.ImportsOfAppend` | src/transform.ts:26 | the imports of a concatenation are the imports of the first part followed by those of the second, so the body's order is kept |
| `Syntax.ImportsOfKeepsImports` | src/transform.ts:26 | a body made only of imports is selected whole, repeated declarations included |
| `ResolveImport.SchemeColon` | src/utils/resolve-import.ts:3-7 | a scheme found by the URL parser starts with a letter, is made of scheme characters and ends at a colon inside the string |
| `ResolveImport.SchemeColonFinds` | src/utils/resolve-import.ts:3-7 | conversely, a letter followed by scheme characters and a colon is always found as a scheme ending at that colon |
| `ResolveImport.Dirname` | src/utils/resolve-import.ts:11 | the directory of a path is never empty and is either `.` or a prefix of the path |
| `ResolveImport.DirnameLastSeparator` | src/utils/resolve-import.ts:11 | the directory is the text before the slash that separates the last name (`//` when that slash is the second of two leading ones); without such a slash it is `/` for a rooted path and `.` otherwise |
| `ResolveImport.DirnameExamples` | src/utils/resolve-import.ts:11 | `a/b` gives `a`, `a//b` gives `a/`, `/a/b/` gives `/a`, `//a` gives `//`, `/a` gives `/` and `a` gives `.` |
| `ResolveImport.Split` | src/utils/resolve-import.ts:11 | splitting a path at `/` gives at least one segment, none containing `/` |
| `ResolveImport.JoinSplit` | src/utils/resolve-import.ts:11 | joining the segments of a path with `/` gives the path back, so splitting loses nothing |
| `ResolveImport.Collapse` | src/utils/resolve-import.ts:11 | collapsing `.`, `..` and empty segments leaves a clean stack: no empty or `.` segment, `..` only as leading segments, and none at all above an absolute root |
| `ResolveImport.CollapseStep` | src/utils/resolve-import.ts:11 | one segment at a time: an empty segment or `.` changes nothing, `..` pops the last name off the stack (or is kept when there is no name to pop, except above an absolute root), and any other segment is pushed |
| `ResolveImport.CollapsePop` | src/utils/resolve-import.ts:11 | a name followed by `..` cancels out, leaving the stack as it was before the name |
| `ResolveImport.Resolve` | src/utils/resolve-import.ts:9-12 | the result is `null` exactly when the specifier is not relative to the importer's origin; otherwise it is `path.join(path.dirname(base), imported)`, a non-empty path that normalisation leaves unchanged and that is in normal form |
| `ResolveImport.SplitJoin` | src/utils/resolve-import.ts:11 | joining segments with `/` and splitting again gives the segments back |
| `ResolveImport.CollapseAppend` | src/utils/resolve-import.ts:11 | collapsing a concatenation is collapsing the first part, then the second |
| `ResolveImport.CollapseOfClean` | src/utils/resolve-import.ts:11 | collapsing segments that are already clean keeps them unchanged |
| `ResolveImport.NormalizeIdempotent` | src/utils/resolve-import.ts:11 | normalising twice is normalising once |
| `ResolveImport.SpecialFormsFixpoint` | src/utils/resolve-import.ts:11 | `/`, `./` and `.` are their own normal forms |
| `ResolveImport.NormalFormSplit` | src/utils/resolve-import.ts:11 | a path assembled from clean segments, an optional root and an optional trailing slash splits back into exactly those parts |
| `ResolveImport.CollapseNormalForm` | src/utils/resolve-import.ts:11 | collapsing such a split path gives its clean segments back |
| `ResolveImport.NormalFormFixpoint` | src/utils/resolve-import.ts:11 | every path in normal form is a fixpoint of normalisation |
| `ResolveImport.NormalizeInNormalForm` | src/utils/resolve-import.ts:11 | normalisation always produces a path in normal form |
| `ResolveImport.PathJoinIsNormal` | src/utils/resolve-import.ts:11 | a joined path is already normalised |
| `ResolveImport.PathJoinInNormalForm` | src/utils/resolve-import.ts:11 | a joined path is in normal form |
| `ResolveImport.NormalizeCancels` | src/utils/resolve-import.ts:11 | for plain names `a` and `b`, `a/../b` normalises to `b` |
| `ResolveImport.NormalizePopExample` | src/utils/resolve-import.ts:11 | `a/../b` normalises to `b` |
| `ResolveImport.ResolveBySegments` | src/utils/resolve-import.ts:9-12 | when the importer's directory, a slash and a relative specifier spell out a list of segments, the result is that list collapsed and joined with `/` |
| `ResolveImport.ResolveDown` | src/utils/resolve-import.ts:9-12 | from a chunk whose directory is a clean relative path `d`, `./n` resolves to `d/n` |
| `ResolveImport.ResolveUp` | src/utils/resolve-import.ts:9-12 | from a chunk whose directory is `p/e` (with `e` not `..`), `../n` resolves to `p/n`, and to `n` when the directory is the single name `e` |
| `ResolveImport.ResolveUpOneLevel` | src/utils/resolve-import.ts:9-12 | from a chunk in directory `a/b`, `../n` resolves to `a/n` |
| `ResolveImport.ResolveBare` | src/utils/resolve-import.ts:9-12 | from a chunk whose directory is `d`, a bare relative name `n` resolves to `d/n` |
| `ResolveImport.ResolveDownFromTop` | src/utils/resolve-import.ts:9-12 | from a chunk at the top level (directory `.`), `./n` resolves to `n` |
| `ResolveImport.ResolveBareFromTop` | src/utils/resolve-import.ts:9-12 | from a chunk at the top level, a bare relative name `n` resolves to `n` |
| `ResolveImport.ResolveUpFromTop` | src/utils/resolve-import.ts:9-12 | from a chunk at the top level, `../n` resolves to `../n` |
| `ResolveImport.ResolveDownExample` | src/utils/resolve-import.ts:9-12 | from chunk `d/x`, `./n` resolves to `d/n` |
| `ResolveImport.ResolveUpExample` | src/utils/resolve-import.ts:9-12 | from chunk `d/e/x`, `../n` resolves to `d/n` |
| `ResolveImport.ResolveSiblingExamples` | src/transform.spec.ts:41-49 | from chunk `a`, both `./b` and `b` name chunk `b` |
| `ResolveImport.ResolveExternalExample` | src/utils/resolve-import.ts:9-10 | an absolute `https` URL on another host is outside the bundle (`null`) |
| `ResolveImport.ResolveBareNameExample` | src/bundle-info.spec.ts:12 | a bare name resolves to a sibling chunk of that name, as a relative URL does |
| `ResolvePattern.FlatMap` | src/utils/resolve-pattern.ts:9-26 | flattening the per-part results succeeds exactly when every part succeeds |
| `ResolvePattern.FlatMapNames` | src/utils/resolve-pattern.ts:9-26 | the flattened names are exactly the names of the parts |
| `ResolvePattern.FlatMapOrder` | src/utils/resolve-pattern.ts:9-26 | flattening preserves order across concatenation |
| `ResolvePattern.ResolveSucceedsIff` | src/utils/resolve-pattern.ts:4-33 | resolution fails exactly when the pattern contains a node kind the source rejects: an expression target, a rest pattern outside an object or array pattern, an invalid pattern, or an array hole |
| `ResolvePattern.PropertySucceedsIff` | src/utils/resolve-pattern.ts:9-18 | the same for one object-pattern property |
| `ResolvePattern.ElementSucceedsIff` | src/utils/resolve-pattern.ts:20-26 | the same for one array-pattern element |
| `ResolvePattern.ResolveBindsExactly` | src/utils/resolve-pattern.ts:4-33 | a resolved pattern yields exactly the identifiers it binds, through renaming, defaults, rest and nesting |
| `ResolvePattern.PropertyBindsExactly` | src/utils/resolve-pattern.ts:11-16 | the same for one object-pattern property: shorthand key, rest argument or value pattern |
| `ResolvePattern.ElementBindsExactly` | src/utils/resolve-pattern.ts:21-25 | the same for one array-pattern element, a rest element binding its argument |
| `ResolvePattern.ArrayNamesInOrder` | src/utils/resolve-pattern.ts:19-26 | the names of an array pattern come in element order |
| `ResolvePattern.NestedObjectExample` | src/transform.spec.ts:205-212 | the nested object pattern with defaults and rest binds `x`, `y`, `z`, `w` in that order |
| `Find.NoTlaBelowTopLevel` | src/find.ts:39-49 | below any enclosing function boundary no await or for-await counts |
| `Find.BoundaryHidesAwaitAt` | src/find.ts:19-36 | a class, arrow function, function or method property never holds a top-level await, whatever it contains and at whatever depth it is visited |
| `Find.RootHolds` | src/find.ts:64-71 | a module has top-level await (a dynamic import) exactly when one of its items does |
| `Find.OrderIndependent` | src/find.ts:62-78 | the pattern found depends only on which items the module holds, not on their order |
| `Find.FindPatternsVisitor.constructor` | src/find.ts:9-12 | a new visitor has found nothing and stands at level 0 |
| `Find.FindPatternsVisitor.Visit` | src/find.ts:19-54 | visiting reports top-level await exactly when the node has an await or for-await at depth 0 from the current level; otherwise it restores the level and adds to the dynamic-import flag exactly the node's dynamic imports |
| `Find.FindHighestPattern` | src/find.ts:64-78 | the result is top-level await when the module has one, else dynamic import when it has one, else none |
| `Find.AwaitInBlocksIsTopLevel` | src/find.spec.ts:61-72 | an await nested in blocks and loops, but in no function, is top-level |
| `Find.ForOfExamples` | src/find.spec.ts:39-59 | a top-level `for await` blocks the module and a plain `for of` does not |
| `Find.DynamicImportInFunction` | src/find.spec.ts:109-118 | a dynamic import inside a function is found |
| `MakeNode.MakeVariablesDeclaration` | src/utils/make-node.ts:17-33 | `null` exactly for no names; otherwise one `let` declarator per name, in order, without initialiser |
| `MakeNode.MakeVariableInitDeclaration` | src/utils/make-node.ts:35-51 | a `let` with the one declarator `name = value` |
| `MakeNode.MakeAssignmentStatement` | src/utils/make-node.ts:71-76 | an assignment statement of `right` to `left`, parenthesised exactly when `left` is an object pattern |
| `MakeNode.MakeImportSpecifier` | src/utils/make-node.ts:78-85 | imports `name` under the local `alias`, writing the imported name only when the two differ |
| `MakeNode.MakeTryCatchStatement` | src/utils/make-node.ts:98-122 | a `try` over the given statements with a parameterless `catch` over the others and no `finally` |
| `MakeNode.MakeArrowFunction` | src/utils/make-node.ts:124-139 | a parameterless, non-generator arrow over the statements, async exactly when the flag is given and true |
| `MakeNode.MakeCallExpression` | src/utils/make-node.ts:149-164 | a call with the given (or no) arguments, whose callee is parenthesised exactly when it is a function or arrow expression |
| `MakeNode.MakeExportListDeclaration` | src/utils/make-node.ts:183-198 | one export specifier per pair, in order, exporting the local name under the key and naming the key only when the two differ |
| `BundleInfo.ResolvedImportsExactly` | src/bundle-info.ts:51-57 | a chunk's `imported` list holds exactly the in-bundle resolutions of its import declarations |
| `BundleInfo.ResolvedImportsAppend` | src/bundle-info.ts:51-57 | the targets of a concatenation are those of the first part followed by those of the second, so declaration order is kept |
| `BundleInfo.ResolvedImportsOfOne` | src/bundle-info.ts:51-57 | one declaration contributes its target exactly once when it resolves and nothing otherwise, so a chunk imported twice is listed twice |
| `BundleInfo.ImportersUpToExactly` | src/bundle-info.ts:46-70 | after the first k chunks, a chunk's importers are exactly those of the first k chunks that import it |
| `BundleInfo.EdgeSymmetry` | src/bundle-info.ts:60-70 | `c` is among the importers of `t` exactly when `t` is among the imports of `c` |
| `BundleInfo.ImportersMultiplicity` | src/bundle-info.ts:60-70 | each importer is listed as many times as it imports the chunk |
| `BundleInfo.ForwardPass` | src/bundle-info.ts:33-76 | after pass 1 every record holds the chunk's resolved imports, its importers in chunk order and its own classification (`withTopLevelAwait` for top-level await, `transformNeeded` for either pattern) |
| `BundleInfo.RecordChunk` | src/bundle-info.ts:47-75 | one step of pass 1: the chunk's own record is filled in, and every imported chunk present in the bundle gains the chunk as an importer once per import |
| `BundleInfo.AddReverseEdges` | src/bundle-info.ts:60-70 | each target in the bundle gains the importer once per import of it; records of other chunks and missing targets change nothing |
| `BundleInfo.ForwardPassMirrors` | src/bundle-info.ts:60-70 | after pass 1 the importer lists mirror the import lists and name only chunks of the bundle |
| `BundleInfo.FlaggedIn` | src/bundle-info.ts:79-81 | the initial queue is exactly the chunks flagged by pass 1, without repetition |
| `BundleInfo.Flag` | src/bundle-info.ts:90-91 | flagging a chunk sets both its flags and changes no other record |
| `BundleInfo.FlagKeepsInvariants` | src/bundle-info.ts:87-92 | flagging a chunk that reaches top-level await keeps the flags sound and the queue in step with the flags |
| `BundleInfo.EnqueueImporters` | src/bundle-info.ts:85-93 | after one chunk's importers are scanned, every importer is flagged, exactly the newly flagged ones are appended to the queue, and no flag is set wrongly or cleared |
| `BundleInfo.PropagateTla` | src/bundle-info.ts:78-94 | pass 2 flags exactly the chunks from which a chain of imports reaches a chunk with top-level await, sets `transformNeeded` for them, and leaves the edges alone |
| `BundleInfo.ParseBundleInfo` | src/bundle-info.ts:32-97 | one record per chunk, with its resolved imports and its importers; `withTopLevelAwait` exactly when a chain of imports reaches top-level await; `transformNeeded` exactly when the chunk has a pattern of its own or `withTopLevelAwait` holds |
| `BundleInfo.TlaReachesItself` | src/bundle-info.ts:79-81 | a chunk with top-level await reaches it |
| `BundleInfo.ImporterOfReaching` | src/bundle-info.ts:85-92 | an importer of a chunk that reaches top-level await reaches it too |
| `BundleInfo.ClosedSetHoldsReaching` | src/bundle-info.ts:78-94 | any set holding every top-level-await chunk and closed under importers holds every chunk that reaches one, so pass 2 misses none |
| `BundleInfo.ClosedSetReachesNothing` | src/bundle-info.ts:78-94 | from a set without top-level await that is closed under imports no chain reaches top-level await |
| `BundleInfo.EnqueuedBound` | src/bundle-info.ts:82-94 | no chunk is enqueued twice, so the queue receives at most one entry per chunk and pass 2 ends |
| `BundleInfo.ExampleLeavesDoNotReach` | src/bundle-info.spec.ts:66-89 | in the test graph, `c` and `i` need no transform |
| `BundleInfo.ExampleNeedsTransform` | src/bundle-info.spec.ts:66-89 | in the test graph, `f` and `h` have top-level await and `a`, `b`, `d` reach it |
| `BundleInfo.ExampleNeedsTransformFurther` | src/bundle-info.spec.ts:66-89 | in the test graph, `e` and `g` reach top-level await |
| `Transform.SpecifierError` | src/transform.ts:42-47 | no error exactly when every specifier is a plain export specifier; otherwise the error names the first other one |
| `Transform.ItemError` | src/transform.ts:30-51 | an item passes exactly when it is an import, a statement, or a named export list of plain specifiers |
| `Transform.ExportsError` | src/transform.ts:30-52 | no error exactly when every item passes; otherwise the error is that of the first failing item |
| `Transform.Put` | src/transform.ts:211 | setting a key keeps the key order, appending the key only when it is new; the key then maps to the value and every other entry is unchanged |
| `Transform.FromEntriesKeys` | src/transform.ts:54-58 | the export map's keys are the exported names in order of first occurrence |
| `Transform.FromEntriesLastWins` | src/transform.ts:54-58 | the last entry for a key decides its value |
| `Transform.FromEntriesFrom` | src/transform.ts:54-58 | every entry of the map comes from the export lists |
| `Transform.ExportEntriesHold` | src/transform.ts:54-57 | every specifier of every export list contributes its exported name and local name |
| `Transform.ExportMapProperties` | src/transform.ts:54-60 | the export map has each exported name once, covers every exported name, and takes its local names from the export lists |
| `Transform.Select` | src/transform.ts:95-96 | a name is selected exactly when it is declared and its being exported matches the request |
| `Transform.SelectAppend` | src/transform.ts:95-96 | selecting from a concatenation selects from each part in turn, so declaration order is kept |
| `Transform.SelectKeepsAll` | src/transform.ts:95-96 | names that all qualify are selected whole, repetitions included (`var a = 1, a = 2` keeps both) |
| `Transform.Initialised` | src/transform.ts:102-103 | a declarator is kept exactly when it has an initialiser |
| `Transform.InitialisedAppend` | src/transform.ts:102-103 | the filter of a concatenation is the filter of each part in turn, so declarator order is kept |
| `Transform.InitialisedKeepsAll` | src/transform.ts:102-103 | declarators that all have an initialiser are kept whole |
| `Transform.TopLevelStatements` | src/transform.ts:87-90 | a statement is kept exactly when it is an item of the body; no more statements than items |
| `Transform.TopLevelStatementsAppend` | src/transform.ts:87-90 | the statements of a concatenation are those of each part in turn, so the body's order is kept |
| `Transform.InitAssignments` | src/transform.ts:102-104 | one assignment of the initialiser to the declarator's pattern per initialised declarator, in order |
| `Transform.RewriteStatements` | src/transform.ts:92-129 | rewriting succeeds exactly when every statement rewrites |
| `Transform.RewriteSucceedsIff` | src/transform.ts:93-94 | a statement fails to rewrite exactly when a declarator's pattern is not supported |
| `Transform.RewriteKeepsUnexported` | src/transform.ts:92-128 | a statement that declares no exported name is kept as it is |
| `Transform.LetDeclares` | src/transform.ts:91 | the hoisted `let` declares exactly the given names, in order |
| `Transform.RewriteExportedDeclaration` | src/transform.ts:93-109 | a declaration with an exported name becomes a `let` of exactly its unexported names (omitted when there are none) followed by the assignments of its initialisers |
| `Transform.RewriteExportedFunctionOrClass` | src/transform.ts:110-125 | an exported function or class declaration becomes one unparenthesised assignment of the same function or class, as an expression, to its name |
| `Transform.RewriteStatementsFlatMap` | src/transform.ts:92-129 | rewriting the statement list is a `flatMap` of the per-statement rewriting that stops at the first error |
| `Transform.RewriteStatementsAppend` | src/transform.ts:92-129 | statements are rewritten one by one, in order |
| `Transform.RewriteWithoutExports` | src/transform.ts:92-129 | with nothing exported, rewriting returns the supported statements unchanged |
| `Transform.WithPromise` | src/transform.ts:157-159 | the import keeps its source and specifiers and gains one last specifier importing the promise export under the given local name |
| `Transform.ThreadImport` | src/transform.ts:153-161 | one turn of the loop: an import gains the promise specifier exactly when its target resolves inside the bundle to a transformed chunk, and any other item is kept |
| `Transform.ThreadPromiseImports` | src/transform.ts:151-162 | the loop's imports and counter equal the specification: each import of a transformed chunk gains a promise specifier numbered by the count of such imports before it |
| `Transform.PromiseNumbersIncrease` | src/transform.ts:151-162 | promise numbers strictly increase along the imports, so no two imports share a local promise name |
| `Transform.PromiseNumbersCover` | src/transform.ts:151-175 | the numbers used are exactly 0 up to the final count, which is what the promise array refers to |
| `Transform.ThreadedChanges` | src/transform.ts:152-161 | an import changes only when its target is transformed, and then only by the appended promise specifier |
| `Transform.ThreadedImports` | src/transform.ts:157-159 | import declarations stay import declarations |
| `Transform.TryReturn` | src/transform.ts:169-173 | an immediately called, non-async arrow whose body is `try { return name } catch {}` |
| `Transform.PromiseArray` | src/transform.ts:164-175 | none exactly for no promises; otherwise one guarded read per promise, the i-th reading promise i |
| `Transform.PromiseExpression` | src/transform.ts:177-189 | without promises the wrapped async closure is called at once; otherwise it is passed to `then` on `Promise.all` of the array |
| `Transform.TransformModule` | src/transform.ts:24-222 | the method computes exactly the specification `Transformed`, including its errors |
| `Transform.TransformedSucceedsIff` | src/transform.ts:30-52 | the transform fails exactly when an export is unsupported or a declared pattern is unsupported; export errors are reported as raised |
| `Transform.TransformedLayout` | src/transform.ts:206-219 | the new body is the threaded imports, then the hoisted `let` of the exported local names when there are any, then either the `let` binding `exportName` to the chunk's promise expression followed by the export list (when something is exported or the chunk is imported), or the promise expression as a bare statement |
| `Transform.TransformedExports` | src/transform.ts:211-213 | when the chunk exports, the final export list names each export once, in order of first appearance, with `exportName` last unless the chunk already exported that name; every original exported name stays bound to the local name of its last specifier, `exportName` is bound to the promise (replacing an original binding of that name), and only hoisted names or the promise are referred to |
| `Transform.ExportListFromMap` | src/transform.ts:53-57 | for any list of export pairs, `Object.fromEntries` followed by the assignment of `exportName` and `makeExportListDeclaration` gives a list with exactly those properties: names in first-appearance order then `exportName` if new, last-pair bindings kept, `exportName` bound to itself |
| `Transform.PromiseHasNoTla` | src/transform.ts:177-189 | the promise expression contains no top-level await |
| `Transform.NewTopLevelHasNoTla` | src/transform.ts:206-219 | a body assembled from imports, hoisted names and an await-free promise has no top-level await |
| `Transform.TransformedHasNoTla` | src/transform.ts:177-219 | a transformed chunk no longer blocks on top-level await: the classifier finds none in it |

## Left out

- ImportsOf (`Syntax.ImportsOf`): its contract states which items are kept. Order and repetitions are stated by `Syntax.ImportsOfAppend` and `Syntax.ImportsOfKeepsImports`.
- Select (`Transform.Select`): its contract states which names are kept. Order and repetitions are stated by `Transform.SelectAppend` and `Transform.SelectKeepsAll`.
- Initialised (`Transform.Initialised`): its contract states which declarators are kept. Order is stated by `Transform.InitialisedAppend` and `Transform.InitialisedKeepsAll`.
- TopLevelStatements (`Transform.TopLevelStatements`): its contract states which statements are kept. Order is stated by `Transform.TopLevelStatementsAppend`.
- ResolvedImportsExactly (`BundleInfo.ResolvedImportsExactly`): states membership only. The order and the repetitions of the targets are stated by `BundleInfo.ResolvedImportsAppend` and `BundleInfo.ResolvedImportsOfOne`.
- Dirname (`ResolveImport.Dirname`): its own contract states only that the result is non-empty and is `.` or a prefix of the path. The full definition by position is `ResolveImport.DirnameLastSeparator`.
- Split (`ResolveImport.Split`): its own contract states the shape of the segments. That splitting loses nothing is `ResolveImport.JoinSplit`, and that it undoes joining is `ResolveImport.SplitJoin`.
- SchemeColon (`ResolveImport.SchemeColon`): its own contract states one direction. The converse is `ResolveImport.SchemeColonFinds`.
- `ResolveImport.IsRelativeUrl`: the source parses the specifier with the `URL` constructor against a base with a random origin. The model decides "same origin" by the URL parser's scheme and authority rules. A specifier is bundle-internal when it has no scheme or the scheme `https`, and in either case does not start an authority with `//` (or `\\`). This is an approximation in three ways:
  - It does not model the full parser: host parsing, percent-decoding, or tab and newline stripping.
  - It does not model the `URL` exceptions that some specifiers throw.
  - The random origin is not a parameter. A specifier naming exactly the random host is treated as external.
- `ResolveImport.Resolve`: only POSIX `path` semantics are modelled, not Windows paths.
- Parsing and printing with SWC, the bundle orchestration (`src/index.ts`), the esbuild and SWC shims (`src/esbuild.ts`, `src/swc.js`) and the random identifier helper are not part of this model.
- The `console.warn` for an import of a chunk that is not in the bundle is I/O and is left out. The edge is still dropped, as in the source.
- `BundleInfo.ParseBundleInfo`: the bundle's chunk names come as a sequence with distinct names that equal its keys.
  - This is the key order of a JavaScript object. The model does not reorder integer-like keys first, as JavaScript does.
  - Prototype keys such as `__proto__` are not modelled.
  - The records start empty instead of with `null` fields, because nothing reads those fields before pass 1 sets them.
- `Transform.TransformModule`: two keys of the bundle information are preconditions.
  - `moduleName in info`: the only caller reads `bundleInfo[moduleName]` before it calls the transformer (src/index.ts:88). The transformer itself reads it only for a chunk that exports nothing (src/transform.ts:208).
  - `TargetsKnown`: src/transform.ts:156 reads `bundleInfo[...]` for every import whose specifier resolves. A resolved target that is not in the bundle would crash there, so the model demands that every resolved target is a key.
- `Transform.Transformed`: the export map is a JavaScript object, modelled as an ordered list of distinct keys. Key reordering of integer-like keys and prototype keys are not modelled.
- In-place mutation is modelled on values in two places:
  - The transformer pushes promise specifiers onto the import declarations in place, and those declarations are also the items of the input tree. The model returns new import items and does not model the mutation of the input module.
  - The chunk records of `parseBundleInfo` are never shared between chunks. They live in a map that each step replaces, so aliasing is not modelled.
- `Find.FindPatternsVisitor.Visit`: the source ends the traversal by throwing an exception when it finds top-level await. The model returns that as a flag, and the level and dynamic-import flag it leaves behind in that case are not stated. The model keeps the early return of src/find.ts:24, which skips function-like nodes once a dynamic import is known.
- Array holes in a destructuring pattern make the source's `resolvePattern` read a property of `null`. Lines 20-21 of src/utils/resolve-pattern.ts read `elem.type` of every element, so an elided element throws. The model reports this as the error value `HoleTypeError` instead of a crash.
- `export { x } from "m"` lists are treated like local export lists, as the code treats them. SWC bookkeeping fields (spans, type annotations, `ctxt`) are not part of the syntax tree.
- Behaviour that only the larger tests of `src/transform.spec.ts` assert (lines 240-443) through printed output is not modelled beyond the lemmas above.
- The node builders `makeStatement`, `makeAssignmentExpression`, `makeParenthesisExpression`, `makeArrayExpression`, `makeReturnStatement` and `makeMemberExpression` only fill bookkeeping fields around their argument. They are plain constructors here and state nothing of their own.
