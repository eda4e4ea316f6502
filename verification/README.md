# fuzz-introspector C++ front end, modelled in Dafny

This project models the C++ front end of fuzz-introspector,
`src/fuzz_introspector/frontends/frontend_cpp.py`. The front end works on
tree-sitter syntax trees of the C++ files of a project. It does the following:

- It walks each tree and records every function definition that is not nested
  inside another function definition, with the namespace it appears in
  (`SourceCodeFile`). The walk does not enter a function definition, so, for
  example, a method of a class local to a function body is not recorded.
- From each definition it extracts:
  - the signature text, the simple name and the namespace/class qualifier;
  - the return type and the parameters;
  - the 1-based start and end lines;
  - a branch-count "cyclomatic complexity" and a "statement" count (`FunctionDefinition`).
- It extracts the call sites of a body on demand, de-duplicated and ordered by
  source position, and derives the `Src`/`Dst` "detailed" call sites from them.
- Over the whole project (`Project`), it:
  - finds the one file that defines a name;
  - counts the functions that call a name;
  - measures call depth with a shared visited list;
  - prints indented call trees with a shared visited set;
  - builds the project report and the name -> function dictionary `all_functions`.
- It provides a module-level fuzzy lookup, `get_function_node`, which resolves a
  name against that dictionary by exact key, then by `::`-aligned suffixes.

The syntax tree is an input value (`Syntax.Node`). A node has:

- a kind and its text;
- a named flag;
- its ordered children;
- its named fields, stored as child indices;
- its 0-based start and end rows;
- its end byte.

Code that builds and updates objects is modelled as classes. `SourceCodeFile`
appends to `funcDefs`. `FunctionDefinition` fills `baseCallsites` and
`detailedCallsites` in place. `Project` sets `allFunctions`. The step-by-step code
(the tree walk, the namespace loop, the parameter loops, the scans, the counting
loops, the report loop) is written as methods. Each method is proved equal to a
recursive specification function. The properties are then proved about those
functions.

A Python dict is modelled as an insertion-ordered association list with
distinct keys (`FunctionMaps.FunctionMap`). Assigning to an existing key keeps
its position and replaces its value.

Where the code and its documented intent differ, the model follows the code:

- In `_process_field_expr_return_type`, the receiver of a chained call
  contributes the inner call's full name, not its return type. The first
  component of the inner result is discarded at line 316.
- `_process_invoke` records a member call twice, as the same triple. Both
  entries sit at the callee node's end byte and row, at lines 294-299. The
  `set` at line 360 then keeps one.

## Model

| member | source | states |
|---|---|---|
| Strings.ContainsIsSubstring | src/fuzz_introspector/frontends/frontend_cpp.py:189 | Python's `p in s` holds exactly when `p` occurs at some position of `s` |
| Strings.FindSepFrom | src/fuzz_introspector/frontends/frontend_cpp.py:656-658 | the position found is a `::` at or after the start and no earlier one exists; none is found only when there is none |
| Strings.FindLastSep | src/fuzz_introspector/frontends/frontend_cpp.py:190 | the position found is the last `::` of the string; none is found only when the string has no `::` |
| Strings.Split | src/fuzz_introspector/frontends/frontend_cpp.py:658 | `split('::')` always yields at least one part |
| Strings.SplitOnce | src/fuzz_introspector/frontends/frontend_cpp.py:656 | `split('::', 1)` yields one or two parts |
| Strings.JoinSplit | src/fuzz_introspector/frontends/frontend_cpp.py:658-661 | re-joining the parts of `split('::')` with `::` gives back the original string |
| Strings.JoinSplitOnce | src/fuzz_introspector/frontends/frontend_cpp.py:656-661 | re-joining the parts of `split('::', 1)` gives back the original string |
| Strings.SplitTailIsSuffix | src/fuzz_introspector/frontends/frontend_cpp.py:658-661 | every trailing group of `split('::')` parts, re-joined, is a suffix of the target |
| Strings.SplitOnceTailIsSuffix | src/fuzz_introspector/frontends/frontend_cpp.py:656-661 | the same for the parts of `split('::', 1)` |
| Strings.Repeat | src/fuzz_introspector/frontends/frontend_cpp.py:226 | `s * n` has length `n` times the length of `s` |
| Strings.ParseNatToString | src/fuzz_introspector/frontends/frontend_cpp.py:365 | `'%d' % n` can be read back: the decimal digits denote `n` |
| Syntax.Field | src/fuzz_introspector/frontends/frontend_cpp.py:170 | `child_by_field_name` returns one of the node's own children, and returns one exactly when the field names an existing child |
| Metrics.CountMatchingIsPreorderCount | src/fuzz_introspector/frontends/frontend_cpp.py:246-267 | the recursive complexity/statement count equals the number of matching nodes in the whole subtree, root included, each node counted once |
| Metrics.CountChildrenIsPreorderCount | src/fuzz_introspector/frontends/frontend_cpp.py:250-251 | the sum over the first `k` children equals the matching nodes of their subtrees |
| Metrics.CountChildrenOfSeq | src/fuzz_introspector/frontends/frontend_cpp.py:250-251 | the count over children depends on nothing but the children |
| Metrics.InsertChildAddsItsCount | src/fuzz_introspector/frontends/frontend_cpp.py:246-254 | inserting one more child subtree anywhere raises the count by exactly that subtree's count |
| Metrics.InsertedChildren | src/fuzz_introspector/frontends/frontend_cpp.py:250-251 | the sum over children after an insertion is the old sum plus the inserted subtree's count |
| Metrics.CountKindsAppend | src/fuzz_introspector/frontends/frontend_cpp.py:250-251 | counting matching nodes distributes over concatenation |
| Signatures.ScanIsLastCandidate | src/fuzz_introspector/frontends/frontend_cpp.py:173-186 | the name found is the LAST identifier-like child of the declarator or of its nested function declarator ("" if none); the parameter list is the last one found at either level |
| Signatures.ScanInnerIsLastCandidate | src/fuzz_introspector/frontends/frontend_cpp.py:178-183 | inside a nested function declarator the last identifier-like child and the last parameter list win |
| Signatures.ContainsSeparator | src/fuzz_introspector/frontends/frontend_cpp.py:189-190 | `'::' in name` holds exactly when `rsplit` finds a separator |
| Signatures.SplitQualified | src/fuzz_introspector/frontends/frontend_cpp.py:189-194 | a name without `::` keeps the enclosing qualifier; otherwise the split is at the LAST `::` of the name, the simple name `n` is what follows it, and the qualifier is `enclosing::p` for the part `p` before it when both are non-empty, else `p` |
| Signatures.SplitNameHasNoSeparator | src/fuzz_introspector/frontends/frontend_cpp.py:189-190 | after the split the simple name never contains `::` |
| Signatures.NothingAfterLastSep | src/fuzz_introspector/frontends/frontend_cpp.py:190 | past the last `::` of a string no further `::` occurs |
| Signatures.SplitQualifiedLastExample | src/fuzz_introspector/frontends/frontend_cpp.py:189-194 | `a:::b` is split at its last `::`, into qualifier `a:` and name `b` |
| Signatures.SplitQualifiedExample | src/fuzz_introspector/frontends/frontend_cpp.py:189-194 | `a::b::f` is `f` in `a::b` at top level, and `f` in `ns::a::b` inside `ns` |
| Signatures.ParamsCountKept | src/fuzz_introspector/frontends/frontend_cpp.py:204-211 | exactly one parameter is recorded per parameter declaration that has both a type and a declarator field; every other child is skipped |
| Signatures.ParamTypeExamples | src/fuzz_introspector/frontends/frontend_cpp.py:204-228 | on concrete syntax nodes, the parameter `int **x` (two nested `pointer_declarator` nodes) is kept as name `x` with type `int**`, and `char buf[10]` (an `array_declarator`) as name `buf` with type `char[]` |
| Signatures.StripPointersNest | src/fuzz_introspector/frontends/frontend_cpp.py:212-216 | `k` nested `pointer_declarator` wrappers around a non-pointer declarator are counted as `k` pointers, ending at that declarator |
| Signatures.StripArraysNest | src/fuzz_introspector/frontends/frontend_cpp.py:218-222 | `k` nested `array_declarator` wrappers around a non-array declarator are counted as `k` arrays, ending at that declarator |
| Signatures.ParamOfWrapped | src/fuzz_introspector/frontends/frontend_cpp.py:204-228 | a declaration whose declarator is `p` pointer wrappers around `a` array wrappers around a name is kept with that name and the type text followed by `p` times `*` and `a` times `[]` |
| Signatures.SignatureProperties | src/fuzz_introspector/frontends/frontend_cpp.py:167-228 | every extracted signature has a name without `::`, as many argument names as types (one per kept parameter), and return type `void` when the node has no type field |
| Signatures.StripDeclarator | src/fuzz_introspector/frontends/frontend_cpp.py:213-223 | the two `while` loops count the pointer wrappers, then the array wrappers, and end at the innermost declarator |
| Signatures.ExtractParams | src/fuzz_introspector/frontends/frontend_cpp.py:204-228 | the parameter loop yields equally long name and type lists, those of the kept parameters in order |
| Signatures.ExtractParam | src/fuzz_introspector/frontends/frontend_cpp.py:205-228 | one turn keeps a parameter exactly when it is a declaration with type and declarator, with its stripped name and its `*`/`[]`-suffixed type |
| Signatures.FindNameAndParams | src/fuzz_introspector/frontends/frontend_cpp.py:170-186 | the nested loops over the declarator compute the scan whose result `ScanIsLastCandidate` characterises |
| Signatures.ExtractInformation | src/fuzz_introspector/frontends/frontend_cpp.py:167-228 | the step-by-step extraction yields the signature specified by name scan, qualified split, return type and parameters |
| FunctionMaps.IndexOfKey | src/fuzz_introspector/frontends/frontend_cpp.py:650 | a key position found is a position of the dictionary |
| FunctionMaps.IndexOfKeyProperties | src/fuzz_introspector/frontends/frontend_cpp.py:650-651 | the position found holds the key and no earlier one does; none is found only when no entry has the key |
| FunctionMaps.PutProperties | src/fuzz_introspector/frontends/frontend_cpp.py:402 | after `m[k] = v`: `k` maps to `v`, every other key is unchanged, keys stay distinct, existing keys keep their positions and at most one entry is added |
| FunctionMaps.PutAllLastWriteWins | src/fuzz_introspector/frontends/frontend_cpp.py:397-402 | after `update(entries)` each key maps to its last written value, unnamed keys are untouched, keys stay distinct and keep their positions |
| FunctionMaps.LookupUnique | src/fuzz_introspector/frontends/frontend_cpp.py:650-651 | with distinct keys, looking up an entry's key finds that entry |
| FunctionMaps.PutAllKeysUnique | src/fuzz_introspector/frontends/frontend_cpp.py:402 | `update` keeps the keys distinct |
| FunctionMaps.PutAllEntriesFrom | src/fuzz_introspector/frontends/frontend_cpp.py:397-402 | every entry after `update` was in the dictionary or among the new entries |
| FunctionMaps.SuffixSearch | src/fuzz_introspector/frontends/frontend_cpp.py:659-662 | a position found by the suffix scan is a position of the dictionary |
| FunctionMaps.FirstEndingWith | src/fuzz_introspector/frontends/frontend_cpp.py:660-662 | the position found is the first key ending with the suffix; none is found only when no key ends with it |
| FunctionMaps.Resolve | src/fuzz_introspector/frontends/frontend_cpp.py:643-664 | the entry `get_function_node` returns is one of the dictionary's |
| FunctionMaps.SuffixSearchSound | src/fuzz_introspector/frontends/frontend_cpp.py:659-664 | a hit ends with some re-joined trailing group of segments; more precisely it is the FIRST key, in dictionary order, ending with the first group (from the start count upwards) that any key ends with; the scan fails exactly when no key ends with any group |
| FunctionMaps.JoinTailEndsWithLast | src/fuzz_introspector/frontends/frontend_cpp.py:658-661 | every re-joined trailing group ends with the last segment |
| FunctionMaps.ResolveProperties | src/fuzz_introspector/frontends/frontend_cpp.py:643-664 | an exact key wins; any other hit is the first key in dictionary order ending with the longest `::`-aligned trailing part of the target that some key ends with (character-wise); the lookup never fails while a key ends with the whole target, and (without `one_layer_only`) fails exactly when no key ends with the target's last segment |
| FunctionMaps.TargetTailsAreSuffixes | src/fuzz_introspector/frontends/frontend_cpp.py:655-661 | every trailing group of the target's segments, re-joined with `::`, is a suffix of the target, for both splits |
| FunctionMaps.TargetJoinsBack | src/fuzz_introspector/frontends/frontend_cpp.py:655-659 | the first group tried (`count == 0`) is the whole target |
| FunctionMaps.ResolveFailsOnLastSegment | src/fuzz_introspector/frontends/frontend_cpp.py:643-664 | with `one_layer_only` off, the lookup fails exactly when no key ends with the target's last segment |
| FunctionMaps.GetFunctionNode | src/fuzz_introspector/frontends/frontend_cpp.py:643-664 | the exact check and the nested suffix loops return the value of the entry `Resolve` specifies |
| FunctionMaps.KeyPosition | src/fuzz_introspector/frontends/frontend_cpp.py:650-651 | the `in` test finds the key's position |
| FunctionMaps.SuffixPosition | src/fuzz_introspector/frontends/frontend_cpp.py:660-662 | the inner loop finds the first key ending with the suffix |
| FunctionMaps.SuffixMatchExample | src/fuzz_introspector/frontends/frontend_cpp.py:659-662 | `bar` resolves to the key `foobar`; `Foo::bar` falls back to the key `bar` |
| FunctionMaps.SuffixMatchLongestFirst | src/fuzz_introspector/frontends/frontend_cpp.py:659-662 | `b::a::g` over the keys `z::g`, `q::a::g` resolves to `q::a::g`: the longer tail `a::g` is tried before `g`, although `z::g` comes first |
| FunctionDefs.FunctionDefinition.constructor | src/fuzz_introspector/frontends/frontend_cpp.py:140-165 | a new definition holds the extracted signature, lines `row + 1`, the two metrics, and empty call-site lists |
| FunctionDefs.FunctionDefinition.ExtractCallsites | src/fuzz_introspector/frontends/frontend_cpp.py:355-366 | afterwards the call sites are the body's sorted de-duplicated sites and the detailed list derives from them; non-empty lists are never replaced, so a second call changes nothing |
| FunctionDefs.CollectCallsites | src/fuzz_introspector/frontends/frontend_cpp.py:355-358 | the loop over the function node's children gathers the body's call sites in document order |
| FunctionDefs.DetailedCallsites | src/fuzz_introspector/frontends/frontend_cpp.py:363-366 | one `{Src: file:line,1, Dst: name}` per stored call site, in the same order |
| FunctionDefs.FieldExprNameIgnoresMap | src/fuzz_introspector/frontends/frontend_cpp.py:303-332 | the full name of a member call does not depend on the function dictionary (only the unused return type does) |
| FunctionDefs.FieldExprNameExamples | src/fuzz_introspector/frontends/frontend_cpp.py:310-326 | an ordinary receiver gives the bare field name; `this` inside `C` gives `C::f`; `this` at top level gives the bare name |
| FunctionDefs.StmtSitesIgnoreMap | src/fuzz_introspector/frontends/frontend_cpp.py:334-353 | the call sites of a statement are independent of the dictionary |
| FunctionDefs.ChildSitesIgnoreMap | src/fuzz_introspector/frontends/frontend_cpp.py:350-353 | the same for the children of a node |
| FunctionDefs.BodySitesIgnoreMap | src/fuzz_introspector/frontends/frontend_cpp.py:355-358 | the call sites of a body are the same whatever dictionary is passed in |
| FunctionDefs.MemberCallRecordedTwice | src/fuzz_introspector/frontends/frontend_cpp.py:292-299 | a member call with a non-empty name contributes the same triple twice, so de-duplication leaves exactly one |
| FunctionDefs.InsertByEnd | src/fuzz_introspector/frontends/frontend_cpp.py:360 | insertion adds exactly one element |
| FunctionDefs.InsertByEndMembers | src/fuzz_introspector/frontends/frontend_cpp.py:360 | insertion adds the new element and keeps all others |
| FunctionDefs.InsertByEndSorted | src/fuzz_introspector/frontends/frontend_cpp.py:360 | insertion keeps the order by end byte |
| FunctionDefs.InsertByEndDistinct | src/fuzz_introspector/frontends/frontend_cpp.py:360 | inserting an absent element keeps the elements distinct |
| FunctionDefs.SortedSet | src/fuzz_introspector/frontends/frontend_cpp.py:360 | `sorted(set(callsites), key=end byte)`: ordered by end byte, each distinct triple once, exactly the triples of the input |
| FunctionDefs.Locations | src/fuzz_introspector/frontends/frontend_cpp.py:361 | each stored pair is the (name, line) of the triple at the same position |
| FunctionDefs.DistinctCard | src/fuzz_introspector/frontends/frontend_cpp.py:360 | a list without repeats has as many elements as its set |
| FunctionDefs.BaseCallsitesProperties | src/fuzz_introspector/frontends/frontend_cpp.py:355-361 | one stored entry per distinct triple; every stored entry comes from a call site of the body and every call site is stored |
| FunctionDefs.BaseCallsitesEmpty | src/fuzz_introspector/frontends/frontend_cpp.py:355-361 | whatever the order of ties, an empty result means a body without call sites |
| FunctionDefs.SrcLocationReadsBack | src/fuzz_introspector/frontends/frontend_cpp.py:365 | a detailed location is the file, a colon, the decimal line that reads back as the line, and `,1` |
| SourceCodeFiles.AppendQualifierJoins | src/fuzz_introspector/frontends/frontend_cpp.py:87-90 | at top level a namespace is its own name; inside `ns` it is `ns::name` |
| SourceCodeFiles.NestedNamespaceExample | src/fuzz_introspector/frontends/frontend_cpp.py:78-84 | `namespace a::b` at top level gives the namespace `a::b`, the anonymous `::` token being skipped |
| SourceCodeFiles.BuiltFromAppend | src/fuzz_introspector/frontends/frontend_cpp.py:97-98 | definitions built from two site lists concatenate |
| SourceCodeFiles.AppendedFromTrans | src/fuzz_introspector/frontends/frontend_cpp.py:65-71 | two successive appends are one append of the concatenated sites |
| SourceCodeFiles.TreeSitesAreFunctions | src/fuzz_introspector/frontends/frontend_cpp.py:63-71 | every site the walk records is a `function_definition` node |
| SourceCodeFiles.ChildrenSitesAreFunctions | src/fuzz_introspector/frontends/frontend_cpp.py:65-71 | the same for the sites of the first `k` children |
| SourceCodeFiles.TopLevelFunction | src/fuzz_introspector/frontends/frontend_cpp.py:63-67 | a function definition directly under the root is recorded in the global namespace |
| SourceCodeFiles.ChildrenSitesGrow | src/fuzz_introspector/frontends/frontend_cpp.py:65-71 | walking more children never loses a site |
| SourceCodeFiles.TreeSitesExactlyReached | src/fuzz_introspector/frontends/frontend_cpp.py:63-71 | a node is recorded by the walk (under some namespace) exactly when it is a function definition reached from the root: a child, or below a child that is not itself a function definition |
| SourceCodeFiles.ChildrenSitesExactlyReached | src/fuzz_introspector/frontends/frontend_cpp.py:65-71 | the same for the first `k` children: recorded exactly when reached through one of them |
| SourceCodeFiles.ChildSitesExactlyReached | src/fuzz_introspector/frontends/frontend_cpp.py:65-71 | one child contributes a node exactly when the node is that child and a function definition, or is reached inside a child that is not a function definition |
| SourceCodeFiles.NestedDefinitionExample | src/fuzz_introspector/frontends/frontend_cpp.py:63-71 | a definition inside a class body is recorded; the same definition inside another function definition is not |
| SourceCodeFiles.SourceCodeFile.constructor | src/fuzz_introspector/frontends/frontend_cpp.py:34-55 | a file with content holds one definition per site of the walk from the root, in document order, each built under the namespace in force (the sites are exactly the function-definition nodes not nested in another function definition, by `TreeSitesExactlyReached`); an empty file holds none; every definition is a new object with empty call-site lists |
| SourceCodeFiles.SourceCodeFile.ProcessTree | src/fuzz_introspector/frontends/frontend_cpp.py:63-71 | the walk appends the definitions of the sites under the node, in document order, and keeps the earlier ones; the appended definitions are new objects with empty call-site lists |
| SourceCodeFiles.SourceCodeFile.ProcessChild | src/fuzz_introspector/frontends/frontend_cpp.py:65-71 | one turn of the walk dispatches a child to the namespace handler, the function handler or the recursive walk, appending that child's definitions as new, unextracted objects and leaving the earlier ones in place |
| SourceCodeFiles.SourceCodeFile.ProcessNamespaceNode | src/fuzz_introspector/frontends/frontend_cpp.py:73-93 | a namespace's contents are appended under the namespace extended by its (possibly nested) name, as new objects with empty call-site lists |
| SourceCodeFiles.SourceCodeFile.ProcessFunctionNode | src/fuzz_introspector/frontends/frontend_cpp.py:95-98 | exactly one definition, built from the node under the namespace, is appended; it is a new object with empty call-site lists |
| SourceCodeFiles.SourceCodeFile.GetFunctionNode | src/fuzz_introspector/frontends/frontend_cpp.py:100-126 | the three scans return the definition `FindFunction` specifies |
| SourceCodeFiles.SourceCodeFile.Scan | src/fuzz_introspector/frontends/frontend_cpp.py:107-125 | each scan returns the first definition passing its test |
| SourceCodeFiles.SourceCodeFile.HasLibfuzzerHarness | src/fuzz_introspector/frontends/frontend_cpp.py:128-134 | true exactly when some definition's name contains `LLVMFuzzerTestOneInput` |
| SourceCodeFiles.FindFunction | src/fuzz_introspector/frontends/frontend_cpp.py:100-126 | a position found is a definition of the file |
| SourceCodeFiles.FirstMatching | src/fuzz_introspector/frontends/frontend_cpp.py:107-125 | a position found is a definition of the file |
| SourceCodeFiles.FirstMatchingProperties | src/fuzz_introspector/frontends/frontend_cpp.py:107-125 | the position found passes the test and none before it does; none is found only when none passes |
| SourceCodeFiles.FirstMatchingAt | src/fuzz_introspector/frontends/frontend_cpp.py:107-113 | the first definition passing the test is the one found |
| SourceCodeFiles.FindFunctionProperties | src/fuzz_introspector/frontends/frontend_cpp.py:100-126 | an exact lookup succeeds exactly when some qualified name is the target, finds the first such, and the fuzzy lookup finds the same; a fuzzy hit matches by qualified name, simple name or last segment, and the fuzzy lookup fails exactly when no definition matches in any of the three ways |
| Projects.DefsOf | src/fuzz_introspector/frontends/frontend_cpp.py:551-552 | one list of definitions per file, each that file's own |
| Projects.Lookups | src/fuzz_introspector/frontends/frontend_cpp.py:521-522 | one lookup result per file, each a position in that file |
| Projects.LookupsAt | src/fuzz_introspector/frontends/frontend_cpp.py:521-522 | the lookup of file `i` is that file's own `get_function_node` |
| Projects.MatchingFiles | src/fuzz_introspector/frontends/frontend_cpp.py:523-525 | every listed file had a successful lookup |
| Projects.MatchingFilesSorted | src/fuzz_introspector/frontends/frontend_cpp.py:521-525 | the files are listed in increasing order |
| Projects.MatchingFilesComplete | src/fuzz_introspector/frontends/frontend_cpp.py:521-525 | every file with a successful lookup is listed |
| Projects.Unique | src/fuzz_introspector/frontends/frontend_cpp.py:527-529 | the pair returned is a file and the position its lookup found |
| Projects.UniqueProperties | src/fuzz_introspector/frontends/frontend_cpp.py:527-529 | a pair is returned exactly when that file is the only one whose lookup succeeded |
| Projects.PassTracks | src/fuzz_introspector/frontends/frontend_cpp.py:519-525 | during a pass, the files collected are the matching files, and the kept definition is that of the last match |
| Projects.PassSelects | src/fuzz_introspector/frontends/frontend_cpp.py:519-529 | the test `len(...) == 1 and return_func` selects exactly the unique match |
| Projects.FindSource | src/fuzz_introspector/frontends/frontend_cpp.py:514-545 | a result is a definition of the named file |
| Projects.FindSourcePass | src/fuzz_introspector/frontends/frontend_cpp.py:519-541 | a result is a definition of the named file |
| Projects.FindSourceProperties | src/fuzz_introspector/frontends/frontend_cpp.py:514-545 | a definition is returned exactly when its file is the only exact match, or, with no unique exact match, the only fuzzy match |
| Projects.CountCallers | src/fuzz_introspector/frontends/frontend_cpp.py:547-564 | the number of callers is at most the number of definitions |
| Projects.NoCallers | src/fuzz_introspector/frontends/frontend_cpp.py:547-564 | the count is 0 exactly when no definition has a call site equal to or ending with the target |
| Projects.CountCallersAppend | src/fuzz_introspector/frontends/frontend_cpp.py:551-562 | counting callers distributes over concatenation |
| Projects.CountCallersStep | src/fuzz_introspector/frontends/frontend_cpp.py:552-562 | one more definition adds one exactly when it calls the target (a function counts once however many call sites match) |
| Projects.CallsiteTable | src/fuzz_introspector/frontends/frontend_cpp.py:571 | the table describes exactly the project's definitions |
| Projects.DepthOf | src/fuzz_introspector/frontends/frontend_cpp.py:570-587 | the visited names only grow |
| Projects.DepthFold | src/fuzz_introspector/frontends/frontend_cpp.py:575-587 | the loop over call sites never lowers the depth and only adds visited names |
| Projects.DepthStep | src/fuzz_introspector/frontends/frontend_cpp.py:577-585 | one call site never lowers the depth and only adds visited names |
| Projects.DepthBound | src/fuzz_introspector/frontends/frontend_cpp.py:570-587 | the depth never exceeds the number of project function names not yet visited, so the recursion is bounded |
| Projects.DepthFoldBound | src/fuzz_introspector/frontends/frontend_cpp.py:577-587 | the loop keeps the depth within the bound |
| Projects.DepthStepBound | src/fuzz_introspector/frontends/frontend_cpp.py:578-583 | one call site keeps the depth within the bound |
| Projects.DepthAtLeastOne | src/fuzz_introspector/frontends/frontend_cpp.py:577-583 | a function with a call site that resolves to a definition has depth at least 1, visited or not |
| Projects.DepthFoldReaches | src/fuzz_introspector/frontends/frontend_cpp.py:577-587 | once the loop reaches a resolvable call site, the depth is at least 1 |
| Projects.NodeOf | src/fuzz_introspector/frontends/frontend_cpp.py:479 | a resolved definition is one of `all_functions` |
| Projects.Calltree | src/fuzz_introspector/frontends/frontend_cpp.py:456-512 | the shared visited names only grow |
| Projects.CalltreeFrom | src/fuzz_introspector/frontends/frontend_cpp.py:500-510 | the shared visited names only grow |
| Projects.CalltreeFold | src/fuzz_introspector/frontends/frontend_cpp.py:504-510 | the shared visited names only grow |
| Projects.CalltreeProperties | src/fuzz_introspector/frontends/frontend_cpp.py:466-501 | an empty name prints nothing; any other tree starts with the name's indented line; a visited or unresolved name is a leaf of one line that marks nothing, and an unresolved name is printed as given |
| Projects.CalltreeExpands | src/fuzz_introspector/frontends/frontend_cpp.py:500-512 | any other name with a file is marked and followed by the trees of its call sites, one level deeper, in its own file |
| Projects.CalltreeMarksCalledNames | src/fuzz_introspector/frontends/frontend_cpp.py:500-510 | the walk marks only the root and names some function of the dictionary calls |
| Projects.CalltreeFoldMarksCalledNames | src/fuzz_introspector/frontends/frontend_cpp.py:503-510 | the loop marks only names some function of the dictionary calls |
| Projects.LastValueForIsLookup | src/fuzz_introspector/frontends/frontend_cpp.py:402 | with distinct keys, the last entry of a key is its lookup |
| Projects.LastValueForAppend | src/fuzz_introspector/frontends/frontend_cpp.py:402 | the last value of a key in a concatenation comes from the later part when it names the key |
| Projects.DictOfEntries | src/fuzz_introspector/frontends/frontend_cpp.py:397-400 | a file's dictionary maps names to that file's definitions, each under its own name |
| Projects.DictOfLookup | src/fuzz_introspector/frontends/frontend_cpp.py:397-400 | a file's dictionary maps each name to the last definition of that name in the file |
| Projects.AllFunctionsKeysUnique | src/fuzz_introspector/frontends/frontend_cpp.py:383-402 | `all_functions` has distinct keys |
| Projects.AllFunctionsEntries | src/fuzz_introspector/frontends/frontend_cpp.py:383-402 | every key of `all_functions` is the name of the project definition it maps to |
| Projects.AllFunctionsEntry | src/fuzz_introspector/frontends/frontend_cpp.py:397-402 | the same for one entry |
| Projects.AllFunctionsLastWins | src/fuzz_introspector/frontends/frontend_cpp.py:383-402 | `all_functions` maps each name to the LAST definition of that name, in file order and then definition order |
| Projects.FlattenPrefix | src/fuzz_introspector/frontends/frontend_cpp.py:551-552 | the definitions of the first `k` files are those of the first `k-1` followed by file `k`'s |
| Projects.EntriesAppend | src/fuzz_introspector/frontends/frontend_cpp.py:397-400 | the name/definition entries distribute over concatenation |
| Projects.ReachedNames | src/fuzz_introspector/frontends/frontend_cpp.py:433-437 | `functionsReached` is the set of callee names of the stored call sites |
| Projects.HarnessFilesProperties | src/fuzz_introspector/frontends/frontend_cpp.py:448-454 | a file is among the harness files exactly when it is a project file defining a name that contains `LLVMFuzzerTestOneInput`; the filter never lengthens the list |
| Projects.Project.constructor | src/fuzz_introspector/frontends/frontend_cpp.py:372-373 | a project holds its files and has no `all_functions` yet |
| Projects.Project.FindSourceWithFuncDef | src/fuzz_introspector/frontends/frontend_cpp.py:514-545 | the two passes return the file and definition `FindSource` specifies |
| Projects.Project.FindInFiles | src/fuzz_introspector/frontends/frontend_cpp.py:519-529 | one pass returns the unique file whose lookup succeeded, with its definition |
| Projects.Project.LookupInFile | src/fuzz_introspector/frontends/frontend_cpp.py:522 | the file's `get_function_node` returns the definition at the looked-up position |
| Projects.Project.CalculateFunctionUses | src/fuzz_introspector/frontends/frontend_cpp.py:547-564 | the nested loops count the definitions that call the target, at most the number of definitions |
| Projects.Project.RecursiveFunctionDepth | src/fuzz_introspector/frontends/frontend_cpp.py:570-587 | the recursive helper returns the depth and visited names `DepthOf` specifies |
| Projects.Project.DepthTurn | src/fuzz_introspector/frontends/frontend_cpp.py:577-585 | one turn of its loop is the step `DepthStep` specifies |
| Projects.Project.CalculateFunctionDepth | src/fuzz_introspector/frontends/frontend_cpp.py:566-592 | the depth from an empty visited list, at most the number of function names of the project |
| Projects.Project.GetSourceCodesWithHarnesses | src/fuzz_introspector/frontends/frontend_cpp.py:448-454 | the loop returns exactly `HarnessFiles`, the files holding a definition whose name contains `LLVMFuzzerTestOneInput`, in file order, each once per occurrence |
| Projects.Project.ExtractCalltree | src/fuzz_introspector/frontends/frontend_cpp.py:456-512 | the recursive method prints the tree and visits the names `Calltree` specifies; it needs `all_functions` for any non-empty name |
| Projects.Project.ExpandCalltree | src/fuzz_introspector/frontends/frontend_cpp.py:500-512 | the leaf test and the expansion are those of `CalltreeFrom` |
| Projects.Project.CalltreeHead | src/fuzz_introspector/frontends/frontend_cpp.py:466-498 | the file, the resolved definition and the line `'  '*depth + name + ' ' + file + ' ' + str(line)` of the name |
| Projects.Project.ExtractCallsiteTrees | src/fuzz_introspector/frontends/frontend_cpp.py:503-510 | the loop over the call sites concatenates their trees, sharing the visited names |
| Projects.Project.CallsiteTree | src/fuzz_introspector/frontends/frontend_cpp.py:504-510 | one turn appends the tree of call site `i`; the text so far followed by the trees of the remaining call sites is still the whole fold |
| Projects.Project.DumpModuleLogic | src/fuzz_introspector/frontends/frontend_cpp.py:375-446 | `all_functions` is the ordered last-wins dictionary of all files; the report lists each file with its function names; every function of the dictionary is extracted and has a record, and records exist exactly when the dictionary is non-empty; definitions outside the dictionary, and definitions already extracted, keep their call sites |
| Projects.Project.CollectFunctions | src/fuzz_introspector/frontends/frontend_cpp.py:383-402 | the loop over the files builds the `sources` entries, the fuzzing method (set once any file exists) and `all_functions` |
| Projects.Project.CollectFile | src/fuzz_introspector/frontends/frontend_cpp.py:388-402 | one turn adds the file's entry and updates the dictionary with the file's definitions |
| Projects.Project.DumpFunctions | src/fuzz_introspector/frontends/frontend_cpp.py:405-439 | one record per dictionary entry, in the dictionary's order, each function extracted; definitions outside the dictionary, and definitions already extracted, keep their call sites |
| Projects.Project.DumpStep | src/fuzz_introspector/frontends/frontend_cpp.py:405-439 | one turn of the report loop extracts and records entry `k`, keeps the records of the earlier entries valid and already-extracted definitions unchanged; the new record's uses and depth are `calculate_function_uses` and `calculate_function_depth` of the project at the end of the turn |
| Projects.Project.DumpFunction | src/fuzz_introspector/frontends/frontend_cpp.py:406-439 | a function's call sites are extracted (unchanged if they already were) and its record describes it, with the uses and depth the project has right after the extraction |
| Projects.Project.ExtractDef | src/fuzz_introspector/frontends/frontend_cpp.py:407 | extraction fills this function's call sites and leaves every other definition valid |
| Projects.Project.CurrentRecordOf | src/fuzz_introspector/frontends/frontend_cpp.py:409-437 | the record of a function, with uses `CountCallers` and depth `DepthOf` against the call sites every definition holds now |
| Projects.Project.FunctionRecordOf | src/fuzz_introspector/frontends/frontend_cpp.py:409-437 | the record copies the function's fields, with `EdgeCount == CyclomaticComplexity`, `argCount == len(argTypes)` and `BBCount == 0`; its uses are the number of callers and its depth is `calculate_function_depth`'s, both as the project stands at that moment |

## Left out

- Parsing is out of scope: the tree-sitter parser, the `tree_sitter_lang` handle, `load_tree` and the reading of the file in `SourceCodeFile.__init__`. The parsed tree and the content are constructor parameters; only the test "the content is non-empty" is kept.
- `capture_source_files_in_tree`, `load_treesitter_trees` and `analyse_source_code` are left out. They walk directories, check and read files, and log.
- Logging and `.text.decode()` are left out; node text is a given string.
- `Projects.Project.DumpModuleLogic`: the YAML file write is not modelled; the report is returned instead. `report_name` and `harness_name` play no other part, so they are dropped.
- `Projects.Project.DumpModuleLogic`: each record's uses and depth are stated only as bounds (at most the number of definitions, at most the number of names). The exact values, as the project stood when that record was computed, are stated for that turn by `Projects.Project.DumpStep` and `Projects.Project.DumpFunction`. Later turns of the loop extract more call sites, so those values are not a function of the final state.
- `Projects.Project.DumpFunctions`: states the same bounds for all records, for the same reason.
- `Projects.Project.DumpStep`: states the exact uses and depth only for the record it adds; the earlier records keep only the bounds, for the same reason.
- The records leave out `BranchProfiles` and `constantsTouched`, which are always empty lists.
- `functionsReached` (`list(reached)`) is a set, because the order of a Python set is not fixed.
- `FunctionDefs.FunctionDefinition.ExtractCallsites` fixes no order among call sites with equal end bytes. `sorted` over a `set` leaves that order to the set's iteration, so any order is allowed.
- `FunctionDefinition.parent_source` is kept only as the file's path, the one thing read from it. `function_uses` and `function_depth`, which are never updated, are dropped.
- The shared `visited` list of `calculate_function_depth` and the `visited_functions` set of `extract_calltree` are values threaded in and out. Only membership is ever read, so both are sets. One effect is not modelled: Python replaces an empty caller set with a fresh one, so the caller then does not see the additions.
- `Projects.Project.ExtractCalltree`, `CalculateFunctionDepth` and `FunctionRecordOf` take ghost parameters:
  - `table` holds the stored call sites as they are at the call;
  - `locate` holds the answers of `find_source_with_func_def`;
  - in `FindInFiles`, `ls` holds the per-file lookups.

  Each is tied to the real state by a precondition, and is proof bookkeeping only.
- The syntax the code reads without checking is a precondition (`WellFormedFunction`, `FieldExprsWellFormed`, `ParamShaped`, `FunctionsWellFormed`). That syntax is a `declarator` field, a parameter list, a `declarator` inside every pointer/array wrapper, and `argument`/`field` on member access. Python would raise on trees without them.
- `extract_calltree` reads `all_functions`, which only `dump_module_logic` creates. This is a precondition for every non-empty name. Its `source_code` lookup and its default arguments are modelled as given parameters.
- The C++ test fixture under `src/test/data` is not part of this model.
