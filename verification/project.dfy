/**
 * `Project`: the analysis over all source files of a project. It finds the
 * file that defines a function, counts a function's callers, measures call
 * depth, prints call trees, and dumps the project-wide report, which also
 * builds the name -> function dictionary `all_functions`.
 */
module Projects {
  import opened Basics
  import opened Strings
  import opened FunctionMaps
  import opened FunctionDefs
  import opened SourceCodeFiles

  // ---------------------------------------------------------------------------
  // The project's function definitions, file by file

  /** The function definitions of each file, in file order. */
  function DefsOf(files: seq<SourceCodeFile>): (defs: seq<seq<FunctionDefinition>>)
    reads files
    ensures |defs| == |files| && forall i :: 0 <= i < |files| ==> defs[i] == files[i].funcDefs
  {
    if files == [] then [] else DefsOf(files[..|files| - 1]) + [files[|files| - 1].funcDefs]
  }

  /** Every function definition of the project. */
  function AllDefs(defs: seq<seq<FunctionDefinition>>): set<FunctionDefinition> {
    set i, j | 0 <= i < |defs| && 0 <= j < |defs[i]| :: defs[i][j]
  }

  /** Every simple function name of the project. */
  function AllNames(defs: seq<seq<FunctionDefinition>>): set<string> {
    set i, j | 0 <= i < |defs| && 0 <= j < |defs[i]| :: defs[i][j].name
  }

  /** All definitions, files concatenated in order. */
  function Flatten(defs: seq<seq<FunctionDefinition>>): seq<FunctionDefinition> {
    if defs == [] then [] else Flatten(defs[..|defs| - 1]) + defs[|defs| - 1]
  }

  // ---------------------------------------------------------------------------
  // `find_source_with_func_def`

  /** `source_code.get_function_node(name, exact)` for every file, as positions in that file. */
  function Lookups(defs: seq<seq<FunctionDefinition>>, name: string, exact: bool): (r: seq<Option<nat>>)
    ensures |r| == |defs|
    ensures forall i :: 0 <= i < |defs| && r[i].Some? ==> r[i].value < |defs[i]|
  {
    if defs == [] then []
    else Lookups(defs[..|defs| - 1], name, exact) + [FindFunction(defs[|defs| - 1], name, exact)]
  }

  /** The lookup of file `i` is that file's own `get_function_node`. */
  lemma {:induction false} LookupsAt(defs: seq<seq<FunctionDefinition>>, name: string, exact: bool, i: nat)
    requires i < |defs|
    ensures Lookups(defs, name, exact)[i] == FindFunction(defs[i], name, exact)
  {
    if i < |defs| - 1 {
      LookupsAt(defs[..|defs| - 1], name, exact, i);
    }
  }

  /** `ls` holds, file by file, the lookup of `name` in that file. */
  predicate LookedUp(defs: seq<seq<FunctionDefinition>>, name: string, exact: bool, ls: seq<Option<nat>>) {
    && |ls| == |defs|
    && (forall k {:trigger FindFunction(defs[k], name, exact)} :: 0 <= k < |defs| ==> ls[k] == FindFunction(defs[k], name, exact))
    && forall k :: 0 <= k < |ls| && ls[k].Some? ==> ls[k].value < |defs[k]|
  }

  lemma LookupsLookedUp(defs: seq<seq<FunctionDefinition>>, name: string, exact: bool)
    ensures LookedUp(defs, name, exact, Lookups(defs, name, exact))
  {
    forall k | 0 <= k < |defs|
      ensures Lookups(defs, name, exact)[k] == FindFunction(defs[k], name, exact)
    {
      LookupsAt(defs, name, exact, k);
    }
  }

  /** The positions, among the first `k`, holding a value, in increasing order. */
  function MatchingFiles(ls: seq<Option<nat>>, k: nat): (r: seq<nat>)
    requires k <= |ls|
    ensures forall a :: 0 <= a < |r| ==> r[a] < k && ls[r[a]].Some?
  {
    if k == 0 then []
    else if ls[k - 1].Some? then MatchingFiles(ls, k - 1) + [k - 1]
    else MatchingFiles(ls, k - 1)
  }

  lemma {:induction false} MatchingFilesSorted(ls: seq<Option<nat>>, k: nat)
    requires k <= |ls|
    ensures forall a, b :: 0 <= a < b < |MatchingFiles(ls, k)| ==> MatchingFiles(ls, k)[a] < MatchingFiles(ls, k)[b]
  {
    if k > 0 {
      MatchingFilesSorted(ls, k - 1);
      var prev := MatchingFiles(ls, k - 1);
      var r := MatchingFiles(ls, k);
      if ls[k - 1].Some? {
        assert r == prev + [k - 1];
        forall a, b | 0 <= a < b < |r|
          ensures r[a] < r[b]
        {
          assert r[a] == prev[a];
          if b < |prev| {
            assert r[b] == prev[b];
          }
        }
      }
    }
  }

  function Last(m: seq<nat>): nat
    requires |m| > 0
  {
    m[|m| - 1]
  }

  /** Every position holding a value is listed. */
  lemma {:induction false} MatchingFilesComplete(ls: seq<Option<nat>>, k: nat, i: nat)
    requires i < k <= |ls| && ls[i].Some?
    ensures i in MatchingFiles(ls, k)
  {
    if i < k - 1 {
      MatchingFilesComplete(ls, k - 1, i);
    }
  }

  /** The only (file, found position) pair, when exactly one file's lookup succeeded. */
  function Unique(ls: seq<Option<nat>>): (r: Option<(nat, nat)>)
    ensures r.Some? ==> r.value.0 < |ls| && ls[r.value.0] == Some(r.value.1)
  {
    var m := MatchingFiles(ls, |ls|);
    if |m| == 1 then Some((m[0], ls[m[0]].value)) else None
  }

  /** `Unique` finds a pair exactly when that file is the only one whose lookup succeeded. */
  lemma UniqueProperties(ls: seq<Option<nat>>)
    ensures forall i, j :: 0 <= i < |ls| ==>
      (Unique(ls) == Some((i, j)) <==> ls[i] == Some(j) && forall k :: 0 <= k < |ls| && k != i ==> ls[k].None?)
  {
    var m := MatchingFiles(ls, |ls|);
    forall k | 0 <= k < |ls| && ls[k].Some?
      ensures k in m
    {
      MatchingFilesComplete(ls, |ls|, k);
    }
    MatchingFilesSorted(ls, |ls|);
    assert 2 <= |m| ==> m[0] < m[1];
  }

  /**
   * The state of one pass of `find_source_with_func_def` after the first `i`
   * files: the last definition found and the files where one was found.
   */
  function Pass(files: seq<SourceCodeFile>, defs: seq<seq<FunctionDefinition>>, ls: seq<Option<nat>>, i: nat)
    : (Option<FunctionDefinition>, seq<SourceCodeFile>)
    requires i <= |ls| <= |defs| && |ls| <= |files|
  {
    if i == 0 then (None, [])
    else
      var prev := Pass(files, defs, ls, i - 1);
      if ls[i - 1].Some? && ls[i - 1].value < |defs[i - 1]| then
        (Some(defs[i - 1][ls[i - 1].value]), prev.1 + [files[i - 1]])
      else prev
  }

  /** The pass state tracks the files found so far, the first of them and the last definition found. */
  lemma {:induction false} PassTracks(files: seq<SourceCodeFile>, defs: seq<seq<FunctionDefinition>>, ls: seq<Option<nat>>, i: nat)
    requires i <= |ls| == |defs| <= |files|
    requires forall k :: 0 <= k < |ls| && ls[k].Some? ==> ls[k].value < |defs[k]|
    ensures var st := Pass(files, defs, ls, i);
      var m := MatchingFiles(ls, i);
      && |st.1| == |m|
      && (|m| >= 1 ==> st.1[0] == files[m[0]])
      && (st.0.Some? <==> |m| >= 1)
      && (|m| >= 1 ==> st.0 == Some(defs[m[|m| - 1]][ls[m[|m| - 1]].value]))
  {
    if i > 0 {
      PassTracks(files, defs, ls, i - 1);
    }
  }

  /** At the end of a pass, the selection `len(...) == 1 and return_func` is `Unique`. */
  lemma PassSelects(files: seq<SourceCodeFile>, defs: seq<seq<FunctionDefinition>>, ls: seq<Option<nat>>)
    requires |ls| == |defs| == |files|
    requires forall k :: 0 <= k < |ls| && ls[k].Some? ==> ls[k].value < |defs[k]|
    ensures var st := Pass(files, defs, ls, |ls|);
      (if |st.1| == 1 && st.0.Some? then Some((st.1[0], st.0.value)) else None)
      == match Unique(ls) case Some(p) => Some((files[p.0], defs[p.0][p.1])) case None => None
  {
    PassTracks(files, defs, ls, |ls|);
  }

  /**
   * The file and definition `find_source_with_func_def` returns: the only file
   * with an exact match, else the only file with a fuzzy match, else none.
   */
  function FindSource(defs: seq<seq<FunctionDefinition>>, name: string): (r: Option<(nat, nat)>)
    ensures r.Some? ==> r.value.0 < |defs| && r.value.1 < |defs[r.value.0]|
  {
    FindSourcePass(defs, name, true)
  }

  /** One pass over the files in `exact` mode, falling back from the exact pass to the fuzzy one. */
  function FindSourcePass(defs: seq<seq<FunctionDefinition>>, name: string, exact: bool): (r: Option<(nat, nat)>)
    ensures r.Some? ==> r.value.0 < |defs| && r.value.1 < |defs[r.value.0]|
    decreases exact
  {
    var found := Unique(Lookups(defs, name, exact));
    if found.Some? || !exact then found else FindSourcePass(defs, name, false)
  }

  /**
   * A definition is attributed to a file exactly when that file is the only
   * one with an exact match, or, when no single file matches exactly, the
   * only one with a fuzzy match.
   */
  lemma FindSourceProperties(defs: seq<seq<FunctionDefinition>>, name: string)
    ensures var exact := Lookups(defs, name, true);
      var fuzzy := Lookups(defs, name, false);
      forall i, j :: 0 <= i < |defs| ==>
        (FindSource(defs, name) == Some((i, j)) <==>
           || (exact[i] == Some(j) && forall k :: 0 <= k < |defs| && k != i ==> exact[k].None?)
           || (Unique(exact).None? && fuzzy[i] == Some(j) && forall k :: 0 <= k < |defs| && k != i ==> fuzzy[k].None?))
  {
    UniqueProperties(Lookups(defs, name, true));
    UniqueProperties(Lookups(defs, name, false));
  }

  // ---------------------------------------------------------------------------
  // `calculate_function_uses`

  /** Some call site of `f` names the target (equal to it, or ending with it). */
  predicate Calls(f: FunctionDefinition, target: string)
    reads f
  {
    exists k :: 0 <= k < |f.baseCallsites|
      && (f.baseCallsites[k].0 == target || EndsWith(f.baseCallsites[k].0, target))
  }

  /** How many of the definitions call the target. */
  function CountCallers(fs: seq<FunctionDefinition>, target: string): (r: nat)
    reads fs
    ensures r <= |fs|
  {
    if fs == [] then 0
    else CountCallers(fs[..|fs| - 1], target) + (if Calls(fs[|fs| - 1], target) then 1 else 0)
  }

  /** No definition is counted exactly when none of them calls the target. */
  lemma {:induction false} NoCallers(fs: seq<FunctionDefinition>, target: string)
    ensures CountCallers(fs, target) == 0 <==> forall i :: 0 <= i < |fs| ==> !Calls(fs[i], target)
    decreases |fs|
  {
    if fs != [] {
      NoCallers(fs[..|fs| - 1], target);
    }
  }

  lemma {:induction false} CountCallersAppend(a: seq<FunctionDefinition>, b: seq<FunctionDefinition>, target: string)
    ensures CountCallers(a + b, target) == CountCallers(a, target) + CountCallers(b, target)
    decreases |b|
  {
    if b == [] {
      assert a + b == a;
    } else {
      assert (a + b)[..|a + b| - 1] == a + b[..|b| - 1];
      CountCallersAppend(a, b[..|b| - 1], target);
    }
  }

  /** Counting one more definition of a file adds one exactly when it calls the target. */
  lemma CountCallersStep(before: seq<FunctionDefinition>, funcs: seq<FunctionDefinition>, j: nat, target: string)
    requires j < |funcs|
    ensures CountCallers(before + funcs[..j + 1], target)
      == CountCallers(before + funcs[..j], target) + if Calls(funcs[j], target) then 1 else 0
  {
    assert before + funcs[..j + 1] == (before + funcs[..j]) + [funcs[j]];
    CountCallersAppend(before + funcs[..j], [funcs[j]], target);
    assert [funcs[j]][..0] == [];
  }

  // ---------------------------------------------------------------------------
  // Call sites as currently stored

  /** The stored call sites (`base_callsites`) of each definition, as a value. */
  type Table = map<FunctionDefinition, seq<(string, nat)>>

  /** The table of the project's definitions in the current state. */
  function CallsiteTable(defs: seq<seq<FunctionDefinition>>): (t: Table)
    reads AllDefs(defs)
    ensures t.Keys == AllDefs(defs)
  {
    map f | f in AllDefs(defs) :: f.baseCallsites
  }

  /** The table agrees with every definition it describes. */
  predicate Current(table: Table)
    reads table.Keys
  {
    forall f :: f in table ==> f.baseCallsites == table[f]
  }

  lemma CallsiteTableIsCurrent(defs: seq<seq<FunctionDefinition>>)
    ensures Current(CallsiteTable(defs))
  {
  }

  /** A table that describes every definition of `defs` as it is now. */
  lemma CurrentTable(defs: seq<seq<FunctionDefinition>>) returns (table: Table)
    ensures table.Keys == AllDefs(defs) && Current(table)
  {
    table := CallsiteTable(defs);
    CallsiteTableIsCurrent(defs);
  }

  // ---------------------------------------------------------------------------
  // `calculate_function_depth`

  function Max(a: nat, b: nat): nat {
    if a < b then b else a
  }

  /**
   * `_recursive_function_depth(f)` with the shared `visited` list (only its
   * membership is ever read, so it is a set here): the result and the
   * visited names afterwards. A function without call sites has depth 0 and
   * is not marked; otherwise it is marked and its call sites are folded.
   */
  function DepthOf(defs: seq<seq<FunctionDefinition>>, table: Table, f: FunctionDefinition, visited: set<string>)
    : (r: (nat, set<string>))
    requires AllDefs(defs) <= table.Keys
    requires f in AllDefs(defs) && f.name !in visited
    ensures visited <= r.1
    decreases AllNames(defs) - visited, 0, 0
  {
    if |table[f]| == 0 then (0, visited)
    else
      assert f.name in AllNames(defs);
      DepthFold(defs, table, table[f], 0, visited + {f.name}, 0)
  }

  /** The loop over the call sites from position `i`, with the depth found so far. */
  function DepthFold(defs: seq<seq<FunctionDefinition>>, table: Table, cs: seq<(string, nat)>, i: nat,
                     visited: set<string>, depth: nat)
    : (r: (nat, set<string>))
    requires AllDefs(defs) <= table.Keys && i <= |cs|
    ensures visited <= r.1
    ensures depth <= r.0
    decreases AllNames(defs) - visited, 1, |cs| - i
  {
    if i == |cs| then (depth, visited)
    else
      var step := DepthStep(defs, table, cs[i].0, visited, depth);
      DepthFold(defs, table, cs, i + 1, step.1, step.0)
  }

  /** One turn of the loop: a call site of a definition already visited counts 1, an unvisited one is descended into, an unknown one is marked. */
  function DepthStep(defs: seq<seq<FunctionDefinition>>, table: Table, callee: string, visited: set<string>, depth: nat)
    : (r: (nat, set<string>))
    requires AllDefs(defs) <= table.Keys
    ensures visited <= r.1
    ensures depth <= r.0
    decreases AllNames(defs) - visited, 0, 1
  {
    match FindSource(defs, callee)
    case Some(p) =>
      var g := defs[p.0][p.1];
      if g.name in visited then (Max(depth, 1), visited)
      else
        var inner := DepthOf(defs, table, g, visited);
        (Max(depth, inner.0 + 1), inner.1)
    case None => (depth, visited + {callee})
  }

  lemma CardMonotone(a: set<string>, b: set<string>)
    requires a <= b
    ensures |a| <= |b|
  {
    assert b == a + (b - a);
  }

  /**
   * The depth never exceeds the number of function names not yet visited:
   * each level of the recursion marks a new name of the project.
   */
  lemma {:induction false} DepthBound(defs: seq<seq<FunctionDefinition>>, table: Table, f: FunctionDefinition, visited: set<string>)
    requires AllDefs(defs) <= table.Keys
    requires f in AllDefs(defs) && f.name !in visited
    ensures DepthOf(defs, table, f, visited).0 <= |AllNames(defs) - visited|
    decreases AllNames(defs) - visited, 0, 0
  {
    if |table[f]| > 0 {
      assert f.name in AllNames(defs) - visited;
      var v1 := visited + {f.name};
      assert AllNames(defs) - v1 == (AllNames(defs) - visited) - {f.name};
      DepthFoldBound(defs, table, table[f], 0, v1, 0, |AllNames(defs) - visited|);
    }
  }

  lemma {:induction false} DepthFoldBound(defs: seq<seq<FunctionDefinition>>, table: Table, cs: seq<(string, nat)>, i: nat,
                                          visited: set<string>, depth: nat, bound: nat)
    requires AllDefs(defs) <= table.Keys && i <= |cs|
    requires depth <= bound && |AllNames(defs) - visited| + 1 <= bound
    ensures DepthFold(defs, table, cs, i, visited, depth).0 <= bound
    decreases AllNames(defs) - visited, 1, |cs| - i
  {
    if i < |cs| {
      var step := DepthStep(defs, table, cs[i].0, visited, depth);
      DepthStepBound(defs, table, cs[i].0, visited, depth, bound);
      CardMonotone(AllNames(defs) - step.1, AllNames(defs) - visited);
      DepthFoldBound(defs, table, cs, i + 1, step.1, step.0, bound);
    }
  }

  lemma {:induction false} DepthStepBound(defs: seq<seq<FunctionDefinition>>, table: Table, callee: string,
                                          visited: set<string>, depth: nat, bound: nat)
    requires AllDefs(defs) <= table.Keys
    requires depth <= bound && |AllNames(defs) - visited| + 1 <= bound
    ensures DepthStep(defs, table, callee, visited, depth).0 <= bound
    decreases AllNames(defs) - visited, 0, 1
  {
    match FindSource(defs, callee)
    case Some(p) =>
      var g := defs[p.0][p.1];
      if g.name !in visited {
        DepthBound(defs, table, g, visited);
      }
    case None =>
  }

  /**
   * A function with a call site that `find_source_with_func_def` resolves has
   * depth at least 1, whether that callee was visited already or not.
   */
  lemma DepthAtLeastOne(defs: seq<seq<FunctionDefinition>>, table: Table, f: FunctionDefinition, i: nat)
    requires AllDefs(defs) <= table.Keys
    requires f in AllDefs(defs) && i < |table[f]| && FindSource(defs, table[f][i].0).Some?
    ensures DepthOf(defs, table, f, {}).0 >= 1
  {
    assert f.name in AllNames(defs);
    var start: set<string> := {};
    assert DepthOf(defs, table, f, start) == DepthFold(defs, table, table[f], 0, start + {f.name}, 0);
    DepthFoldReaches(defs, table, table[f], 0, start + {f.name}, 0, i);
  }

  lemma {:induction false} DepthFoldReaches(defs: seq<seq<FunctionDefinition>>, table: Table, cs: seq<(string, nat)>, j: nat,
                                            visited: set<string>, depth: nat, i: nat)
    requires AllDefs(defs) <= table.Keys
    requires j <= i < |cs| && FindSource(defs, cs[i].0).Some?
    ensures DepthFold(defs, table, cs, j, visited, depth).0 >= 1
    decreases i - j
  {
    var step := DepthStep(defs, table, cs[j].0, visited, depth);
    if j < i {
      DepthFoldReaches(defs, table, cs, j + 1, step.1, step.0, i);
    } else {
      assert step.0 >= 1;
    }
  }

  // ---------------------------------------------------------------------------
  // `extract_calltree`

  /** The functions a dictionary holds. */
  function Values(all: FunctionMap<FunctionDefinition>): set<FunctionDefinition> {
    set k | 0 <= k < |all| :: all[k].1
  }

  /** Every callee name recorded by a function of the dictionary. */
  function CallNames(all: FunctionMap<FunctionDefinition>, table: Table): set<string>
    requires Values(all) <= table.Keys
  {
    set k, l | 0 <= k < |all| && all[k].1 in table && 0 <= l < |table[all[k].1]| :: table[all[k].1][l].0
  }

  /** The definition `get_function_node(func, all_functions)` resolves `func` to, if any; it is one of the dictionary's. */
  function NodeOf(all: FunctionMap<FunctionDefinition>, func: string): (r: Option<FunctionDefinition>)
    ensures r.Some? ==> r.value in Values(all)
  {
    match Resolve(func, all, false)
    case Some(k) => Some(all[k].1)
    case None => None
  }

  /** The name printed for `func`: the qualified name of the definition it resolves to, else `func` itself. */
  function DisplayName(all: FunctionMap<FunctionDefinition>, func: string): string {
    match NodeOf(all, func)
    case Some(f) => FullName(f)
    case None => func
  }

  /** One line of the tree: indentation by depth, the name, the file and the line number. */
  function CalltreeLine(depth: nat, name: string, file: string, line: int): string {
    Repeat("  ", depth) + name + " " + file + " " + IntToString(line) + "\n"
  }

  /** The file `find_source_with_func_def(name)` attributes `name` to, if any. */
  function Located(files: seq<SourceCodeFile>, defs: seq<seq<FunctionDefinition>>, name: string): Option<SourceCodeFile>
    requires |defs| == |files|
  {
    match FindSource(defs, name)
    case Some(p) => Some(files[p.0])
    case None => None
  }

  /**
   * `locate` answers every name as `find_source_with_func_def` does over
   * these files. The tree is stated over such a `locate`, so that the
   * search itself stays out of the reasoning about the walk.
   */
  ghost predicate Locates(locate: string -> Option<SourceCodeFile>, files: seq<SourceCodeFile>,
                          defs: seq<seq<FunctionDefinition>>)
    requires |defs| == |files|
  {
    forall n {:trigger Located(files, defs, n)} :: locate(n) == Located(files, defs, n)
  }

  /** The file the tree walk uses for `func`: the one given, else the one `locate` finds. */
  function SourceFor(locate: string -> Option<SourceCodeFile>, sourceCode: Option<SourceCodeFile>,
                     func: string): Option<SourceCodeFile>
  {
    if sourceCode.Some? then sourceCode else locate(func)
  }

  /**
   * `extract_calltree(source_file, source_code, function, visited, depth,
   * line_number)`: the printed tree and the visited names afterwards.
   */
  function Calltree(locate: string -> Option<SourceCodeFile>, all: FunctionMap<FunctionDefinition>,
                    table: Table, sourceFile: string, sourceCode: Option<SourceCodeFile>, func: string,
                    visited: set<string>, depth: nat, line: int)
    : (r: (string, set<string>))
    requires Values(all) <= table.Keys
    ensures visited <= r.1
    decreases CallNames(all, table) - visited, if func in CallNames(all, table) then 0 else 2, 1
  {
    if func == "" then ("", visited)
    else CalltreeFrom(locate, all, table, SourceFor(locate, sourceCode, func), NodeOf(all, func),
                      CalltreeLine(depth, DisplayName(all, func), sourceFile, line), func, visited, depth)
  }

  /**
   * The rest of `extract_calltree` once the file `code`, the definition
   * `node` and the line `text` of `func` are known: a visited name, or one
   * without a definition or a file, is a leaf; any other is marked and its
   * call sites are walked one level deeper, in the file of `func`.
   */
  function CalltreeFrom(locate: string -> Option<SourceCodeFile>, all: FunctionMap<FunctionDefinition>, table: Table,
                        code: Option<SourceCodeFile>, node: Option<FunctionDefinition>, text: string, func: string,
                        visited: set<string>, depth: nat)
    : (r: (string, set<string>))
    requires Values(all) <= table.Keys && (node.Some? ==> node.value in Values(all))
    ensures visited <= r.1
    decreases CallNames(all, table) - visited, if func in CallNames(all, table) then 0 else 2, 0
  {
    if func in visited || node.None? || code.None? then (text, visited)
    else
      var callee := node.value;
      assert forall l :: 0 <= l < |table[callee]| ==> table[callee][l].0 in CallNames(all, table);
      var rest := CalltreeFold(locate, all, table, code.value.sourceFile, table[callee], 0, visited + {func}, depth + 1);
      (text + rest.0, rest.1)
  }

  /** The loop over the call sites of the expanded function, from position `i`. */
  function CalltreeFold(locate: string -> Option<SourceCodeFile>, all: FunctionMap<FunctionDefinition>,
                        table: Table, sourceFile: string, cs: seq<(string, nat)>, i: nat, visited: set<string>, depth: nat)
    : (r: (string, set<string>))
    requires Values(all) <= table.Keys
    requires i <= |cs| && forall l :: 0 <= l < |cs| ==> cs[l].0 in CallNames(all, table)
    ensures visited <= r.1
    decreases CallNames(all, table) - visited, 1, |cs| - i
  {
    if i == |cs| then ("", visited)
    else
      var sub := Calltree(locate, all, table, sourceFile, None, cs[i].0, visited, depth, cs[i].1);
      var rest := CalltreeFold(locate, all, table, sourceFile, cs, i + 1, sub.1, depth);
      (sub.0 + rest.0, rest.1)
  }

  /**
   * An empty name prints nothing; the tree of any other name starts with that
   * name's own line; a name already visited or unknown to the dictionary is a
   * leaf: that one line, with nothing marked.
   */
  lemma CalltreeProperties(locate: string -> Option<SourceCodeFile>, all: FunctionMap<FunctionDefinition>,
                           table: Table, sourceFile: string, sourceCode: Option<SourceCodeFile>, func: string,
                           visited: set<string>, depth: nat, line: int)
    requires Values(all) <= table.Keys
    ensures var r := Calltree(locate, all, table, sourceFile, sourceCode, func, visited, depth, line);
      && (func == "" ==> r == ("", visited))
      && (func != "" ==> StartsWith(r.0, CalltreeLine(depth, DisplayName(all, func), sourceFile, line)))
      && (func != "" && (func in visited || NodeOf(all, func).None?) ==>
            r == (CalltreeLine(depth, DisplayName(all, func), sourceFile, line), visited))
      && (NodeOf(all, func).None? ==> DisplayName(all, func) == func)
  {
    var r := Calltree(locate, all, table, sourceFile, sourceCode, func, visited, depth, line);
    if func != "" {
      var text := CalltreeLine(depth, DisplayName(all, func), sourceFile, line);
      var code := SourceFor(locate, sourceCode, func);
      var node := NodeOf(all, func);
      assert r == CalltreeFrom(locate, all, table, code, node, text, func, visited, depth);
      assert r.0[..|text|] == text;
    }
  }

  /** A name that is neither empty, visited nor unresolved, and has a file, is expanded: its line, then the trees of its call sites. */
  lemma CalltreeExpands(locate: string -> Option<SourceCodeFile>, all: FunctionMap<FunctionDefinition>,
                        table: Table, sourceFile: string, sourceCode: Option<SourceCodeFile>, func: string,
                        visited: set<string>, depth: nat, line: int)
    requires Values(all) <= table.Keys
    requires func != "" && func !in visited && NodeOf(all, func).Some? && SourceFor(locate, sourceCode, func).Some?
    ensures var callee := NodeOf(all, func).value;
      && callee in table
      && (forall l :: 0 <= l < |table[callee]| ==> table[callee][l].0 in CallNames(all, table))
      && var rest := CalltreeFold(locate, all, table, SourceFor(locate, sourceCode, func).value.sourceFile,
                                  table[callee], 0, visited + {func}, depth + 1);
         Calltree(locate, all, table, sourceFile, sourceCode, func, visited, depth, line)
           == (CalltreeLine(depth, DisplayName(all, func), sourceFile, line) + rest.0, rest.1)
  {
    var callee := NodeOf(all, func).value;
    assert forall l :: 0 <= l < |table[callee]| ==> table[callee][l].0 in CallNames(all, table);
  }

  /** Everything the walk marks is the root or a name some function of the dictionary calls. */
  lemma {:induction false} CalltreeMarksCalledNames(locate: string -> Option<SourceCodeFile>,
                                                    all: FunctionMap<FunctionDefinition>, table: Table, sourceFile: string,
                                                    sourceCode: Option<SourceCodeFile>, func: string, visited: set<string>,
                                                    depth: nat, line: int)
    requires Values(all) <= table.Keys
    ensures Calltree(locate, all, table, sourceFile, sourceCode, func, visited, depth, line).1
      <= visited + {func} + CallNames(all, table)
    decreases CallNames(all, table) - visited, if func in CallNames(all, table) then 0 else 2, 1
  {
    if func != "" {
      var code := SourceFor(locate, sourceCode, func);
      var node := NodeOf(all, func);
      if !(func in visited || node.None? || code.None?) {
        var callee := node.value;
        assert forall l :: 0 <= l < |table[callee]| ==> table[callee][l].0 in CallNames(all, table);
        CalltreeFoldMarksCalledNames(locate, all, table, code.value.sourceFile, table[callee], 0, visited + {func}, depth + 1);
      }
    }
  }

  lemma {:induction false} CalltreeFoldMarksCalledNames(locate: string -> Option<SourceCodeFile>,
                                                        all: FunctionMap<FunctionDefinition>, table: Table, sourceFile: string,
                                                        cs: seq<(string, nat)>, i: nat, visited: set<string>, depth: nat)
    requires Values(all) <= table.Keys
    requires i <= |cs| && forall l :: 0 <= l < |cs| ==> cs[l].0 in CallNames(all, table)
    ensures CalltreeFold(locate, all, table, sourceFile, cs, i, visited, depth).1 <= visited + CallNames(all, table)
    decreases CallNames(all, table) - visited, 1, |cs| - i
  {
    if i < |cs| {
      var sub := Calltree(locate, all, table, sourceFile, None, cs[i].0, visited, depth, cs[i].1);
      CalltreeMarksCalledNames(locate, all, table, sourceFile, None, cs[i].0, visited, depth, cs[i].1);
      CalltreeFoldMarksCalledNames(locate, all, table, sourceFile, cs, i + 1, sub.1, depth);
    }
  }

  // ---------------------------------------------------------------------------
  // `all_functions` and the report

  /** `(func.name, func)` for each definition of a file, in order. */
  function Entries(ds: seq<FunctionDefinition>): seq<(string, FunctionDefinition)> {
    seq(|ds|, i requires 0 <= i < |ds| => (ds[i].name, ds[i]))
  }

  /** `{func.name: func for func in source_code.func_defs}`. */
  function DictOf(ds: seq<FunctionDefinition>): FunctionMap<FunctionDefinition> {
    PutAll([], Entries(ds))
  }

  /** `all_functions` after `update`-ing it with the dictionaries of the first `k` files. */
  function AllFunctionsOf(defs: seq<seq<FunctionDefinition>>, k: nat): FunctionMap<FunctionDefinition>
    requires k <= |defs|
  {
    if k == 0 then [] else PutAll(AllFunctionsOf(defs, k - 1), DictOf(defs[k - 1]))
  }

  lemma LastValueForAppend<V>(a: seq<(string, V)>, b: seq<(string, V)>, n: string)
    ensures LastValueFor(a + b, n) == match LastValueFor(b, n) case Some(v) => Some(v) case None => LastValueFor(a, n)
    decreases |b|
  {
    if b == [] {
      assert a + b == a;
    } else {
      assert (a + b)[..|a + b| - 1] == a + b[..|b| - 1];
      LastValueForAppend(a, b[..|b| - 1], n);
    }
  }

  lemma {:induction false} LastValueForIsLookup<V>(m: FunctionMap<V>, n: string)
    requires KeysUnique(m)
    ensures LastValueFor(m, n) == Lookup(m, n)
    decreases |m|
  {
    if m != [] {
      var init := m[..|m| - 1];
      assert KeysUnique(init);
      LastValueForIsLookup(init, n);
      if m[|m| - 1].0 == n {
        LookupUnique(m, |m| - 1);
      } else {
        IndexOfKeySame(init + [m[|m| - 1]], m, n);
        assert init + [m[|m| - 1]] == m;
        IndexOfKeyProperties(init, n);
        IndexOfKeyProperties(m, n);
        var a := IndexOfKey(init, n);
        var b := IndexOfKey(m, n);
        if a.Some? && b.Some? {
          assert !(a.value < b.value) && !(b.value < a.value);
        }
      }
    }
  }

  /** A file's dictionary maps names to definitions of that file, each under its own name. */
  lemma DictOfEntries(ds: seq<FunctionDefinition>)
    ensures forall e :: e in DictOf(ds) ==> e.0 == e.1.name && e.1 in ds
  {
    var es := Entries(ds);
    PutAllEntriesFrom([], es);
    forall e | e in DictOf(ds)
      ensures e.0 == e.1.name && e.1 in ds
    {
      var i :| 0 <= i < |es| && es[i] == e;
    }
  }

  lemma InAllDefs(defs: seq<seq<FunctionDefinition>>, i: nat, f: FunctionDefinition)
    requires i < |defs| && f in defs[i]
    ensures f in AllDefs(defs)
  {
    var j :| 0 <= j < |defs[i]| && defs[i][j] == f;
  }

  /** The keys of `all_functions` are distinct. */
  lemma {:induction false} AllFunctionsKeysUnique(defs: seq<seq<FunctionDefinition>>, k: nat)
    requires k <= |defs|
    ensures KeysUnique(AllFunctionsOf(defs, k))
    decreases k
  {
    if k > 0 {
      AllFunctionsKeysUnique(defs, k - 1);
      PutAllKeysUnique(AllFunctionsOf(defs, k - 1), DictOf(defs[k - 1]));
    }
  }

  /** Each key of `all_functions` is the name of the definition it maps to, a definition of the project. */
  lemma AllFunctionsEntries(defs: seq<seq<FunctionDefinition>>, k: nat)
    requires k <= |defs|
    ensures forall e :: e in AllFunctionsOf(defs, k) ==> e.0 == e.1.name && e.1 in AllDefs(defs)
  {
    if k > 0 {
      forall e | e in AllFunctionsOf(defs, k)
        ensures e.0 == e.1.name && e.1 in AllDefs(defs)
      {
        AllFunctionsEntry(defs, k, e);
      }
    }
  }

  lemma {:induction false} AllFunctionsEntry(defs: seq<seq<FunctionDefinition>>, k: nat, e: (string, FunctionDefinition))
    requires 0 < k <= |defs| && e in AllFunctionsOf(defs, k)
    ensures e.0 == e.1.name && e.1 in AllDefs(defs)
    decreases k
  {
    var prev := AllFunctionsOf(defs, k - 1);
    PutAllEntriesFrom(prev, DictOf(defs[k - 1]));
    if k > 1 && e in prev {
      AllFunctionsEntry(defs, k - 1, e);
    } else {
      DictOfEntries(defs[k - 1]);
      InAllDefs(defs, k - 1, e.1);
    }
  }

  /**
   * `all_functions` maps every name to the LAST definition of that name, in
   * file order and then definition order across the files.
   */
  lemma {:induction false} AllFunctionsLastWins(defs: seq<seq<FunctionDefinition>>, k: nat, n: string)
    requires k <= |defs|
    ensures Lookup(AllFunctionsOf(defs, k), n) == LastValueFor(Entries(Flatten(defs[..k])), n)
    decreases k
  {
    if k == 0 {
      assert defs[..0] == [];
    } else {
      AllFunctionsLastWins(defs, k - 1, n);
      AllFunctionsKeysUnique(defs, k - 1);
      var prev := AllFunctionsOf(defs, k - 1);
      var es := Entries(defs[k - 1]);
      DictOfLookup(defs[k - 1], n);
      PutAllLastWriteWins(prev, DictOf(defs[k - 1]));
      assert Lookup(AllFunctionsOf(defs, k), n)
        == match LastValueFor(es, n) case Some(v) => Some(v) case None => Lookup(prev, n);
      FlattenPrefix(defs, k);
      EntriesAppend(Flatten(defs[..k - 1]), defs[k - 1]);
      LastValueForAppend(Entries(Flatten(defs[..k - 1])), es, n);
    }
  }

  /** A file's own dictionary maps each name to the last definition of that name in the file. */
  lemma DictOfLookup(ds: seq<FunctionDefinition>, n: string)
    ensures Lookup(DictOf(ds), n) == LastValueFor(Entries(ds), n)
    ensures LastValueFor(DictOf(ds), n) == LastValueFor(Entries(ds), n)
  {
    PutAllLastWriteWins([], Entries(ds));
    LastValueForIsLookup(DictOf(ds), n);
  }

  lemma FlattenPrefix(defs: seq<seq<FunctionDefinition>>, k: nat)
    requires 0 < k <= |defs|
    ensures Flatten(defs[..k]) == Flatten(defs[..k - 1]) + defs[k - 1]
  {
    assert defs[..k][..k - 1] == defs[..k - 1];
  }

  lemma EntriesAppend(a: seq<FunctionDefinition>, b: seq<FunctionDefinition>)
    ensures Entries(a + b) == Entries(a) + Entries(b)
  {
    assert |Entries(a + b)| == |Entries(a) + Entries(b)|;
    forall i | 0 <= i < |a + b|
      ensures Entries(a + b)[i] == (Entries(a) + Entries(b))[i]
    {
      if i >= |a| {
        assert (a + b)[i] == b[i - |a|];
      }
    }
  }

  /** One `{'source_file': ..., 'function_names': [...]}` entry. */
  datatype SourceEntry = SourceEntry(sourceFile: string, functionNames: seq<string>)

  /** The per-function dictionary of the report. */
  datatype FunctionRecord = FunctionRecord(
    functionName: string,
    functionSourceFile: string,
    functionLinenumber: nat,
    functionLinenumberEnd: nat,
    linkageType: string,
    funcPosition: (nat, nat),
    cyclomaticComplexity: nat,
    edgeCount: nat,
    iCount: nat,
    argNames: seq<string>,
    argTypes: seq<string>,
    argCount: nat,
    returnType: string,
    callsites: seq<DetailedCallsite>,
    functionUses: nat,
    functionDepth: nat,
    bbCount: nat,
    signature: string,
    functionsReached: set<string>)

  /** The report dictionary written as YAML. */
  datatype Report = Report(
    report: string,
    sources: seq<SourceEntry>,
    fuzzingMethod: Option<string>,
    allFunctions: Option<seq<FunctionRecord>>)

  function DefNames(ds: seq<FunctionDefinition>): seq<string> {
    seq(|ds|, i requires 0 <= i < |ds| => ds[i].name)
  }

  /** The `sources` list of the report after its first `k` files: each file with the names of its definitions. */
  function SourcesOf(files: seq<SourceCodeFile>, defs: seq<seq<FunctionDefinition>>, k: nat): seq<SourceEntry>
    requires k <= |files| == |defs|
  {
    if k == 0 then [] else SourcesOf(files, defs, k - 1) + [SourceEntry(files[k - 1].sourceFile, DefNames(defs[k - 1]))]
  }

  /** The callee names of a list of stored call sites. */
  function CalleeNames(cs: seq<(string, nat)>): set<string> {
    set k | 0 <= k < |cs| :: cs[k].0
  }

  /** What the record of `f` holds, with the bounds its uses and depth obey. */
  ghost predicate Describes(r: FunctionRecord, f: FunctionDefinition, totalDefs: nat, totalNames: nat)
    reads f
  {
    && r.functionName == f.name
    && r.functionSourceFile == f.sourceFile
    && r.functionLinenumber == f.startLine && r.functionLinenumberEnd == f.endLine
    && r.funcPosition == (f.startLine, f.endLine)
    && r.linkageType == ""
    && r.cyclomaticComplexity == f.complexity && r.edgeCount == r.cyclomaticComplexity
    && r.iCount == f.icount
    && r.argNames == f.argNames && r.argTypes == f.argTypes && r.argCount == |r.argTypes|
    && r.returnType == f.returnType
    && r.callsites == f.detailedCallsites
    && r.functionUses <= totalDefs
    && r.functionDepth <= totalNames
    && r.bbCount == 0
    && r.signature == f.sig
    && r.functionsReached == CalleeNames(f.baseCallsites)
  }

  /** `list(reached)` built by the loop over the stored call sites. */
  method ReachedNames(callsites: seq<(string, nat)>) returns (reached: set<string>)
    ensures reached == CalleeNames(callsites)
  {
    reached := {};
    for i := 0 to |callsites|
      invariant reached == CalleeNames(callsites[..i])
    {
      assert callsites[..i + 1] == callsites[..i] + [callsites[i]];
      reached := reached + {callsites[i].0};
    }
    assert callsites[..|callsites|] == callsites;
  }

  // ---------------------------------------------------------------------------
  // Harness files

  /** The files that define a libFuzzer entry point, in their original order. */
  function HarnessFiles(files: seq<SourceCodeFile>): seq<SourceCodeFile>
    reads files
  {
    if files == [] then []
    else HarnessFiles(files[..|files| - 1]) + (if HoldsHarness(files[|files| - 1]) then [files[|files| - 1]] else [])
  }

  /** A file is kept exactly when it defines an entry point; the filter never grows the list. */
  lemma {:induction false} HarnessFilesProperties(files: seq<SourceCodeFile>)
    ensures forall h :: h in HarnessFiles(files) <==> h in files && HoldsHarness(h)
    ensures |HarnessFiles(files)| <= |files|
  {
    if files != [] {
      var init := files[..|files| - 1];
      HarnessFilesProperties(init);
      assert files == init + [files[|files| - 1]];
    }
  }

  // ---------------------------------------------------------------------------
  // The class

  class Project {
    const sourceCodeFiles: seq<SourceCodeFile>
    var allFunctions: Option<FunctionMap<FunctionDefinition>>

    function Defs(): seq<seq<FunctionDefinition>>
      reads sourceCodeFiles
    {
      DefsOf(sourceCodeFiles)
    }

    /** Every definition belongs to its file and keeps its own invariant. */
    ghost predicate Valid()
      reads sourceCodeFiles, AllDefs(Defs())
    {
      forall i, j :: 0 <= i < |sourceCodeFiles| && 0 <= j < |Defs()[i]| ==>
        Defs()[i][j].sourceFile == sourceCodeFiles[i].sourceFile && Defs()[i][j].Valid()
    }

    /** `Project(source_code_files)`; `all_functions` exists only once the report has been dumped. */
    constructor (sourceCodeFiles: seq<SourceCodeFile>)
      ensures this.sourceCodeFiles == sourceCodeFiles && allFunctions.None?
    {
      this.sourceCodeFiles := sourceCodeFiles;
      allFunctions := None;
    }

    /** `all_functions`, or the empty dictionary before it exists. */
    function AllOrEmpty(): FunctionMap<FunctionDefinition>
      reads this
    {
      if allFunctions.Some? then allFunctions.value else []
    }

    /** `find_source_with_func_def(name)`. */
    method FindSourceWithFuncDef(name: string) returns (r: Option<(SourceCodeFile, FunctionDefinition)>)
      ensures r == match FindSource(Defs(), name)
                   case Some(p) => Some((sourceCodeFiles[p.0], Defs()[p.0][p.1]))
                   case None => None
    {
      ghost var defs := Defs();
      LookupsLookedUp(defs, name, true);
      var found := FindInFiles(name, true, Lookups(defs, name, true));
      if found.Some? {
        return found;
      }
      LookupsLookedUp(defs, name, false);
      found := FindInFiles(name, false, Lookups(defs, name, false));
      return found;
    }

    /**
     * One pass of `find_source_with_func_def` in `exact` mode, `ls` being the
     * lookups it makes: the unique file whose lookup succeeds.
     */
    method FindInFiles(name: string, exact: bool, ghost ls: seq<Option<nat>>) returns (r: Option<(SourceCodeFile, FunctionDefinition)>)
      requires LookedUp(Defs(), name, exact, ls)
      ensures r == match Unique(ls)
                   case Some(p) => Some((sourceCodeFiles[p.0], Defs()[p.0][p.1]))
                   case None => None
    {
      ghost var defs := Defs();
      var returnFunc: Option<FunctionDefinition> := None;
      var withTarget: seq<SourceCodeFile> := [];
      for i := 0 to |sourceCodeFiles|
        invariant Defs() == defs
        invariant (returnFunc, withTarget) == Pass(sourceCodeFiles, defs, ls, i)
      {
        var func := LookupInFile(i, name, exact, ls);
        if func.Some? {
          returnFunc := func;
          withTarget := withTarget + [sourceCodeFiles[i]];
        }
      }
      PassSelects(sourceCodeFiles, defs, ls);
      if |withTarget| == 1 && returnFunc.Some? {
        return Some((withTarget[0], returnFunc.value));
      }
      return None;
    }

    /** `source_code.get_function_node(name, exact)` on the `i`-th file. */
    method LookupInFile(i: nat, name: string, exact: bool, ghost ls: seq<Option<nat>>) returns (func: Option<FunctionDefinition>)
      requires i < |sourceCodeFiles| && LookedUp(Defs(), name, exact, ls)
      ensures func == if ls[i].Some? && ls[i].value < |Defs()[i]| then Some(Defs()[i][ls[i].value]) else None
    {
      func := sourceCodeFiles[i].GetFunctionNode(name, exact);
      assert ls[i] == FindFunction(Defs()[i], name, exact);
    }

    /** `calculate_function_uses(target_name)`: how many definitions of the project call the target. */
    method CalculateFunctionUses(targetName: string) returns (count: nat)
      ensures count == CountCallers(Flatten(Defs()), targetName)
      ensures count <= |Flatten(Defs())|
    {
      ghost var defs := Defs();
      count := 0;
      for i := 0 to |sourceCodeFiles|
        invariant count == CountCallers(Flatten(defs[..i]), targetName)
      {
        var funcs := sourceCodeFiles[i].funcDefs;
        ghost var before := Flatten(defs[..i]);
        assert before + funcs[..0] == before;
        for j := 0 to |funcs|
          invariant count == CountCallers(before + funcs[..j], targetName)
        {
          var func := funcs[j];
          var found := false;
          for k := 0 to |func.baseCallsites|
            invariant !found
            invariant forall l :: 0 <= l < k ==> !(func.baseCallsites[l].0 == targetName || EndsWith(func.baseCallsites[l].0, targetName))
          {
            if func.baseCallsites[k].0 == targetName {
              found := true;
              break;
            } else if EndsWith(func.baseCallsites[k].0, targetName) {
              found := true;
              break;
            }
          }
          CountCallersStep(before, funcs, j, targetName);
          if found {
            count := count + 1;
          }
        }
        assert funcs[..|funcs|] == funcs;
        assert defs[i] == funcs;
        FlattenPrefix(defs, i + 1);
        assert Flatten(defs[..i + 1]) == before + funcs;
      }
      assert defs[..|defs|] == defs;
    }

    /**
     * `_recursive_function_depth`, threading the shared visited names through;
     * `table` is the stored call sites as they are now.
     */
    method RecursiveFunctionDepth(func: FunctionDefinition, visited: set<string>, ghost table: Table)
      returns (depth: nat, visitedOut: set<string>)
      requires AllDefs(Defs()) <= table.Keys && Current(table)
      requires func in AllDefs(Defs()) && func.name !in visited
      ensures (depth, visitedOut) == DepthOf(Defs(), table, func, visited)
      decreases AllNames(Defs()) - visited, 0
    {
      ghost var defs := Defs();
      var callsites := func.baseCallsites;
      if |callsites| == 0 {
        return 0, visited;
      }
      depth := 0;
      visitedOut := visited + {func.name};
      assert func.name in AllNames(defs);
      for i := 0 to |callsites|
        invariant Defs() == defs && Current(table)
        invariant visited + {func.name} <= visitedOut
        invariant DepthFold(defs, table, callsites, i, visitedOut, depth) == DepthOf(defs, table, func, visited)
      {
        depth, visitedOut := DepthTurn(callsites[i].0, visitedOut, depth, table);
      }
    }

    /** The body of the loop of `_recursive_function_depth` for one call site. */
    method DepthTurn(callee: string, visited: set<string>, depth: nat, ghost table: Table)
      returns (newDepth: nat, newVisited: set<string>)
      requires AllDefs(Defs()) <= table.Keys && Current(table)
      ensures (newDepth, newVisited) == DepthStep(Defs(), table, callee, visited, depth)
      decreases AllNames(Defs()) - visited, 1
    {
      var target := FindSourceWithFuncDef(callee);
      if target.None? {
        return depth, visited + {callee};
      }
      var g := target.value.1;
      if g.name in visited {
        return Max(depth, 1), visited;
      }
      var d, v := RecursiveFunctionDepth(g, visited, table);
      return Max(depth, d + 1), v;
    }

    /** `calculate_function_depth(target)`: the depth from a fresh visited list. */
    method CalculateFunctionDepth(target: FunctionDefinition, ghost table: Table) returns (depth: nat)
      requires AllDefs(Defs()) <= table.Keys && Current(table)
      requires target in AllDefs(Defs())
      ensures depth == DepthOf(Defs(), table, target, {}).0
      ensures depth <= |AllNames(Defs())|
    {
      var v;
      depth, v := RecursiveFunctionDepth(target, {}, table);
      DepthBound(Defs(), table, target, {});
    }

    /** `get_source_codes_with_harnesses`: the files holding a libFuzzer entry point, in order. */
    method GetSourceCodesWithHarnesses() returns (harnesses: seq<SourceCodeFile>)
      ensures harnesses == HarnessFiles(sourceCodeFiles)
      ensures forall h :: h in harnesses <==> h in sourceCodeFiles && HoldsHarness(h)
      ensures |harnesses| <= |sourceCodeFiles|
    {
      harnesses := [];
      for i := 0 to |sourceCodeFiles|
        invariant harnesses == HarnessFiles(sourceCodeFiles[..i])
      {
        var isHarness := sourceCodeFiles[i].HasLibfuzzerHarness();
        assert sourceCodeFiles[..i + 1][..i] == sourceCodeFiles[..i];
        if isHarness {
          harnesses := harnesses + [sourceCodeFiles[i]];
        }
      }
      assert sourceCodeFiles[..|sourceCodeFiles|] == sourceCodeFiles;
      HarnessFilesProperties(sourceCodeFiles);
    }

    /**
     * `extract_calltree`; the call tree needs `all_functions`, which only the
     * report dump creates. `table` is the stored call sites as they are now
     * and `locate` the answers of `find_source_with_func_def`.
     */
    method ExtractCalltree(sourceFile: string, sourceCode: Option<SourceCodeFile>, func: string,
                           visited: set<string>, depth: nat, lineNumber: int, ghost table: Table,
                           ghost locate: string -> Option<SourceCodeFile>)
      returns (text: string, visitedOut: set<string>)
      requires func != "" ==> allFunctions.Some?
      requires Values(AllOrEmpty()) <= table.Keys && Current(table)
      requires Locates(locate, sourceCodeFiles, Defs())
      ensures (text, visitedOut)
        == Calltree(locate, AllOrEmpty(), table, sourceFile, sourceCode, func, visited, depth, lineNumber)
      decreases CallNames(AllOrEmpty(), table) - visited, if func in CallNames(AllOrEmpty(), table) then 0 else 2, 1
    {
      if func == "" {
        return "", visited;
      }
      var code, funcNode, line := CalltreeHead(sourceFile, sourceCode, func, depth, lineNumber, locate);
      text, visitedOut := ExpandCalltree(code, funcNode, line, func, visited, depth, table, locate);
    }

    /** The rest of `extract_calltree`: stop at a leaf, else walk the call sites of `func` in its own file. */
    method ExpandCalltree(code: Option<SourceCodeFile>, funcNode: Option<FunctionDefinition>, line: string, func: string,
                          visited: set<string>, depth: nat, ghost table: Table, ghost locate: string -> Option<SourceCodeFile>)
      returns (text: string, visitedOut: set<string>)
      requires allFunctions.Some?
      requires Values(AllOrEmpty()) <= table.Keys && Current(table)
      requires Locates(locate, sourceCodeFiles, Defs())
      requires funcNode.Some? ==> funcNode.value in Values(AllOrEmpty())
      ensures (text, visitedOut) == CalltreeFrom(locate, AllOrEmpty(), table, code, funcNode, line, func, visited, depth)
      decreases CallNames(AllOrEmpty(), table) - visited, if func in CallNames(AllOrEmpty(), table) then 0 else 2, 0
    {
      if func in visited || funcNode.None? || code.None? {
        return line, visited;
      }
      var callee := funcNode.value;
      assert forall l :: 0 <= l < |table[callee]| ==> table[callee][l].0 in CallNames(AllOrEmpty(), table);
      var below;
      below, visitedOut := ExtractCallsiteTrees(code.value.sourceFile, callee.baseCallsites, visited + {func}, depth + 1, table, locate);
      text := line + below;
    }

    /** The first part of `extract_calltree`: the file of `func`, its definition and its own line. */
    method CalltreeHead(sourceFile: string, sourceCode: Option<SourceCodeFile>, func: string, depth: nat, lineNumber: int,
                        ghost locate: string -> Option<SourceCodeFile>)
      returns (code: Option<SourceCodeFile>, funcNode: Option<FunctionDefinition>, line: string)
      requires Locates(locate, sourceCodeFiles, Defs())
      ensures code == SourceFor(locate, sourceCode, func)
      ensures funcNode == NodeOf(AllOrEmpty(), func)
      ensures line == CalltreeLine(depth, DisplayName(AllOrEmpty(), func), sourceFile, lineNumber)
    {
      code := sourceCode;
      if code.None? {
        var result := FindSourceWithFuncDef(func);
        assert locate(func) == Located(sourceCodeFiles, Defs(), func);
        if result.Some? {
          code := Some(result.value.0);
        }
      }
      funcNode := GetFunctionNode(func, AllOrEmpty(), false);
      var funcName;
      if funcNode.Some? {
        funcName := funcNode.value.name;
        var prefix := funcNode.value.namespaceOrClass;
        if prefix != "" {
          funcName := prefix + "::" + funcName;
        }
      } else {
        funcName := func;
      }
      line := Repeat("  ", depth) + funcName + " " + sourceFile + " " + IntToString(lineNumber) + "\n";
    }

    /** The loop of `extract_calltree` over the call sites of an expanded function, sharing the visited names. */
    method ExtractCallsiteTrees(sourceFile: string, callsites: seq<(string, nat)>, visited: set<string>, depth: nat,
                                ghost table: Table, ghost locate: string -> Option<SourceCodeFile>)
      returns (text: string, visitedOut: set<string>)
      requires allFunctions.Some?
      requires Values(AllOrEmpty()) <= table.Keys && Current(table)
      requires Locates(locate, sourceCodeFiles, Defs())
      requires forall l :: 0 <= l < |callsites| ==> callsites[l].0 in CallNames(AllOrEmpty(), table)
      ensures (text, visitedOut)
        == CalltreeFold(locate, AllOrEmpty(), table, sourceFile, callsites, 0, visited, depth)
      decreases CallNames(AllOrEmpty(), table) - visited, 1, |callsites|, 1
    {
      ghost var total := CalltreeFold(locate, AllOrEmpty(), table, sourceFile, callsites, 0, visited, depth);
      text := "";
      visitedOut := visited;
      assert text + total.0 == total.0;
      for i := 0 to |callsites|
        invariant visited <= visitedOut
        invariant FoldedUpTo(locate, AllOrEmpty(), table, sourceFile, callsites, i, visitedOut, depth, text, total)
      {
        text, visitedOut := CallsiteTree(sourceFile, callsites, i, visitedOut, depth, table, locate, text, total);
      }
      assert text + "" == text;
    }

    /**
     * The loop's invariant after `i` call sites: the text so far, followed by
     * the trees of the remaining call sites from the names visited so far, is
     * the whole fold.
     */
    ghost predicate FoldedUpTo(locate: string -> Option<SourceCodeFile>, all: FunctionMap<FunctionDefinition>, table: Table,
                               sourceFile: string, callsites: seq<(string, nat)>, i: nat, visited: set<string>, depth: nat,
                               text: string, total: (string, set<string>))
      requires Values(all) <= table.Keys && i <= |callsites|
      requires forall l :: 0 <= l < |callsites| ==> callsites[l].0 in CallNames(all, table)
    {
      var rest := CalltreeFold(locate, all, table, sourceFile, callsites, i, visited, depth);
      text + rest.0 == total.0 && rest.1 == total.1
    }

    /** One turn of that loop: the tree of call site `i`, which leaves the rest of the loop to the names it did not visit. */
    method CallsiteTree(sourceFile: string, callsites: seq<(string, nat)>, i: nat, visited: set<string>, depth: nat,
                        ghost table: Table, ghost locate: string -> Option<SourceCodeFile>,
                        prefix: string, ghost total: (string, set<string>))
      returns (text: string, visitedOut: set<string>)
      requires allFunctions.Some?
      requires Values(AllOrEmpty()) <= table.Keys && Current(table)
      requires Locates(locate, sourceCodeFiles, Defs())
      requires i < |callsites| && forall l :: 0 <= l < |callsites| ==> callsites[l].0 in CallNames(AllOrEmpty(), table)
      requires FoldedUpTo(locate, AllOrEmpty(), table, sourceFile, callsites, i, visited, depth, prefix, total)
      ensures visited <= visitedOut
      ensures FoldedUpTo(locate, AllOrEmpty(), table, sourceFile, callsites, i + 1, visitedOut, depth, text, total)
      decreases CallNames(AllOrEmpty(), table) - visited, 1, |callsites| - i, 0
    {
      var sub;
      sub, visitedOut := ExtractCalltree(sourceFile, None, callsites[i].0, visited, depth, callsites[i].1, table, locate);
      ghost var rest := CalltreeFold(locate, AllOrEmpty(), table, sourceFile, callsites, i + 1, visitedOut, depth);
      assert prefix + (sub + rest.0) == (prefix + sub) + rest.0;
      text := prefix + sub;
    }

    /**
     * `dump_module_logic`: builds `all_functions` from the files in order (a
     * later file's definition replaces an earlier one of the same name),
     * extracts the call sites of every function of it and records each one.
     * The YAML file it writes is the returned report.
     */
    method DumpModuleLogic() returns (report: Report)
      requires Valid()
      modifies this, AllDefs(Defs())
      ensures Valid()
      ensures allFunctions == Some(AllFunctionsOf(Defs(), |Defs()|))
      ensures report.report == "name"
      ensures report.sources == SourcesOf(sourceCodeFiles, Defs(), |sourceCodeFiles|)
      ensures report.fuzzingMethod == if sourceCodeFiles == [] then None else Some("LLVMFuzzerTestOneInput")
      ensures forall k :: 0 <= k < |AllOrEmpty()| ==> AllOrEmpty()[k].1.Extracted()
      ensures report.allFunctions.Some? <==> AllOrEmpty() != []
      ensures report.allFunctions.Some? ==>
        && |report.allFunctions.value| == |AllOrEmpty()|
        && forall k :: 0 <= k < |AllOrEmpty()| ==>
             Describes(report.allFunctions.value[k], AllOrEmpty()[k].1, |Flatten(Defs())|, |AllNames(Defs())|)
      ensures forall f :: f in AllDefs(Defs()) && f !in Values(AllOrEmpty()) ==>
        f.baseCallsites == old(f.baseCallsites) && f.detailedCallsites == old(f.detailedCallsites)
      ensures forall f :: f in AllDefs(Defs()) && f.ExtractedWith(old(f.baseCallsites), old(f.detailedCallsites)) ==>
        f.baseCallsites == old(f.baseCallsites) && f.detailedCallsites == old(f.detailedCallsites)
    {
      var sources, fuzzingMethod, all := CollectFunctions();
      allFunctions := Some(all);
      assert Defs() == old(Defs()) && unchanged(AllDefs(Defs()));
      AllFunctionsEntries(Defs(), |Defs()|);
      var records := DumpFunctions();
      report := Report("name", sources, fuzzingMethod, if records == [] then None else Some(records));
    }

    /** The loop over the files: the `sources` entries, the fuzzing method, and `all_functions`. */
    method CollectFunctions() returns (sources: seq<SourceEntry>, fuzzingMethod: Option<string>, all: FunctionMap<FunctionDefinition>)
      ensures all == AllFunctionsOf(Defs(), |Defs()|)
      ensures sources == SourcesOf(sourceCodeFiles, Defs(), |sourceCodeFiles|)
      ensures fuzzingMethod == if sourceCodeFiles == [] then None else Some("LLVMFuzzerTestOneInput")
    {
      ghost var defs := Defs();
      sources, fuzzingMethod := [], None;
      all := [];
      for i := 0 to |sourceCodeFiles|
        invariant sources == SourcesOf(sourceCodeFiles, defs, i)
        invariant fuzzingMethod == if i == 0 then None else Some("LLVMFuzzerTestOneInput")
        invariant all == AllFunctionsOf(defs, i)
      {
        fuzzingMethod := Some("LLVMFuzzerTestOneInput");
        sources, all := CollectFile(i, sources, all, defs);
      }
    }

    /** One turn of that loop: the `i`-th file's `sources` entry and its `all_functions.update(...)`. */
    method CollectFile(i: nat, sources: seq<SourceEntry>, all: FunctionMap<FunctionDefinition>, ghost defs: seq<seq<FunctionDefinition>>)
      returns (sources': seq<SourceEntry>, all': FunctionMap<FunctionDefinition>)
      requires defs == Defs() && i < |sourceCodeFiles|
      requires sources == SourcesOf(sourceCodeFiles, defs, i) && all == AllFunctionsOf(defs, i)
      ensures sources' == SourcesOf(sourceCodeFiles, defs, i + 1) && all' == AllFunctionsOf(defs, i + 1)
    {
      var sourceCode := sourceCodeFiles[i];
      sources' := sources + [SourceEntry(sourceCode.sourceFile, DefNames(sourceCode.funcDefs))];
      all' := PutAll(all, DictOf(sourceCode.funcDefs));
    }

    /** The loop over the values of `all_functions`, in the dictionary's order. */
    method DumpFunctions() returns (records: seq<FunctionRecord>)
      requires Valid() && allFunctions.Some?
      requires forall e :: e in allFunctions.value ==> e.1 in AllDefs(Defs())
      modifies Values(allFunctions.value)
      ensures Valid() && Defs() == old(Defs()) && allFunctions == old(allFunctions)
      ensures |records| == |allFunctions.value|
      ensures forall k :: 0 <= k < |records| ==>
        allFunctions.value[k].1.Extracted()
        && Describes(records[k], allFunctions.value[k].1, |Flatten(Defs())|, |AllNames(Defs())|)
      ensures forall f :: f in AllDefs(Defs()) && f !in Values(allFunctions.value) ==>
        f.baseCallsites == old(f.baseCallsites) && f.detailedCallsites == old(f.detailedCallsites)
      ensures forall f :: f in AllDefs(Defs()) && f.ExtractedWith(old(f.baseCallsites), old(f.detailedCallsites)) ==>
        f.baseCallsites == old(f.baseCallsites) && f.detailedCallsites == old(f.detailedCallsites)
    {
      ghost var defs := Defs();
      ghost var base0 := map f | f in AllDefs(defs) :: f.baseCallsites;
      ghost var detailed0 := map f | f in AllDefs(defs) :: f.detailedCallsites;
      var all := allFunctions.value;
      records := [];
      for k := 0 to |all|
        invariant DumpedUpTo(all, k, records, defs, base0, detailed0)
      {
        records := DumpStep(all, k, records, defs, base0, detailed0);
      }
    }

    /**
     * The report loop's invariant after `k` turns: the first `k` functions of
     * the dictionary are extracted and recorded, and every definition that
     * held extracted call sites at the start (`base0`, `detailed0`) still
     * holds them.
     */
    ghost predicate DumpedUpTo(all: FunctionMap<FunctionDefinition>, k: nat, records: seq<FunctionRecord>,
                               defs: seq<seq<FunctionDefinition>>,
                               base0: map<FunctionDefinition, seq<(string, nat)>>,
                               detailed0: map<FunctionDefinition, seq<DetailedCallsite>>)
      reads this, sourceCodeFiles, AllDefs(defs)
    {
      && allFunctions == Some(all) && Defs() == defs && Valid()
      && k <= |all| && |records| == k
      && (forall e :: e in all ==> e.1 in AllDefs(defs))
      && AllDefs(defs) <= base0.Keys && AllDefs(defs) <= detailed0.Keys
      && (forall j :: 0 <= j < k ==>
            all[j].1.Extracted() && Describes(records[j], all[j].1, |Flatten(defs)|, |AllNames(defs)|))
      && (forall f :: f in AllDefs(defs) && f.ExtractedWith(base0[f], detailed0[f]) ==>
            f.baseCallsites == base0[f] && f.detailedCallsites == detailed0[f])
    }

    /**
     * One turn of the report loop, keeping its invariant; the new record holds
     * the uses and depth of the project as it stands at the end of the turn.
     */
    method DumpStep(all: FunctionMap<FunctionDefinition>, k: nat, records: seq<FunctionRecord>,
                    ghost defs: seq<seq<FunctionDefinition>>,
                    ghost base0: map<FunctionDefinition, seq<(string, nat)>>,
                    ghost detailed0: map<FunctionDefinition, seq<DetailedCallsite>>)
      returns (records': seq<FunctionRecord>)
      requires k < |all| && DumpedUpTo(all, k, records, defs, base0, detailed0)
      modifies all[k].1
      ensures DumpedUpTo(all, k + 1, records', defs, base0, detailed0)
      ensures all[k].1 in AllDefs(Defs()) && RecordIsCurrent(records'[k], all[k].1)
    {
      var func := all[k].1;
      assert all[k] in all;
      var rec := DumpFunction(func);
      records' := records + [rec];
      ghost var total, names := |Flatten(defs)|, |AllNames(defs)|;
      forall j | 0 <= j < k + 1
        ensures all[j].1.Extracted() && Describes(records'[j], all[j].1, total, names)
      {
        if j < k && all[j].1 == func {
          assert old(func.Extracted()) && old(Describes(records[j], func, total, names));
          assert func.ExtractedWith(old(func.baseCallsites), old(func.detailedCallsites));
        }
      }
      forall f | f == func && f.ExtractedWith(base0[f], detailed0[f])
        ensures f.baseCallsites == base0[f] && f.detailedCallsites == detailed0[f]
      {
        assert old(f.baseCallsites) == base0[f] && old(f.detailedCallsites) == detailed0[f];
      }
    }

    /**
     * One turn of the report loop: `extract_callsites(all_functions)` on
     * `func`, then its record, with the uses and the depth the project has at
     * that moment (functions later in the loop may not be extracted yet).
     */
    method DumpFunction(func: FunctionDefinition) returns (rec: FunctionRecord)
      requires Valid() && allFunctions.Some? && func in AllDefs(Defs())
      modifies func
      ensures Valid() && func.Extracted()
      ensures func.ExtractedWith(old(func.baseCallsites), old(func.detailedCallsites)) ==>
        func.baseCallsites == old(func.baseCallsites) && func.detailedCallsites == old(func.detailedCallsites)
      ensures Describes(rec, func, |Flatten(Defs())|, |AllNames(Defs())|)
      ensures RecordIsCurrent(rec, func)
    {
      ExtractDef(func);
      label extracted:
      rec := CurrentRecordOf(func);
      assert unchanged@extracted(sourceCodeFiles) && unchanged@extracted(AllDefs(Defs()));
    }

    /**
     * The record's uses and depth are those `calculate_function_uses` and
     * `calculate_function_depth` give for `func` against the call sites every
     * definition holds now.
     */
    ghost predicate RecordIsCurrent(rec: FunctionRecord, func: FunctionDefinition)
      requires func in AllDefs(Defs())
      reads this, sourceCodeFiles, AllDefs(Defs()), Flatten(Defs())
    {
      && rec.functionUses == CountCallers(Flatten(Defs()), func.name)
      && rec.functionDepth == DepthOf(Defs(), CallsiteTable(Defs()), func, {}).0
    }

    /** The record of `func` against the call sites every definition holds now. */
    method CurrentRecordOf(func: FunctionDefinition) returns (rec: FunctionRecord)
      requires func in AllDefs(Defs())
      ensures Describes(rec, func, |Flatten(Defs())|, |AllNames(Defs())|)
      ensures RecordIsCurrent(rec, func)
    {
      CallsiteTableIsCurrent(Defs());
      rec := FunctionRecordOf(func, CallsiteTable(Defs()));
    }

    /** `func.extract_callsites(self.all_functions)`, which leaves every other definition as it was. */
    method ExtractDef(func: FunctionDefinition)
      requires Valid() && allFunctions.Some? && func in AllDefs(Defs())
      modifies func
      ensures Valid() && func.Extracted()
      ensures func.ExtractedWith(old(func.baseCallsites), old(func.detailedCallsites)) ==>
        func.baseCallsites == old(func.baseCallsites) && func.detailedCallsites == old(func.detailedCallsites)
    {
      ValidDef(func);
      ghost var defs: seq<seq<FunctionDefinition>> := Defs();
      func.ExtractCallsites(AllOrEmpty());
      forall i, j | 0 <= i < |sourceCodeFiles| && 0 <= j < |defs[i]|
        ensures defs[i][j].sourceFile == sourceCodeFiles[i].sourceFile && defs[i][j].Valid()
      {
        if defs[i][j] != func {
          assert old(defs[i][j].Valid());
        }
      }
    }

    /**
     * The dictionary the report holds for `func`; its uses and depth are those
     * `calculate_function_uses` and `calculate_function_depth` compute now.
     */
    method FunctionRecordOf(func: FunctionDefinition, ghost table: Table) returns (rec: FunctionRecord)
      requires func in AllDefs(Defs()) && AllDefs(Defs()) <= table.Keys && Current(table)
      ensures Describes(rec, func, |Flatten(Defs())|, |AllNames(Defs())|)
      ensures rec.functionUses == CountCallers(Flatten(Defs()), func.name)
      ensures rec.functionDepth == DepthOf(Defs(), table, func, {}).0
    {
      ghost var defs := Defs();
      ghost var u := CountCallers(Flatten(defs), func.name);
      var uses := CalculateFunctionUses(func.name);
      assert Defs() == defs && uses == u && Current(table);
      var depth := CalculateFunctionDepth(func, table);
      assert Defs() == defs && uses == u && depth == DepthOf(defs, table, func, {}).0;
      var reached := ReachedNames(func.baseCallsites);
      rec := FunctionRecord(func.name, func.sourceFile, func.startLine, func.endLine, "", (func.startLine, func.endLine),
                            func.complexity, func.complexity, func.icount, func.argNames, func.argTypes, |func.argTypes|,
                            func.returnType, func.detailedCallsites, uses, depth, 0, func.sig, reached);
    }

    lemma ValidDef(func: FunctionDefinition)
      requires Valid() && func in AllDefs(Defs())
      ensures func.Valid()
    {
      var i, j :| 0 <= i < |Defs()| && 0 <= j < |Defs()[i]| && Defs()[i][j] == func;
    }
  }
}
