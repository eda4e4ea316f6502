/**
 * `SourceCodeFile`: one parsed C++ file and the function definitions found in
 * it. The constructor walks the syntax tree, descending into namespaces
 * (which extend the current namespace) and into every other node except a
 * function definition, which is recorded with the namespace in force.
 */
module SourceCodeFiles {
  import opened Basics
  import opened Strings
  import opened Syntax
  import opened Signatures
  import opened FunctionDefs

  // ---------------------------------------------------------------------------
  // Namespaces

  /** `namespace += '::' + segment`, then one leading `::` dropped. */
  function AppendQualifier(namespace: string, segment: string): string {
    var joined := namespace + "::" + segment;
    if StartsWith(joined, "::") then joined[2..] else joined
  }

  /**
   * At top level a namespace is just its own name; inside namespace `ns` it is
   * `ns::name`.
   */
  lemma AppendQualifierJoins(namespace: string, segment: string)
    ensures namespace == "" ==> AppendQualifier(namespace, segment) == segment
    ensures namespace != "" && namespace[0] != ':' ==> AppendQualifier(namespace, segment) == namespace + "::" + segment
  {
    var joined := namespace + "::" + segment;
    if namespace == "" {
      assert joined == "::" + segment;
      assert joined[2..] == segment;
    } else if namespace[0] != ':' {
      assert joined[0] == namespace[0];
    }
  }

  /** Each named part of a nested namespace specifier (`a::b::c`) extends the namespace in turn. */
  function AppendNamedParts(namespace: string, parts: seq<Node>): string {
    if parts == [] then namespace
    else
      var last := parts[|parts| - 1];
      var before := AppendNamedParts(namespace, parts[..|parts| - 1]);
      if last.isNamed then AppendQualifier(before, last.text) else before
  }

  /** The namespace in force inside a `namespace_definition` node entered under `namespace`. */
  function NamespaceOf(node: Node, namespace: string): string {
    match Field(node, "name")
    case None => namespace
    case Some(nn) =>
      if nn.kind == "nested_namespace_specifier" then AppendNamedParts(namespace, nn.children)
      else if nn.kind == "namespace_identifier" then AppendQualifier(namespace, nn.text)
      else namespace
  }

  /** `namespace a::b { }` at top level gives the namespace `a::b`. */
  lemma NestedNamespaceExample(a: Node, sep: Node, b: Node)
    requires a.isNamed && !sep.isNamed && b.isNamed && a.text == "a" && b.text == "b"
    ensures AppendNamedParts("", [a, sep, b]) == "a::b"
  {
    assert [a, sep, b][..2] == [a, sep];
    assert [a, sep][..1] == [a];
    assert [a][..0] == [];
    AppendQualifierJoins("", "a");
    assert AppendNamedParts("", [a]) == "a";
    assert AppendNamedParts("", [a, sep]) == "a";
    AppendQualifierJoins("a", "b");
  }

  // ---------------------------------------------------------------------------
  // The function definitions a tree holds

  /** A function-definition node and the namespace in force where it appears. */
  datatype Site = Site(node: Node, namespace: string)

  /** `process_tree(node, namespace)`: the sites found among the node's children, in order. */
  function TreeSites(node: Node, namespace: string): seq<Site>
    decreases node, 1, 0
  {
    ChildrenSites(node, |node.children|, namespace)
  }

  function ChildrenSites(node: Node, k: nat, namespace: string): seq<Site>
    requires k <= |node.children|
    decreases node, 0, k
  {
    if k == 0 then []
    else ChildrenSites(node, k - 1, namespace) + ChildTreeSites(node.children[k - 1], namespace)
  }

  /** What one child contributes: itself, its namespace's contents, or its own children's sites. */
  function ChildTreeSites(child: Node, namespace: string): seq<Site>
    decreases child, 2, 0
  {
    if child.kind == "function_definition" then [Site(child, namespace)]
    else if child.kind == "namespace_definition" then TreeSites(child, NamespaceOf(child, namespace))
    else TreeSites(child, namespace)
  }

  /** Every function definition the walk reaches has the shape the extraction needs. */
  predicate FunctionsWellFormed(node: Node)
    decreases node
  {
    forall i :: 0 <= i < |node.children| ==>
      if node.children[i].kind == "function_definition" then
        WellFormedFunction(node.children[i]) && FieldExprsWellFormed(node.children[i])
      else FunctionsWellFormed(node.children[i])
  }

  /** `defs` are the function definitions built from `sites`, in the same order. */
  predicate BuiltFrom(defs: seq<FunctionDefinition>, sites: seq<Site>, file: string) {
    && |defs| == |sites|
    && forall i :: 0 <= i < |defs| ==>
         WellFormedFunction(sites[i].node) && defs[i].ExtractedFrom(sites[i].node, file, sites[i].namespace)
  }

  lemma BuiltFromAppend(a: seq<FunctionDefinition>, s: seq<Site>, b: seq<FunctionDefinition>, t: seq<Site>, file: string)
    requires BuiltFrom(a, s, file) && BuiltFrom(b, t, file)
    ensures BuiltFrom(a + b, s + t, file)
  {
    forall i | 0 <= i < |a + b|
      ensures WellFormedFunction((s + t)[i].node) && (a + b)[i].ExtractedFrom((s + t)[i].node, file, (s + t)[i].namespace)
    {
      if i >= |a| {
        assert (a + b)[i] == b[i - |a|] && (s + t)[i] == t[i - |a|];
      }
    }
  }

  /** `after` is `before` with definitions built from `sites` appended. */
  predicate AppendedFrom(before: seq<FunctionDefinition>, after: seq<FunctionDefinition>, sites: seq<Site>, file: string) {
    |before| <= |after| && after[..|before|] == before && BuiltFrom(after[|before|..], sites, file)
  }

  lemma AppendedFromTrans(a: seq<FunctionDefinition>, b: seq<FunctionDefinition>, c: seq<FunctionDefinition>,
                          s: seq<Site>, t: seq<Site>, file: string)
    requires AppendedFrom(a, b, s, file) && AppendedFrom(b, c, t, file)
    ensures AppendedFrom(a, c, s + t, file)
  {
    assert c[|a|..] == b[|a|..] + c[|b|..];
    BuiltFromAppend(b[|a|..], s, c[|b|..], t, file);
  }

  /** Every site the walk reports is a function-definition node. */
  lemma {:induction false} TreeSitesAreFunctions(node: Node, namespace: string)
    ensures forall s :: s in TreeSites(node, namespace) ==> s.node.kind == "function_definition"
    decreases node, 1, 0
  {
    ChildrenSitesAreFunctions(node, |node.children|, namespace);
  }

  lemma {:induction false} ChildrenSitesAreFunctions(node: Node, k: nat, namespace: string)
    requires k <= |node.children|
    ensures forall s :: s in ChildrenSites(node, k, namespace) ==> s.node.kind == "function_definition"
    decreases node, 0, k
  {
    if k > 0 {
      ChildrenSitesAreFunctions(node, k - 1, namespace);
      var c := node.children[k - 1];
      if c.kind == "namespace_definition" {
        TreeSitesAreFunctions(c, NamespaceOf(c, namespace));
      } else if c.kind != "function_definition" {
        TreeSitesAreFunctions(c, namespace);
      }
    }
  }

  /** A function definition directly under the root sits in the global namespace. */
  lemma TopLevelFunction(root: Node, k: nat)
    requires k < |root.children| && root.children[k].kind == "function_definition"
    ensures Site(root.children[k], "") in TreeSites(root, "")
  {
    assert Site(root.children[k], "") in ChildrenSites(root, k + 1, "");
    ChildrenSitesGrow(root, k + 1, |root.children|, "");
  }

  lemma {:induction false} ChildrenSitesGrow(node: Node, j: nat, k: nat, namespace: string)
    requires j <= k <= |node.children|
    ensures forall s :: s in ChildrenSites(node, j, namespace) ==> s in ChildrenSites(node, k, namespace)
    decreases k - j
  {
    if j < k {
      ChildrenSitesGrow(node, j, k - 1, namespace);
    }
  }

  /**
   * `n` is met by `process_tree(node, ...)`: it is a child of `node`, or lies
   * below a child that is not a function definition (the walk does not enter
   * a function definition, so one nested in another is never recorded).
   */
  ghost predicate Reached(node: Node, n: Node)
    decreases node, 1
  {
    exists i :: 0 <= i < |node.children| && ReachedVia(node.children[i], n)
  }

  /** `n` is the child `c` itself, or is reached from `c` when `c` is walked into. */
  ghost predicate ReachedVia(c: Node, n: Node)
    decreases c, 2
  {
    c == n || (c.kind != "function_definition" && Reached(c, n))
  }

  /**
   * The walk records exactly the function-definition nodes it reaches: a
   * definition inside namespaces, classes or other blocks is recorded (under
   * some namespace), one nested inside another function definition is not.
   */
  lemma {:induction false} TreeSitesExactlyReached(node: Node, namespace: string, n: Node)
    ensures (exists ns :: Site(n, ns) in TreeSites(node, namespace)) <==>
      n.kind == "function_definition" && Reached(node, n)
    decreases node, 1, 0
  {
    ChildrenSitesExactlyReached(node, |node.children|, namespace, n);
  }

  lemma {:induction false} ChildrenSitesExactlyReached(node: Node, k: nat, namespace: string, n: Node)
    requires k <= |node.children|
    ensures (exists ns :: Site(n, ns) in ChildrenSites(node, k, namespace)) <==>
      n.kind == "function_definition" && exists i :: 0 <= i < k && ReachedVia(node.children[i], n)
    decreases node, 0, k
  {
    if k > 0 {
      var c := node.children[k - 1];
      var before := ChildrenSites(node, k - 1, namespace);
      var mine := ChildTreeSites(c, namespace);
      assert ChildrenSites(node, k, namespace) == before + mine;
      ChildrenSitesExactlyReached(node, k - 1, namespace, n);
      ChildSitesExactlyReached(c, namespace, n);
      if ns :| Site(n, ns) in before + mine {
        if Site(n, ns) in before {
          var i :| 0 <= i < k - 1 && ReachedVia(node.children[i], n);
          assert 0 <= i < k && ReachedVia(node.children[i], n);
        } else {
          assert Site(n, ns) in mine;
          assert 0 <= k - 1 < k && ReachedVia(node.children[k - 1], n);
        }
      }
      if n.kind == "function_definition" && exists i :: 0 <= i < k && ReachedVia(node.children[i], n) {
        var i :| 0 <= i < k && ReachedVia(node.children[i], n);
        if i < k - 1 {
          var ns :| Site(n, ns) in before;
          assert Site(n, ns) in before + mine;
        } else {
          var ns :| Site(n, ns) in mine;
          assert Site(n, ns) in before + mine;
        }
      }
    }
  }

  lemma {:induction false} ChildSitesExactlyReached(c: Node, namespace: string, n: Node)
    ensures (exists ns :: Site(n, ns) in ChildTreeSites(c, namespace)) <==>
      n.kind == "function_definition" && ReachedVia(c, n)
    decreases c, 2, 0
  {
    if c.kind == "function_definition" {
      if n == c {
        assert Site(n, namespace) in ChildTreeSites(c, namespace);
      }
    } else if c.kind == "namespace_definition" {
      TreeSitesExactlyReached(c, NamespaceOf(c, namespace), n);
    } else {
      TreeSitesExactlyReached(c, namespace, n);
    }
  }

  /**
   * A definition directly inside a class body is recorded; the same
   * definition nested inside another function definition is not.
   */
  lemma NestedDefinitionExample(g: Node, f: Node, cls: Node, r1: Node, r2: Node)
    requires g.kind == "function_definition"
    requires f.kind == "function_definition" && f.children == [g]
    requires cls.kind == "class_specifier" && cls.children == [g]
    requires r1.children == [f] && r2.children == [cls]
    ensures !exists ns :: Site(g, ns) in TreeSites(r1, "")
    ensures exists ns :: Site(g, ns) in TreeSites(r2, "")
  {
    TreeSitesExactlyReached(r1, "", g);
    TreeSitesExactlyReached(r2, "", g);
    assert g in f.children;
    assert !ReachedVia(f, g);
    assert ReachedVia(cls.children[0], g);
    assert ReachedVia(r2.children[0], g);
  }

  // ---------------------------------------------------------------------------
  // The class

  class SourceCodeFile {
    const sourceFile: string
    var funcDefs: seq<FunctionDefinition>

    /** Every function definition belongs to this file and keeps its own invariant. */
    ghost predicate Valid()
      reads this, funcDefs
    {
      forall i :: 0 <= i < |funcDefs| ==> funcDefs[i].sourceFile == sourceFile && funcDefs[i].Valid()
    }

    /**
     * `SourceCodeFile(source_file, source_content)`: a file with content is
     * parsed (the tree is given) and walked from the root in the global
     * namespace; an empty file yields no function definitions.
     */
    constructor (sourceFile: string, sourceContent: string, tree: Node)
      requires FunctionsWellFormed(tree)
      ensures this.sourceFile == sourceFile
      ensures BuiltFrom(funcDefs, if sourceContent != "" then TreeSites(tree, "") else [], sourceFile)
      ensures forall j :: 0 <= j < |funcDefs| ==> fresh(funcDefs[j])
      ensures UnextractedFrom(0)
      ensures Valid()
    {
      this.sourceFile := sourceFile;
      funcDefs := [];
      new;
      if sourceContent != "" {
        ProcessTree(tree, "");
        assert funcDefs[0..] == funcDefs;
      }
    }

    /** `process_tree`: appends the definitions found under `node`, in document order. */
    method ProcessTree(node: Node, namespace: string)
      requires FunctionsWellFormed(node) && Valid()
      modifies this
      ensures Valid()
      ensures AppendedFrom(old(funcDefs), funcDefs, TreeSites(node, namespace), sourceFile)
      ensures forall j :: |old(funcDefs)| <= j < |funcDefs| ==> fresh(funcDefs[j])
      ensures UnextractedFrom(|old(funcDefs)|)
      decreases node, 1
    {
      for i := 0 to |node.children|
        invariant Valid()
        invariant AppendedFrom(old(funcDefs), funcDefs, ChildrenSites(node, i, namespace), sourceFile)
        invariant forall j :: |old(funcDefs)| <= j < |funcDefs| ==> fresh(funcDefs[j])
        invariant UnextractedFrom(|old(funcDefs)|)
      {
        var child := node.children[i];
        ghost var before := funcDefs;
        ProcessChild(child, namespace);
        AppendedFromTrans(old(funcDefs), before, funcDefs, ChildrenSites(node, i, namespace),
          ChildTreeSites(child, namespace), sourceFile);
      }
    }

    /** The definitions from position `from` on have no call sites recorded yet. */
    predicate UnextractedFrom(from: nat)
      reads this, funcDefs
    {
      forall j :: from <= j < |funcDefs| ==> funcDefs[j].baseCallsites == [] && funcDefs[j].detailedCallsites == []
    }

    /** The body of `process_tree`'s loop for one child: a function, a namespace, or a subtree to walk. */
    method ProcessChild(child: Node, namespace: string)
      requires if child.kind == "function_definition" then WellFormedFunction(child) && FieldExprsWellFormed(child)
               else FunctionsWellFormed(child)
      requires Valid()
      modifies this
      ensures Valid()
      ensures AppendedFrom(old(funcDefs), funcDefs, ChildTreeSites(child, namespace), sourceFile)
      ensures forall j :: 0 <= j < |old(funcDefs)| ==> funcDefs[j] == old(funcDefs[j])
      ensures forall j :: |old(funcDefs)| <= j < |funcDefs| ==> fresh(funcDefs[j])
      ensures UnextractedFrom(|old(funcDefs)|)
      decreases child, 3
    {
      if child.kind == "function_definition" {
        ProcessFunctionNode(child, namespace);
      } else if child.kind == "namespace_definition" {
        ProcessNamespaceNode(child, namespace);
      } else {
        ProcessTree(child, namespace);
      }
    }

    /** `_process_namespace_node`: the namespace's own contents, under the extended namespace. */
    method ProcessNamespaceNode(node: Node, namespace: string)
      requires FunctionsWellFormed(node) && Valid()
      modifies this
      ensures Valid()
      ensures AppendedFrom(old(funcDefs), funcDefs, TreeSites(node, NamespaceOf(node, namespace)), sourceFile)
      ensures forall j :: |old(funcDefs)| <= j < |funcDefs| ==> fresh(funcDefs[j])
      ensures UnextractedFrom(|old(funcDefs)|)
      decreases node, 2
    {
      var ns := namespace;
      var newNamespace := Field(node, "name");
      if newNamespace.Some? {
        var nn := newNamespace.value;
        if nn.kind == "nested_namespace_specifier" {
          for i := 0 to |nn.children|
            invariant ns == AppendNamedParts(namespace, nn.children[..i])
          {
            assert nn.children[..i + 1][..i] == nn.children[..i];
            var child := nn.children[i];
            if child.isNamed {
              ns := ns + "::" + child.text;
              if StartsWith(ns, "::") {
                ns := ns[2..];
              }
            }
          }
          assert nn.children[..|nn.children|] == nn.children;
        } else if nn.kind == "namespace_identifier" {
          ns := ns + "::" + nn.text;
          if StartsWith(ns, "::") {
            ns := ns[2..];
          }
        }
      }
      ProcessTree(node, ns);
    }

    /** `_process_function_node`: one new definition, appended. */
    method ProcessFunctionNode(node: Node, namespace: string)
      requires WellFormedFunction(node) && FieldExprsWellFormed(node) && Valid()
      modifies this
      ensures Valid()
      ensures AppendedFrom(old(funcDefs), funcDefs, [Site(node, namespace)], sourceFile)
      ensures forall j :: |old(funcDefs)| <= j < |funcDefs| ==> fresh(funcDefs[j])
      ensures UnextractedFrom(|old(funcDefs)|)
    {
      var f := new FunctionDefinition(node, sourceFile, namespace);
      funcDefs := funcDefs + [f];
      assert funcDefs[|old(funcDefs)|..] == [f];
    }

    /** `get_function_node(target, exact)` on this file's definitions. */
    method GetFunctionNode(target: string, exact: bool) returns (r: Option<FunctionDefinition>)
      ensures r == (match FindFunction(funcDefs, target, exact)
                    case Some(i) => Some(funcDefs[i])
                    case None => None)
    {
      r := Scan(target, Qualified);
      if r.Some? || exact {
        return r;
      }
      r := Scan(target, Simple);
      if r.Some? {
        return r;
      }
      r := Scan(target, LastSegmentOf);
    }

    /** One of the three scans of `get_function_node`: the first definition passing the test. */
    method Scan(target: string, kind: MatchKind) returns (r: Option<FunctionDefinition>)
      ensures r == (match FirstMatching(funcDefs, target, kind)
                    case Some(i) => Some(funcDefs[i])
                    case None => None)
    {
      for i := 0 to |funcDefs|
        invariant forall j :: 0 <= j < i ==> !Matches(funcDefs[j], target, kind)
      {
        if Matches(funcDefs[i], target, kind) {
          FirstMatchingAt(funcDefs, target, kind, i);
          return Some(funcDefs[i]);
        }
      }
      FirstMatchingProperties(funcDefs, target, kind);
      return None;
    }

    /** `has_libfuzzer_harness`. */
    method HasLibfuzzerHarness() returns (r: bool)
      ensures r <==> exists i :: 0 <= i < |funcDefs| && IsHarness(funcDefs[i])
    {
      for i := 0 to |funcDefs|
        invariant forall j :: 0 <= j < i ==> !IsHarness(funcDefs[j])
      {
        if Contains(funcDefs[i].name, "LLVMFuzzerTestOneInput") {
          return true;
        }
      }
      return false;
    }
  }

  // ---------------------------------------------------------------------------
  // Per-file lookup

  /** `namespace_or_class::name`, or just the name in the global namespace. */
  function FullName(f: FunctionDefinition): string {
    if f.namespaceOrClass != "" then f.namespaceOrClass + "::" + f.name else f.name
  }

  /** A libFuzzer entry point: its name mentions `LLVMFuzzerTestOneInput`. */
  predicate IsHarness(f: FunctionDefinition) {
    Contains(f.name, "LLVMFuzzerTestOneInput")
  }

  /** The file defines a libFuzzer entry point. */
  predicate HoldsHarness(file: SourceCodeFile)
    reads file
  {
    exists i :: 0 <= i < |file.funcDefs| && IsHarness(file.funcDefs[i])
  }

  /**
   * The definition `get_function_node` returns: the first whose qualified name
   * is the target; unless `exact`, then the first whose simple name is the
   * target, then the first whose simple name is the target's last segment.
   */
  function FindFunction(defs: seq<FunctionDefinition>, target: string, exact: bool): (r: Option<nat>)
    ensures r.Some? ==> r.value < |defs|
  {
    match FirstMatching(defs, target, Qualified)
    case Some(i) => Some(i)
    case None =>
      if exact then None
      else match FirstMatching(defs, target, Simple)
        case Some(i) => Some(i)
        case None => FirstMatching(defs, target, LastSegmentOf)
  }

  /** The three tests of `get_function_node`, in the order they are tried. */
  datatype MatchKind = Qualified | Simple | LastSegmentOf

  predicate Matches(f: FunctionDefinition, target: string, kind: MatchKind) {
    match kind
    case Qualified => FullName(f) == target
    case Simple => f.name == target
    case LastSegmentOf => f.name == LastSegment(target)
  }

  /** Position of the first definition passing the test. */
  function FirstMatching(defs: seq<FunctionDefinition>, target: string, kind: MatchKind): (r: Option<nat>)
    ensures r.Some? ==> r.value < |defs|
  {
    if defs == [] then None
    else if Matches(defs[0], target, kind) then Some(0)
    else match FirstMatching(defs[1..], target, kind)
      case None => None
      case Some(i) => Some(i + 1)
  }

  /** The position found passes the test and none before it does; no position is found only when none passes. */
  lemma {:induction false} FirstMatchingProperties(defs: seq<FunctionDefinition>, target: string, kind: MatchKind)
    ensures var r := FirstMatching(defs, target, kind);
      && (r.Some? ==> Matches(defs[r.value], target, kind))
      && (r.Some? ==> forall j :: 0 <= j < r.value ==> !Matches(defs[j], target, kind))
      && (r.None? ==> forall j :: 0 <= j < |defs| ==> !Matches(defs[j], target, kind))
  {
    if defs != [] && !Matches(defs[0], target, kind) {
      var rest := defs[1..];
      FirstMatchingProperties(rest, target, kind);
      assert FirstMatching(defs, target, kind) ==
        if FirstMatching(rest, target, kind).Some? then Some(FirstMatching(rest, target, kind).value + 1) else None;
      assert forall j :: 1 <= j < |defs| ==> defs[j] == rest[j - 1];
    }
  }

  /** The first definition passing the test is the one found. */
  lemma FirstMatchingAt(defs: seq<FunctionDefinition>, target: string, kind: MatchKind, i: nat)
    requires i < |defs| && Matches(defs[i], target, kind)
    requires forall j :: 0 <= j < i ==> !Matches(defs[j], target, kind)
    ensures FirstMatching(defs, target, kind) == Some(i)
  {
    var r := FirstMatching(defs, target, kind);
    FirstMatchingProperties(defs, target, kind);
    assert r.Some?;
    assert !(r.value < i) && !(i < r.value);
  }

  /**
   * An exact hit is the first definition with that qualified name, and the
   * fuzzy lookup returns the same one; the fuzzy lookup fails only when no
   * definition has the target as its qualified name, as its simple name or as
   * the simple name of its last segment.
   */
  lemma FindFunctionProperties(defs: seq<FunctionDefinition>, target: string)
    ensures FindFunction(defs, target, true).Some? <==> exists i :: 0 <= i < |defs| && FullName(defs[i]) == target
    ensures FindFunction(defs, target, true).Some? ==>
      var i := FindFunction(defs, target, true).value;
      && FullName(defs[i]) == target
      && (forall j :: 0 <= j < i ==> FullName(defs[j]) != target)
      && FindFunction(defs, target, false) == Some(i)
    ensures FindFunction(defs, target, false).Some? ==>
      var f := defs[FindFunction(defs, target, false).value];
      FullName(f) == target || f.name == target || f.name == LastSegment(target)
    ensures FindFunction(defs, target, false).None? <==>
      forall i :: 0 <= i < |defs| ==>
        FullName(defs[i]) != target && defs[i].name != target && defs[i].name != LastSegment(target)
  {
    FirstMatchingProperties(defs, target, Qualified);
    FirstMatchingProperties(defs, target, Simple);
    FirstMatchingProperties(defs, target, LastSegmentOf);
  }
}
