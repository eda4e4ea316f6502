/**
 * `FunctionDefinition`: one function definition of a source file, with what
 * the extraction found at construction time (signature, name, qualifier,
 * return type, parameters, lines and metrics) and the call sites found later
 * by `extract_callsites`, which fills two fields in place.
 */
module FunctionDefs {
  import opened Basics
  import opened Strings
  import opened Syntax
  import opened Metrics
  import opened Signatures
  import opened FunctionMaps

  /** One call found in the body: callee name, end byte of the node that locates it, 1-based line. */
  datatype RawCallsite = RawCallsite(name: string, endByte: nat, line: nat)

  /** A `{'Src': ..., 'Dst': ...}` entry of `detailed_callsites`. */
  datatype DetailedCallsite = DetailedCallsite(src: string, dst: string)

  class FunctionDefinition {
    const root: Node
    const sourceFile: string
    const sig: string
    const name: string
    const namespaceOrClass: string
    const returnType: string
    const argNames: seq<string>
    const argTypes: seq<string>
    const startLine: nat
    const endLine: nat
    const complexity: nat
    const icount: nat
    var baseCallsites: seq<(string, nat)>
    var detailedCallsites: seq<DetailedCallsite>

    /** The node satisfies what the extraction and the call-site walk read without checking. */
    predicate WellFormedRoot() {
      WellFormedFunction(root) && FieldExprsWellFormed(root)
    }

    /** The constant fields are what the extraction yields for `node` in `file` under `namespace`. */
    predicate ExtractedFrom(node: Node, file: string, namespace: string)
      requires WellFormedFunction(node)
    {
      && root == node
      && sourceFile == file
      && Signature(sig, name, namespaceOrClass, returnType, argNames, argTypes) == SignatureOf(node, namespace)
      && startLine == node.startRow + 1
      && endLine == node.endRow + 1
      && complexity == Complexity(node)
      && icount == ICount(node)
    }

    /** The call sites this function's body yields (they do not depend on the function map). */
    function RawCallsites(): seq<RawCallsite>
      requires WellFormedRoot()
    {
      BodySites(root, namespaceOrClass, [])
    }

    /** The call-site fields are either not yet filled or hold the extraction's result. */
    ghost predicate Valid()
      reads this
    {
      && WellFormedRoot()
      && (baseCallsites == [] || IsBaseCallsitesOf(baseCallsites, RawCallsites()))
      && detailedCallsites == DetailedOf(sourceFile, baseCallsites)
    }

    /** `base` and `detailed` are what `extract_callsites` stores for this function. */
    ghost predicate ExtractedWith(base: seq<(string, nat)>, detailed: seq<DetailedCallsite>) {
      WellFormedRoot() && IsBaseCallsitesOf(base, RawCallsites()) && detailed == DetailedOf(sourceFile, base)
    }

    /** `extract_callsites` has filled the fields (or there is nothing to fill). */
    ghost predicate Extracted()
      reads this
    {
      Valid() && IsBaseCallsitesOf(baseCallsites, RawCallsites())
    }

    /** Being extracted is a property of the two call-site fields' values alone. */
    lemma ExtractedMeansWith()
      ensures Extracted() <==> ExtractedWith(baseCallsites, detailedCallsites)
    {
    }

    /** `FunctionDefinition(root, lang, source_code, namespace)`, with `_extract_information`. */
    constructor (root: Node, sourceFile: string, namespace: string)
      requires WellFormedFunction(root) && FieldExprsWellFormed(root)
      ensures ExtractedFrom(root, sourceFile, namespace)
      ensures baseCallsites == [] && detailedCallsites == []
      ensures Valid()
    {
      this.root := root;
      this.sourceFile := sourceFile;
      startLine := root.startRow + 1;
      endLine := root.endRow + 1;
      var s := ExtractInformation(root, namespace);
      sig := s.sig;
      name := s.name;
      namespaceOrClass := s.namespaceOrClass;
      returnType := s.returnType;
      argNames := s.argNames;
      argTypes := s.argTypes;
      complexity := Complexity(root);
      icount := ICount(root);
      baseCallsites := [];
      detailedCallsites := [];
    }

    /**
     * `extract_callsites(functions)`: fills `base_callsites` (when empty) with
     * the body's call sites, de-duplicated and ordered by end byte, and
     * `detailed_callsites` (when empty) from them. A second call changes nothing.
     */
    method ExtractCallsites(functions: FunctionMap<FunctionDefinition>)
      requires Valid()
      modifies this
      ensures Extracted()
      ensures old(baseCallsites) != [] ==> baseCallsites == old(baseCallsites)
      ensures old(Extracted()) ==> baseCallsites == old(baseCallsites) && detailedCallsites == old(detailedCallsites)
    {
      if baseCallsites == [] {
        var callsites := CollectCallsites(root, namespaceOrClass, functions);
        BodySitesIgnoreMap(root, namespaceOrClass, functions, []);
        var sorted := SortedSet(callsites);
        ghost var was := baseCallsites;
        baseCallsites := Locations(sorted);
        assert IsBaseCallsitesOf(baseCallsites, RawCallsites());
        if old(Extracted()) {
          BaseCallsitesEmpty(was, baseCallsites, callsites);
        }
      }
      assert DetailedOf(sourceFile, []) == [];
      if detailedCallsites == [] {
        detailedCallsites := DetailedCallsites(sourceFile, baseCallsites);
      }
    }
  }

  /** The loop over the function node's children, collecting each child's call sites. */
  method CollectCallsites(root: Node, namespace: string, functions: FunctionMap<FunctionDefinition>)
    returns (callsites: seq<RawCallsite>)
    requires FieldExprsWellFormed(root)
    ensures callsites == BodySites(root, namespace, functions)
  {
    callsites := [];
    for i := 0 to |root.children|
      invariant callsites == ChildSites(root, i, namespace, functions)
    {
      ChildWellFormed(root, root.children[i]);
      callsites := callsites + StmtSites(root.children[i], namespace, functions);
    }
  }

  /** The loop filling `detailed_callsites` from the stored call sites. */
  method DetailedCallsites(sourceFile: string, base: seq<(string, nat)>) returns (detailed: seq<DetailedCallsite>)
    ensures detailed == DetailedOf(sourceFile, base)
  {
    detailed := [];
    for i := 0 to |base|
      invariant detailed == DetailedOf(sourceFile, base[..i])
    {
      var dst := base[i].0;
      var srcLine := base[i].1;
      var srcLoc := sourceFile + ":" + NatToString(srcLine) + ",1";
      detailed := detailed + [DetailedCallsite(srcLoc, dst)];
    }
    assert base[..|base|] == base;
  }

  // ---------------------------------------------------------------------------
  // Call sites of a body

  lemma ChildWellFormed(n: Node, c: Node)
    requires FieldExprsWellFormed(n) && c in n.children
    ensures FieldExprsWellFormed(c)
  {
    var i :| 0 <= i < |n.children| && n.children[i] == c;
  }

  /**
   * `_process_field_expr_return_type`: the full name of a member call and the
   * return type of the function it resolves to. The receiver of a chained call
   * contributes its own FULL NAME (the first component of the inner result is
   * discarded); `this` contributes the enclosing namespace or class.
   */
  function FieldExprReturnType(fe: Node, namespace: string, functions: FunctionMap<FunctionDefinition>): (Option<string>, string)
    requires fe.kind == "field_expression" && FieldExprsWellFormed(fe)
    decreases fe
  {
    var arg := Field(fe, "argument").value;
    var name := Field(fe, "field").value.text;
    var objectType: Option<string> :=
      if arg.kind == "field_expression" then
        ChildWellFormed(fe, arg);
        Some(FieldExprReturnType(arg, namespace, functions).1)
      else if arg.kind == "this" then Some(namespace)
      else None;
    if objectType.Some? && objectType.value != "" then
      var fullName := if objectType.value == "void" then name else objectType.value + "::" + name;
      var typ := match Resolve(fullName, functions, false)
                 case Some(i) => Some(functions[i].1.returnType)
                 case None => None;
      (typ, fullName)
    else
      (None, name)
  }

  /** The full name a member call records: the return type looked up on the way plays no part. */
  lemma {:induction false} FieldExprNameIgnoresMap(fe: Node, namespace: string, m1: FunctionMap<FunctionDefinition>, m2: FunctionMap<FunctionDefinition>)
    requires fe.kind == "field_expression" && FieldExprsWellFormed(fe)
    ensures FieldExprReturnType(fe, namespace, m1).1 == FieldExprReturnType(fe, namespace, m2).1
    decreases fe
  {
    var arg := Field(fe, "argument").value;
    if arg.kind == "field_expression" {
      ChildWellFormed(fe, arg);
      FieldExprNameIgnoresMap(arg, namespace, m1, m2);
    }
  }

  /** A call through `obj.f` or `this->f` is recorded as `f`, or as `Class::f` when the receiver is `this` inside `Class`. */
  lemma FieldExprNameExamples(fe: Node, namespace: string, functions: FunctionMap<FunctionDefinition>)
    requires fe.kind == "field_expression" && FieldExprsWellFormed(fe)
    ensures var arg := Field(fe, "argument").value;
      var name := Field(fe, "field").value.text;
      && (arg.kind != "field_expression" && arg.kind != "this" ==> FieldExprReturnType(fe, namespace, functions) == (None, name))
      && (arg.kind == "this" && namespace != "" && namespace != "void" ==>
            FieldExprReturnType(fe, namespace, functions).1 == namespace + "::" + name)
      && (arg.kind == "this" && namespace == "" ==> FieldExprReturnType(fe, namespace, functions) == (None, name))
  {
  }

  predicate IsSimpleCallee(kind: string) {
    kind == "identifier" || kind == "qualified_identifier" || kind == "template_function"
  }

  /**
   * `_process_invoke`: a plain callee is recorded when its text is non-empty;
   * a member callee is recorded once unconditionally and a second time when
   * its full name is non-empty. Both use the callee node's end byte and line.
   */
  function InvokeSites(expr: Node, namespace: string, functions: FunctionMap<FunctionDefinition>): seq<RawCallsite>
    requires FieldExprsWellFormed(expr)
  {
    match Field(expr, "function")
    case None => []
    case Some(func) =>
      var at := (n: string) => RawCallsite(n, func.endByte, func.startRow + 1);
      if IsSimpleCallee(func.kind) then
        (if func.text != "" then [at(func.text)] else [])
      else if func.kind == "field_expression" then
        ChildWellFormed(expr, func);
        var target := FieldExprReturnType(func, namespace, functions).1;
        [at(target)] + (if target != "" then [at(target)] else [])
      else []
  }

  /** The call sites a statement node itself contributes, before its children's. */
  function OwnSites(stmt: Node, namespace: string, functions: FunctionMap<FunctionDefinition>): seq<RawCallsite>
    requires FieldExprsWellFormed(stmt)
  {
    if stmt.kind == "call_expression" then InvokeSites(stmt, namespace, functions)
    else if stmt.kind == "new_expression" then
      match Field(stmt, "type")
      case Some(t) => [RawCallsite(t.text, stmt.endByte, stmt.startRow + 1)]
      case None => []
    else []
  }

  /** `_process_callsites(stmt)`: the node's own sites, then its children's, in document order. */
  function StmtSites(stmt: Node, namespace: string, functions: FunctionMap<FunctionDefinition>): seq<RawCallsite>
    requires FieldExprsWellFormed(stmt)
    decreases stmt, 1, 0
  {
    OwnSites(stmt, namespace, functions) + ChildSites(stmt, |stmt.children|, namespace, functions)
  }

  /** The concatenated sites of the first `k` children of `n`. */
  function ChildSites(n: Node, k: nat, namespace: string, functions: FunctionMap<FunctionDefinition>): seq<RawCallsite>
    requires FieldExprsWellFormed(n) && k <= |n.children|
    decreases n, 0, k
  {
    if k == 0 then []
    else ChildSites(n, k - 1, namespace, functions) + StmtSites(n.children[k - 1], namespace, functions)
  }

  /** All call sites of a function body: those of every child of the function node. */
  function BodySites(root: Node, namespace: string, functions: FunctionMap<FunctionDefinition>): seq<RawCallsite>
    requires FieldExprsWellFormed(root)
  {
    ChildSites(root, |root.children|, namespace, functions)
  }

  lemma {:induction false} StmtSitesIgnoreMap(stmt: Node, namespace: string, m1: FunctionMap<FunctionDefinition>, m2: FunctionMap<FunctionDefinition>)
    requires FieldExprsWellFormed(stmt)
    ensures StmtSites(stmt, namespace, m1) == StmtSites(stmt, namespace, m2)
    decreases stmt, 1, 0
  {
    if stmt.kind == "call_expression" {
      match Field(stmt, "function")
      case None =>
      case Some(func) =>
        if func.kind == "field_expression" {
          ChildWellFormed(stmt, func);
          FieldExprNameIgnoresMap(func, namespace, m1, m2);
        }
    }
    ChildSitesIgnoreMap(stmt, |stmt.children|, namespace, m1, m2);
  }

  lemma {:induction false} ChildSitesIgnoreMap(n: Node, k: nat, namespace: string, m1: FunctionMap<FunctionDefinition>, m2: FunctionMap<FunctionDefinition>)
    requires FieldExprsWellFormed(n) && k <= |n.children|
    ensures ChildSites(n, k, namespace, m1) == ChildSites(n, k, namespace, m2)
    decreases n, 0, k
  {
    if k > 0 {
      var c := n.children[k - 1];
      assert FieldExprsWellFormed(c);
      ChildSitesIgnoreMap(n, k - 1, namespace, m1, m2);
      StmtSitesIgnoreMap(c, namespace, m1, m2);
      assert ChildSites(n, k, namespace, m1) == ChildSites(n, k - 1, namespace, m1) + StmtSites(c, namespace, m1);
      assert ChildSites(n, k, namespace, m2) == ChildSites(n, k - 1, namespace, m2) + StmtSites(c, namespace, m2);
    }
  }

  /** The call sites of a body are the same whatever function map the extraction is given. */
  lemma BodySitesIgnoreMap(root: Node, namespace: string, m1: FunctionMap<FunctionDefinition>, m2: FunctionMap<FunctionDefinition>)
    requires FieldExprsWellFormed(root)
    ensures BodySites(root, namespace, m1) == BodySites(root, namespace, m2)
  {
    ChildSitesIgnoreMap(root, |root.children|, namespace, m1, m2);
  }

  /**
   * A member call whose full name is non-empty is recorded twice, as one and
   * the same triple, so that de-duplication leaves one call site.
   */
  lemma MemberCallRecordedTwice(expr: Node, namespace: string, functions: FunctionMap<FunctionDefinition>)
    requires FieldExprsWellFormed(expr) && expr.kind == "call_expression"
    requires Field(expr, "function").Some? && Field(expr, "function").value.kind == "field_expression"
    requires FieldExprsWellFormed(Field(expr, "function").value)
    ensures var func := Field(expr, "function").value;
      var target := FieldExprReturnType(func, namespace, functions).1;
      var c := RawCallsite(target, func.endByte, func.startRow + 1);
      && (target != "" ==> OwnSites(expr, namespace, functions) == [c, c])
      && (target == "" ==> OwnSites(expr, namespace, functions) == [c])
      && (set x | x in OwnSites(expr, namespace, functions)) == {c}
  {
    var func := Field(expr, "function").value;
    ChildWellFormed(expr, func);
    var target := FieldExprReturnType(func, namespace, functions).1;
    var c := RawCallsite(target, func.endByte, func.startRow + 1);
    assert !IsSimpleCallee(func.kind);
    var own := OwnSites(expr, namespace, functions);
    assert c in own;
  }

  // ---------------------------------------------------------------------------
  // `sorted(set(callsites), key=lambda x: x[1])`

  predicate SortedByEnd(s: seq<RawCallsite>) {
    forall i, j :: 0 <= i < j < |s| ==> s[i].endByte <= s[j].endByte
  }

  ghost predicate Distinct<T>(s: seq<T>) {
    forall i, j :: 0 <= i < j < |s| ==> s[i] != s[j]
  }

  /** `s` lists the distinct elements of `raw`, once each, by non-decreasing end byte. */
  ghost predicate IsSortedSetOf(s: seq<RawCallsite>, raw: seq<RawCallsite>) {
    SortedByEnd(s) && Distinct(s) && (forall x :: x in s <==> x in raw)
  }

  /** Inserts `x` before the first element with a larger end byte. */
  function InsertByEnd(s: seq<RawCallsite>, x: RawCallsite): (r: seq<RawCallsite>)
    ensures |r| == |s| + 1
  {
    if s == [] then [x]
    else if x.endByte < s[0].endByte then [x] + s
    else [s[0]] + InsertByEnd(s[1..], x)
  }

  /** Insertion adds exactly `x`. */
  lemma {:induction false} InsertByEndMembers(s: seq<RawCallsite>, x: RawCallsite)
    ensures forall y :: y in InsertByEnd(s, x) <==> y in s || y == x
  {
    if s != [] && s[0].endByte <= x.endByte {
      InsertByEndMembers(s[1..], x);
      assert forall y :: y in s <==> y == s[0] || y in s[1..];
    }
  }

  /** Insertion keeps the order by end byte. */
  lemma {:induction false} InsertByEndSorted(s: seq<RawCallsite>, x: RawCallsite)
    requires SortedByEnd(s)
    ensures SortedByEnd(InsertByEnd(s, x))
  {
    if s != [] && s[0].endByte <= x.endByte {
      var rest := InsertByEnd(s[1..], x);
      InsertByEndSorted(s[1..], x);
      InsertByEndMembers(s[1..], x);
      assert forall j :: 0 <= j < |rest| ==> rest[j] in rest;
      assert forall j :: 0 <= j < |rest| ==> s[0].endByte <= rest[j].endByte;
    }
  }

  /** Inserting an element not yet present keeps the elements distinct. */
  lemma {:induction false} InsertByEndDistinct(s: seq<RawCallsite>, x: RawCallsite)
    requires Distinct(s) && x !in s
    ensures Distinct(InsertByEnd(s, x))
  {
    if s != [] && s[0].endByte <= x.endByte {
      InsertByEndDistinct(s[1..], x);
      InsertByEndMembers(s[1..], x);
      assert s[0] !in s[1..];
    }
  }

  /** One ordering the library sort may produce (ties between equal end bytes are left to it). */
  function SortedSet(raw: seq<RawCallsite>): (r: seq<RawCallsite>)
    ensures IsSortedSetOf(r, raw)
  {
    if raw == [] then []
    else
      var r := SortedSet(raw[..|raw| - 1]);
      assert raw == raw[..|raw| - 1] + [raw[|raw| - 1]];
      if raw[|raw| - 1] in r then r
      else
        InsertByEndMembers(r, raw[|raw| - 1]);
        InsertByEndSorted(r, raw[|raw| - 1]);
        InsertByEndDistinct(r, raw[|raw| - 1]);
        InsertByEnd(r, raw[|raw| - 1])
  }

  /** `[(x[0], x[2]) for x in callsites]`. */
  function Locations(s: seq<RawCallsite>): (r: seq<(string, nat)>)
    ensures |r| == |s|
    ensures forall i :: 0 <= i < |s| ==> r[i] == (s[i].name, s[i].line)
  {
    seq(|s|, i requires 0 <= i < |s| => (s[i].name, s[i].line))
  }

  /** `base` is what `extract_callsites` stores for the call sites `raw`, for some order of the ties. */
  ghost predicate IsBaseCallsitesOf(base: seq<(string, nat)>, raw: seq<RawCallsite>) {
    exists s :: IsSortedSetOf(s, raw) && base == Locations(s)
  }

  lemma {:induction false} DistinctCard<T>(s: seq<T>)
    requires Distinct(s)
    ensures |set x | x in s| == |s|
    decreases |s|
  {
    if s != [] {
      var init := s[..|s| - 1];
      DistinctCard(init);
      assert (set x | x in s) == (set x | x in init) + {s[|s| - 1]};
      assert s[|s| - 1] !in init;
    }
  }

  /**
   * One stored call site per DISTINCT (name, end byte, line) triple; every
   * stored entry comes from a call site of the body and every call site of
   * the body is stored.
   */
  lemma BaseCallsitesProperties(base: seq<(string, nat)>, raw: seq<RawCallsite>)
    requires IsBaseCallsitesOf(base, raw)
    ensures |base| == |set x | x in raw|
    ensures forall i :: 0 <= i < |base| ==> exists c :: c in raw && base[i] == (c.name, c.line)
    ensures forall c :: c in raw ==> (c.name, c.line) in base
  {
    var s :| IsSortedSetOf(s, raw) && base == Locations(s);
    DistinctCard(s);
    assert (set x | x in s) == (set x | x in raw);
    forall c | c in raw
      ensures (c.name, c.line) in base
    {
      var i :| 0 <= i < |s| && s[i] == c;
      assert base[i] == (c.name, c.line);
    }
    forall i | 0 <= i < |base|
      ensures exists c :: c in raw && base[i] == (c.name, c.line)
    {
      assert s[i] in raw;
    }
  }

  /** Whatever tie order is used, an empty result can only come from a body without call sites. */
  lemma BaseCallsitesEmpty(b1: seq<(string, nat)>, b2: seq<(string, nat)>, raw: seq<RawCallsite>)
    requires IsBaseCallsitesOf(b1, raw) && IsBaseCallsitesOf(b2, raw) && b1 == []
    ensures b2 == []
  {
    var s1 :| IsSortedSetOf(s1, raw) && b1 == Locations(s1);
    var s2 :| IsSortedSetOf(s2, raw) && b2 == Locations(s2);
    assert |s1| == 0;
    DistinctCard(s2);
    assert (set x | x in s2) == {};
  }

  // ---------------------------------------------------------------------------
  // `detailed_callsites`

  /** `source_file + ':%d,1' % line`. */
  function SrcLocation(file: string, line: nat): string {
    file + ":" + NatToString(line) + ",1"
  }

  /** `{'Src': ..., 'Dst': name}` for each stored call site, in order. */
  function DetailedOf(file: string, base: seq<(string, nat)>): seq<DetailedCallsite> {
    seq(|base|, i requires 0 <= i < |base| => DetailedCallsite(SrcLocation(file, base[i].1), base[i].0))
  }

  /**
   * A detailed location reads back as the file and the line: the file, a
   * colon, the decimal line number, then ",1".
   */
  lemma SrcLocationReadsBack(file: string, line: nat)
    ensures var src := SrcLocation(file, line);
      && |file| + 3 <= |src|
      && src[..|file| + 1] == file + ":"
      && src[|src| - 2..] == ",1"
      && ParseNat(src[|file| + 1..|src| - 2]) == line
  {
    var digits := NatToString(line);
    var src := SrcLocation(file, line);
    ParseNatToString(line);
    assert src[..|file| + 1] == file + ":";
    assert src[|src| - 2..] == ",1";
    assert src[|file| + 1..|src| - 2] == digits;
  }
}
