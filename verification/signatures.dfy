/**
 * What one function-definition node says about its function
 * (`FunctionDefinition._extract_information`): the signature text, the simple
 * name and namespace/class qualifier, the return type and the parameters.
 */
module Signatures {
  import opened Basics
  import opened Strings
  import opened Syntax

  /** A child whose kind mentions "identifier" (identifier, qualified_identifier, field_identifier, ...). */
  predicate IsIdentifierLike(n: Node) {
    Contains(n.kind, "identifier")
  }

  // ---------------------------------------------------------------------------
  // Name and parameter list: a scan of the declarator's children

  /** What the scan of the declarator's children has found so far. */
  datatype Scan = Scan(name: string, paramList: Option<Node>)

  /** One child of a nested `function_declarator`. */
  function InnerStep(acc: Scan, d: Node): Scan {
    if IsIdentifierLike(d) then acc.(name := d.text)
    else if d.kind == "parameter_list" then acc.(paramList := Some(d))
    else acc
  }

  function ScanInner(acc: Scan, ds: seq<Node>): Scan {
    if ds == [] then acc else InnerStep(ScanInner(acc, ds[..|ds| - 1]), ds[|ds| - 1])
  }

  /** One child of the declarator. */
  function OuterStep(acc: Scan, c: Node): Scan {
    if IsIdentifierLike(c) then acc.(name := c.text)
    else if c.kind == "function_declarator" then ScanInner(acc, c.children)
    else if c.kind == "parameter_list" then acc.(paramList := Some(c))
    else acc
  }

  /** The scan over the declarator's children, starting from no name and no parameter list. */
  function ScanDeclarator(cs: seq<Node>): Scan {
    if cs == [] then Scan("", None) else OuterStep(ScanDeclarator(cs[..|cs| - 1]), cs[|cs| - 1])
  }

  // Reference view of the scan: the candidates in document order; the last one wins.

  function LastOr<T>(s: seq<T>, default: T): T {
    if s == [] then default else s[|s| - 1]
  }

  /** Texts of the identifier-like nodes among `ds`. */
  function IdentifierTexts(ds: seq<Node>): seq<string> {
    if ds == [] then []
    else IdentifierTexts(ds[..|ds| - 1]) + (if IsIdentifierLike(ds[|ds| - 1]) then [ds[|ds| - 1].text] else [])
  }

  /** The `parameter_list` nodes among `ds`. */
  function ParameterLists(ds: seq<Node>): seq<Node> {
    if ds == [] then []
    else
      var d := ds[|ds| - 1];
      ParameterLists(ds[..|ds| - 1]) + (if !IsIdentifierLike(d) && d.kind == "parameter_list" then [d] else [])
  }

  /** Name candidates: identifier-like children, and those of a nested function declarator. */
  function NameCandidates(cs: seq<Node>): seq<string> {
    if cs == [] then []
    else
      var c := cs[|cs| - 1];
      NameCandidates(cs[..|cs| - 1])
        + (if IsIdentifierLike(c) then [c.text]
           else if c.kind == "function_declarator" then IdentifierTexts(c.children)
           else [])
  }

  /** Parameter-list candidates, directly under the declarator or one level deeper. */
  function ParamListCandidates(cs: seq<Node>): seq<Node> {
    if cs == [] then []
    else
      var c := cs[|cs| - 1];
      ParamListCandidates(cs[..|cs| - 1])
        + (if IsIdentifierLike(c) then []
           else if c.kind == "function_declarator" then ParameterLists(c.children)
           else if c.kind == "parameter_list" then [c]
           else [])
  }

  lemma LastOrAppend<T>(a: seq<T>, b: seq<T>, d: T)
    ensures LastOr(a + b, d) == LastOr(b, LastOr(a, d))
  {
    if b == [] {
      assert a + b == a;
    }
  }

  lemma {:induction false} ScanInnerIsLastCandidate(acc: Scan, ds: seq<Node>)
    ensures ScanInner(acc, ds).name == LastOr(IdentifierTexts(ds), acc.name)
    ensures ScanInner(acc, ds).paramList == LastOr(Wrap(ParameterLists(ds)), acc.paramList)
  {
    if ds != [] {
      var init := ds[..|ds| - 1];
      var d := ds[|ds| - 1];
      ScanInnerIsLastCandidate(acc, init);
      LastOrAppend(IdentifierTexts(init), if IsIdentifierLike(d) then [d.text] else [], acc.name);
      WrapAppend(ParameterLists(init), if !IsIdentifierLike(d) && d.kind == "parameter_list" then [d] else []);
      LastOrAppend(Wrap(ParameterLists(init)),
        Wrap(if !IsIdentifierLike(d) && d.kind == "parameter_list" then [d] else []), acc.paramList);
    }
  }

  function Wrap(ns: seq<Node>): seq<Option<Node>> {
    seq(|ns|, i requires 0 <= i < |ns| => Some(ns[i]))
  }

  lemma WrapAppend(a: seq<Node>, b: seq<Node>)
    ensures Wrap(a + b) == Wrap(a) + Wrap(b)
  {
  }

  /**
   * The name the scan settles on is the LAST identifier-like child of the
   * declarator or of its nested function declarator ("" if there is none), and
   * the parameter list is the last one found at either level.
   */
  lemma {:induction false} ScanIsLastCandidate(cs: seq<Node>)
    ensures ScanDeclarator(cs).name == LastOr(NameCandidates(cs), "")
    ensures ScanDeclarator(cs).paramList == LastOr(Wrap(ParamListCandidates(cs)), None)
  {
    if cs != [] {
      var init := cs[..|cs| - 1];
      var c := cs[|cs| - 1];
      ScanIsLastCandidate(init);
      var acc := ScanDeclarator(init);
      var names: seq<string> :=
        if IsIdentifierLike(c) then [c.text]
        else if c.kind == "function_declarator" then IdentifierTexts(c.children)
        else [];
      var lists: seq<Node> :=
        if IsIdentifierLike(c) then []
        else if c.kind == "function_declarator" then ParameterLists(c.children)
        else if c.kind == "parameter_list" then [c]
        else [];
      LastOrAppend(NameCandidates(init), names, "");
      WrapAppend(ParamListCandidates(init), lists);
      LastOrAppend(Wrap(ParamListCandidates(init)), Wrap(lists), None);
      if !IsIdentifierLike(c) && c.kind == "function_declarator" {
        ScanInnerIsLastCandidate(acc, c.children);
      }
    }
  }

  // ---------------------------------------------------------------------------
  // Qualified names

  /** A simple name together with its namespace/class qualifier. */
  datatype QualifiedName = QualifiedName(qualifier: string, name: string)

  /** The separator occurs in `s` exactly when `::` is a substring of it. */
  lemma ContainsSeparator(s: string)
    ensures Contains(s, "::") <==> FindLastSep(s).Some?
  {
    ContainsIsSubstring(s, "::");
    if FindLastSep(s).Some? {
      assert OccursAt("::", s, FindLastSep(s).value);
    }
    if IsSubstring("::", s) {
      var i :| OccursAt("::", s, i);
      assert s[i..i + 2][0] == s[i] && s[i..i + 2][1] == s[i + 1];
      assert IsSepAt(s, i);
    }
  }

  /**
   * A declarator name `p::n` is split at its LAST `::`: the simple name is
   * `n`, and the qualifier is `enclosing::p` when both parts are non-empty,
   * otherwise just `p`. A name without `::` keeps the enclosing qualifier.
   */
  function SplitQualified(name: string, enclosing: string): (r: QualifiedName)
    ensures !Contains(name, "::") ==> r == QualifiedName(enclosing, name)
    ensures Contains(name, "::") ==> |r.name| + 2 <= |name|
    ensures Contains(name, "::") ==> FindLastSep(name) == Some(|name| - |r.name| - 2)
    ensures Contains(name, "::") && |r.name| + 2 <= |name| ==>
      var prefix := name[..|name| - |r.name| - 2];
      && name == prefix + "::" + r.name
      && r.qualifier == (if enclosing != "" && prefix != "" then enclosing + "::" + prefix else prefix)
  {
    if Contains(name, "::") then
      ContainsSeparator(name);
      var j := FindLastSep(name).value;
      var prefix := name[..j];
      assert name == prefix + "::" + name[j + 2..];
      QualifiedName(if enclosing != "" && prefix != "" then enclosing + "::" + prefix else prefix, name[j + 2..])
    else
      QualifiedName(enclosing, name)
  }

  /** After the split, the simple name never contains `::`. */
  lemma SplitNameHasNoSeparator(name: string, enclosing: string)
    ensures !Contains(SplitQualified(name, enclosing).name, "::")
  {
    var r := SplitQualified(name, enclosing);
    if Contains(name, "::") {
      var j := |name| - |r.name| - 2;
      assert r.name == name[j + 2..] by {
        var prefix := name[..j];
        assert name == prefix + "::" + r.name;
        assert |prefix + "::"| == j + 2;
      }
      NothingAfterLastSep(name, j);
      ContainsSeparator(r.name);
    }
  }

  /** Past the last `::` of `s` there is no further `::`. */
  lemma NothingAfterLastSep(s: string, j: nat)
    requires FindLastSep(s) == Some(j)
    ensures FindLastSep(s[j + 2..]).None?
  {
    var t := s[j + 2..];
    if FindLastSep(t).Some? {
      var i := FindLastSep(t).value;
      SepInSuffix(s, j + 2, i);
      assert false;
    }
  }

  /** A `::` at position `i` of the suffix `s[k..]` is a `::` at position `k + i` of `s`. */
  lemma SepInSuffix(s: string, k: nat, i: nat)
    requires k <= |s| && IsSepAt(s[k..], i)
    ensures IsSepAt(s, k + i)
  {
    assert s[k..][i] == s[k + i] && s[k..][i + 1] == s[k + i + 1];
  }

  /** `a::b::f` at top level is `f` in `a::b`; inside namespace `ns` it is `f` in `ns::a::b`. */
  lemma SplitQualifiedExample(enclosing: string)
    requires enclosing == "" || enclosing == "ns"
    ensures SplitQualified("a::b::f", enclosing)
      == QualifiedName(if enclosing == "" then "a::b" else "ns::a::b", "f")
  {
    var s := "a::b::f";
    assert IsSepAt(s, 4);
    ContainsSeparator(s);
    var r := SplitQualified(s, enclosing);
    assert FindLastSep(s) == Some(4);
    assert |r.name| == 1;
    assert r.name == s[6..];
    assert s[..4] == "a::b";
  }

  /** With three colons in a row the split is at the last two: `a:::b` is `b` in `a:`. */
  lemma SplitQualifiedLastExample()
    ensures SplitQualified("a:::b", "") == QualifiedName("a:", "b")
  {
    var s := "a:::b";
    assert IsSepAt(s, 2);
    ContainsSeparator(s);
    var r := SplitQualified(s, "");
    assert FindLastSep(s) == Some(2);
    assert |r.name| == 1;
    assert r.name == s[4..];
    assert s[..2] == "a:";
  }

  // ---------------------------------------------------------------------------
  // Return type

  /** The `type` field's text, `"void"` when there is none (constructors, destructors). */
  function ReturnTypeOf(root: Node): string {
    match Field(root, "type")
    case Some(t) => t.text
    case None => "void"
  }

  // ---------------------------------------------------------------------------
  // Parameters

  /** Strips successive `pointer_declarator` wrappers, counting them. */
  function StripPointers(d: Node): Option<(Node, nat)>
    decreases d
  {
    if d.kind != "pointer_declarator" then Some((d, 0))
    else match Field(d, "declarator")
      case None => None
      case Some(c) =>
        match StripPointers(c)
        case None => None
        case Some(r) => Some((r.0, r.1 + 1))
  }

  /** Strips successive `array_declarator` wrappers, counting them. */
  function StripArrays(d: Node): Option<(Node, nat)>
    decreases d
  {
    if d.kind != "array_declarator" then Some((d, 0))
    else match Field(d, "declarator")
      case None => None
      case Some(c) =>
        match StripArrays(c)
        case None => None
        case Some(r) => Some((r.0, r.1 + 1))
  }

  /** A parameter declarator, with its pointer wrappers and then its array wrappers stripped. */
  datatype Unwrapped = Unwrapped(inner: Node, pointers: nat, arrays: nat)

  function Unwrap(d: Node): Option<Unwrapped> {
    match StripPointers(d)
    case None => None
    case Some(p) =>
      match StripArrays(p.0)
      case None => None
      case Some(a) => Some(Unwrapped(a.0, p.1, a.1))
  }

  /** Every wrapper the stripping loops meet has the `declarator` child they step into. */
  predicate ParamShaped(param: Node) {
    param.kind == "parameter_declaration" && Field(param, "type").Some? && Field(param, "declarator").Some?
    ==> Unwrap(Field(param, "declarator").value).Some?
  }

  datatype Param = Param(name: string, typ: string)

  /** The stored type string: base type, one `*` per pointer, then one `[]` per array. */
  function ParamType(base: string, pointers: nat, arrays: nat): string {
    base + Repeat("*", pointers) + Repeat("[]", arrays)
  }

  /** One child of the parameter list; `None` when it is skipped. */
  function ParamOf(param: Node): Option<Param>
    requires ParamShaped(param)
  {
    if param.kind != "parameter_declaration" then None
    else match (Field(param, "type"), Field(param, "declarator"))
      case (Some(t), Some(d)) =>
        var u := Unwrap(d).value;
        Some(Param(u.inner.text, ParamType(t.text, u.pointers, u.arrays)))
      case _ => None
  }

  function Params(ps: seq<Node>): seq<Param>
    requires forall i :: 0 <= i < |ps| ==> ParamShaped(ps[i])
  {
    if ps == [] then []
    else
      Params(ps[..|ps| - 1])
        + (match ParamOf(ps[|ps| - 1]) case Some(p) => [p] case None => [])
  }

  /** A parameter declaration that is kept: it has both a `type` and a `declarator` field. */
  predicate IsKeptParam(param: Node) {
    param.kind == "parameter_declaration" && Field(param, "type").Some? && Field(param, "declarator").Some?
  }

  function CountKept(ps: seq<Node>): nat {
    if ps == [] then 0 else CountKept(ps[..|ps| - 1]) + (if IsKeptParam(ps[|ps| - 1]) then 1 else 0)
  }

  /**
   * One parameter is recorded per parameter declaration that has both a type
   * and a declarator; every other child of the list is skipped.
   */
  lemma {:induction false} ParamsCountKept(ps: seq<Node>)
    requires forall i :: 0 <= i < |ps| ==> ParamShaped(ps[i])
    ensures |Params(ps)| == CountKept(ps)
  {
    if ps != [] {
      ParamsCountKept(ps[..|ps| - 1]);
    }
  }

  /** `k` nested wrappers of one kind around `inner`, each holding the next as its `declarator`. */
  function Nest(kind: string, k: nat, inner: Node): Node {
    if k == 0 then inner
    else Node(kind, "", true, [Nest(kind, k - 1, inner)], map["declarator" := 0], inner.startRow, inner.endRow, inner.endByte)
  }

  lemma {:induction false} StripPointersNest(k: nat, d: Node)
    requires d.kind != "pointer_declarator"
    ensures StripPointers(Nest("pointer_declarator", k, d)) == Some((d, k))
  {
    if k > 0 {
      var w := Nest("pointer_declarator", k, d);
      assert Field(w, "declarator") == Some(Nest("pointer_declarator", k - 1, d));
      StripPointersNest(k - 1, d);
    }
  }

  lemma {:induction false} StripArraysNest(k: nat, d: Node)
    requires d.kind != "array_declarator"
    ensures StripArrays(Nest("array_declarator", k, d)) == Some((d, k))
  {
    if k > 0 {
      var w := Nest("array_declarator", k, d);
      assert Field(w, "declarator") == Some(Nest("array_declarator", k - 1, d));
      StripArraysNest(k - 1, d);
    }
  }

  /** A parameter declaration with the given `type` and `declarator` children. */
  function ParamDecl(typ: Node, decl: Node): Node {
    Node("parameter_declaration", typ.text + " " + decl.text, true, [typ, decl],
      map["type" := 0, "declarator" := 1], typ.startRow, decl.endRow, decl.endByte)
  }

  /**
   * A declarator of `p` pointer wrappers around `a` array wrappers around a
   * name is recorded under that name, with `p` stars and `a` bracket pairs
   * after the base type.
   */
  lemma ParamOfWrapped(typ: Node, p: nat, a: nat, inner: Node)
    requires inner.kind != "pointer_declarator" && inner.kind != "array_declarator"
    ensures var param := ParamDecl(typ, Nest("pointer_declarator", p, Nest("array_declarator", a, inner)));
      ParamShaped(param) && ParamOf(param) == Some(Param(inner.text, typ.text + Repeat("*", p) + Repeat("[]", a)))
  {
    var arrays := Nest("array_declarator", a, inner);
    StripArraysNest(a, inner);
    StripPointersNest(p, arrays);
    var param := ParamDecl(typ, Nest("pointer_declarator", p, arrays));
    assert Field(param, "declarator") == Some(Nest("pointer_declarator", p, arrays));
    assert Field(param, "type") == Some(typ);
  }

  function Leaf(kind: string, text: string): Node {
    Node(kind, text, true, [], map[], 0, 0, 0)
  }

  /** `int **x` is recorded as `x` of type `int**`; `char buf[10]` as `buf` of type `char[]`. */
  lemma ParamTypeExamples()
    ensures var x := Leaf("identifier", "x");
      var stars := Node("pointer_declarator", "**x", true, [Leaf("*", "*"), Node("pointer_declarator", "*x", true, [Leaf("*", "*"), x], map["declarator" := 1], 0, 0, 0)], map["declarator" := 1], 0, 0, 0);
      var param := ParamDecl(Leaf("primitive_type", "int"), stars);
      ParamShaped(param) && ParamOf(param) == Some(Param("x", "int**"))
    ensures var buf := Leaf("identifier", "buf");
      var arr := Node("array_declarator", "buf[10]", true, [buf, Leaf("[", "["), Leaf("number_literal", "10"), Leaf("]", "]")], map["declarator" := 0, "size" := 2], 0, 0, 0);
      var param := ParamDecl(Leaf("primitive_type", "char"), arr);
      ParamShaped(param) && ParamOf(param) == Some(Param("buf", "char[]"))
  {
    var x := Leaf("identifier", "x");
    var inner := Node("pointer_declarator", "*x", true, [Leaf("*", "*"), x], map["declarator" := 1], 0, 0, 0);
    var stars := Node("pointer_declarator", "**x", true, [Leaf("*", "*"), inner], map["declarator" := 1], 0, 0, 0);
    assert Field(inner, "declarator") == Some(x);
    assert Field(stars, "declarator") == Some(inner);
    assert StripPointers(x) == Some((x, 0));
    assert StripPointers(inner) == Some((x, 1));
    assert StripPointers(stars) == Some((x, 2));
    assert Repeat("*", 2) == "**";
    var typ := Leaf("primitive_type", "int");
    var param := ParamDecl(typ, stars);
    assert Field(param, "type") == Some(typ) && Field(param, "declarator") == Some(stars);
    assert StripArrays(x) == Some((x, 0));
    assert Unwrap(stars) == Some(Unwrapped(x, 2, 0));
    assert ParamType("int", 2, 0) == "int**";
    assert ParamOf(param) == Some(Param("x", "int**"));
    var buf := Leaf("identifier", "buf");
    var arr := Node("array_declarator", "buf[10]", true, [buf, Leaf("[", "["), Leaf("number_literal", "10"), Leaf("]", "]")], map["declarator" := 0, "size" := 2], 0, 0, 0);
    assert Field(arr, "declarator") == Some(buf);
    assert StripArrays(buf) == Some((buf, 0));
    assert StripArrays(arr) == Some((buf, 1));
    assert Repeat("[]", 1) == "[]";
    var ctyp := Leaf("primitive_type", "char");
    var cparam := ParamDecl(ctyp, arr);
    assert Field(cparam, "type") == Some(ctyp) && Field(cparam, "declarator") == Some(arr);
    assert StripPointers(arr) == Some((arr, 0));
    assert Unwrap(arr) == Some(Unwrapped(buf, 0, 1));
    assert ParamType("char", 0, 1) == "char[]";
    assert ParamOf(cparam) == Some(Param("buf", "char[]"));
  }

  // ---------------------------------------------------------------------------
  // The whole function node

  function Declarator(root: Node): Option<Node> {
    Field(root, "declarator")
  }

  /**
   * What the extraction reads without checking: a `declarator` field, a
   * parameter list under it (directly or in a nested function declarator),
   * and well-formed pointer/array wrappers in every kept parameter.
   */
  predicate WellFormedFunction(root: Node) {
    && Declarator(root).Some?
    && var scan := ScanDeclarator(Declarator(root).value.children);
    && scan.paramList.Some?
    && forall i :: 0 <= i < |scan.paramList.value.children| ==> ParamShaped(scan.paramList.value.children[i])
  }

  datatype Signature = Signature(
    sig: string,
    name: string,
    namespaceOrClass: string,
    returnType: string,
    argNames: seq<string>,
    argTypes: seq<string>)

  function ParamNames(ps: seq<Param>): seq<string> {
    seq(|ps|, i requires 0 <= i < |ps| => ps[i].name)
  }

  function ParamTypes(ps: seq<Param>): seq<string> {
    seq(|ps|, i requires 0 <= i < |ps| => ps[i].typ)
  }

  /** The information one function-definition node yields, under the enclosing namespace. */
  function SignatureOf(root: Node, namespace: string): Signature
    requires WellFormedFunction(root)
  {
    var decl := Declarator(root).value;
    var scan := ScanDeclarator(decl.children);
    var q := SplitQualified(scan.name, namespace);
    var ps := Params(scan.paramList.value.children);
    Signature(decl.text, q.name, q.qualifier, ReturnTypeOf(root), ParamNames(ps), ParamTypes(ps))
  }

  /** Properties of every extracted signature. */
  lemma SignatureProperties(root: Node, namespace: string)
    requires WellFormedFunction(root)
    ensures var s := SignatureOf(root, namespace);
      && !Contains(s.name, "::")
      && |s.argNames| == |s.argTypes|
      && |s.argNames| == CountKept(ScanDeclarator(Declarator(root).value.children).paramList.value.children)
      && (Field(root, "type").None? ==> s.returnType == "void")
  {
    var scan := ScanDeclarator(Declarator(root).value.children);
    SplitNameHasNoSeparator(scan.name, namespace);
    ParamsCountKept(scan.paramList.value.children);
  }

  // ---------------------------------------------------------------------------
  // The extraction as the source performs it, step by step

  /** The two stripping loops for one parameter declarator. */
  method StripDeclarator(declarator: Node) returns (name: string, pointerCount: nat, arrayCount: nat)
    requires Unwrap(declarator).Some?
    ensures var u := Unwrap(declarator).value;
      name == u.inner.text && pointerCount == u.pointers && arrayCount == u.arrays
  {
    var d := declarator;
    pointerCount := 0;
    while d.kind == "pointer_declarator"
      invariant StripPointers(d).Some?
      invariant StripPointers(declarator).value == (StripPointers(d).value.0, StripPointers(d).value.1 + pointerCount)
      decreases d
    {
      pointerCount := pointerCount + 1;
      d := Field(d, "declarator").value;
    }
    ghost var afterPointers := d;
    arrayCount := 0;
    while d.kind == "array_declarator"
      invariant StripArrays(d).Some?
      invariant StripArrays(afterPointers).value == (StripArrays(d).value.0, StripArrays(d).value.1 + arrayCount)
      decreases d
    {
      arrayCount := arrayCount + 1;
      d := Field(d, "declarator").value;
    }
    name := d.text;
  }

  lemma NamesTypesAppend(ps: seq<Param>, p: Param)
    ensures ParamNames(ps + [p]) == ParamNames(ps) + [p.name] && ParamTypes(ps + [p]) == ParamTypes(ps) + [p.typ]
  {
  }

  lemma ParamsPrefix(cs: seq<Node>, i: nat)
    requires i < |cs| && forall k :: 0 <= k < |cs| ==> ParamShaped(cs[k])
    ensures Params(cs[..i + 1]) == Params(cs[..i]) + match ParamOf(cs[i]) case Some(p) => [p] case None => []
  {
    assert cs[..i + 1][..i] == cs[..i];
  }

  /** The loop over the parameter list's children. */
  method ExtractParams(paramList: Node) returns (argNames: seq<string>, argTypes: seq<string>)
    requires forall i :: 0 <= i < |paramList.children| ==> ParamShaped(paramList.children[i])
    ensures |argNames| == |argTypes|
    ensures argNames == ParamNames(Params(paramList.children))
    ensures argTypes == ParamTypes(Params(paramList.children))
  {
    argNames, argTypes := [], [];
    ghost var ps: seq<Param> := [];
    for i := 0 to |paramList.children|
      invariant ps == Params(paramList.children[..i])
      invariant argNames == ParamNames(ps) && argTypes == ParamTypes(ps)
    {
      var param := paramList.children[i];
      ParamsPrefix(paramList.children, i);
      var kept, name, typ := ExtractParam(param);
      if kept {
        NamesTypesAppend(ps, Param(name, typ));
        argTypes := argTypes + [typ];
        argNames := argNames + [name];
        ps := ps + [Param(name, typ)];
      } else {
        assert ps + [] == ps;
      }
    }
    assert paramList.children[..|paramList.children|] == paramList.children;
  }

  /** One turn of that loop: the name and type of a kept parameter declaration. */
  method ExtractParam(param: Node) returns (kept: bool, name: string, typ: string)
    requires ParamShaped(param)
    ensures ParamOf(param) == if kept then Some(Param(name, typ)) else None
  {
    kept, name, typ := false, "", "";
    if param.kind == "parameter_declaration" {
      var paramType := Field(param, "type");
      var paramName := Field(param, "declarator");
      if paramType.Some? && paramName.Some? {
        var pointerCount, arrayCount;
        name, pointerCount, arrayCount := StripDeclarator(paramName.value);
        typ := ParamType(paramType.value.text, pointerCount, arrayCount);
        kept := true;
      }
    }
  }

  /** The scan over the declarator's children. */
  method FindNameAndParams(declarator: Node) returns (name: string, paramList: Option<Node>)
    ensures Scan(name, paramList) == ScanDeclarator(declarator.children)
  {
    name, paramList := "", None;
    for i := 0 to |declarator.children|
      invariant Scan(name, paramList) == ScanDeclarator(declarator.children[..i])
    {
      var child := declarator.children[i];
      assert declarator.children[..i + 1][..i] == declarator.children[..i];
      if Contains(child.kind, "identifier") {
        name := child.text;
      } else if child.kind == "function_declarator" {
        ghost var before := Scan(name, paramList);
        for j := 0 to |child.children|
          invariant Scan(name, paramList) == ScanInner(before, child.children[..j])
        {
          var decl := child.children[j];
          assert child.children[..j + 1][..j] == child.children[..j];
          if Contains(decl.kind, "identifier") {
            name := decl.text;
          } else if decl.kind == "parameter_list" {
            paramList := Some(decl);
          }
        }
        assert child.children[..|child.children|] == child.children;
      } else if child.kind == "parameter_list" {
        paramList := Some(child);
      }
    }
    assert declarator.children[..|declarator.children|] == declarator.children;
  }

  /** `_extract_information`, apart from the metrics. */
  method ExtractInformation(root: Node, namespace: string) returns (s: Signature)
    requires WellFormedFunction(root)
    ensures s == SignatureOf(root, namespace)
  {
    var nameNode := Field(root, "declarator").value;
    var sig := nameNode.text;
    var name, paramListNode := FindNameAndParams(nameNode);
    var namespaceOrClass := namespace;

    if Contains(name, "::") {
      ContainsSeparator(name);
      var j := FindLastSep(name).value;
      var prefix := name[..j];
      name := name[j + 2..];
      if namespaceOrClass != "" && prefix != "" {
        namespaceOrClass := namespaceOrClass + "::" + prefix;
      } else {
        namespaceOrClass := prefix;
      }
    }

    var returnType;
    var typeNode := Field(root, "type");
    if typeNode.Some? {
      returnType := typeNode.value.text;
    } else {
      returnType := "void";
    }

    var argNames, argTypes := ExtractParams(paramListNode.value);
    s := Signature(sig, name, namespaceOrClass, returnType, argNames, argTypes);
  }
}
