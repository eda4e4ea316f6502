/**
 * The already-parsed syntax tree the analyser walks. The parser itself is an
 * external collaborator; a tree is simply given.
 *
 * A node has a kind (tree-sitter's `type`), its source text, whether it is a
 * named node, its ordered children (named and anonymous tokens alike), its
 * named fields, the 0-based rows it starts and ends on and the byte offset
 * just past its end. A field names one of the node's own children, so it is
 * stored as an index into `children`.
 */
module Syntax {
  import opened Basics

  datatype Node = Node(
    kind: string,
    text: string,
    isNamed: bool,
    children: seq<Node>,
    fields: map<string, nat>,
    startRow: nat,
    endRow: nat,
    endByte: nat)

  /** tree-sitter's `child_by_field_name`: zero or one child per field. */
  function Field(n: Node, name: string): (r: Option<Node>)
    ensures r.Some? ==> r.value in n.children && r.value < n
    ensures r.Some? <==> name in n.fields && n.fields[name] < |n.children|
  {
    if name in n.fields && n.fields[name] < |n.children| then Some(n.children[n.fields[name]]) else None
  }

  /**
   * A member-access node carries the `argument` and `field` children the
   * analyser reads without checking (the C++ grammar always supplies them).
   */
  predicate FieldExprShaped(n: Node) {
    n.kind == "field_expression" ==> Field(n, "argument").Some? && Field(n, "field").Some?
  }

  /** Every member-access node of the subtree is shaped as above. */
  predicate FieldExprsWellFormed(n: Node)
    decreases n
  {
    FieldExprShaped(n) && forall i :: 0 <= i < |n.children| ==> FieldExprsWellFormed(n.children[i])
  }
}
