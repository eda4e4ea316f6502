/**
 * The two per-function metrics: a cyclomatic-complexity-like count of branch
 * constructs and a pseudo instruction count. Both count the nodes of the
 * function's subtree, the function node itself included, that have a kind of
 * interest; each node adds its own 0 or 1 to the sum over its children.
 */
module Metrics {
  import opened Syntax
  import opened Strings

  /** The node kinds counted as branches (tokens `&&` and `||` included). */
  const BranchNodes: seq<string> := [
    "if_statement", "switch_statement", "do_statement",
    "while_statement", "for_statement", "for_range_loop",
    "try_statement", "seh_try_statement", "throw_statement",
    "goto_statement", "co_return_statement", "co_yield_statement",
    "break_statement", "continue_statement", "&&", "||"
  ]

  predicate IsBranchKind(kind: string) {
    kind in BranchNodes
  }

  /** A kind whose name contains "statement". */
  predicate IsStatementKind(kind: string) {
    Contains(kind, "statement")
  }

  /** Nodes of the subtree rooted at `n` whose kind satisfies `p`, counted bottom-up. */
  function CountMatching(n: Node, p: string -> bool): nat
    decreases n, 1, 0
  {
    (if p(n.kind) then 1 else 0) + CountChildren(n, p, |n.children|)
  }

  /** The sum of `CountMatching` over the first `k` children of `n`. */
  function CountChildren(n: Node, p: string -> bool, k: nat): nat
    requires k <= |n.children|
    decreases n, 0, k
  {
    if k == 0 then 0 else CountChildren(n, p, k - 1) + CountMatching(n.children[k - 1], p)
  }

  /** `_process_complexity`: branch nodes in the function's subtree. */
  function Complexity(n: Node): nat {
    CountMatching(n, IsBranchKind)
  }

  /** `_process_icount`: "statement" nodes in the function's subtree. */
  function ICount(n: Node): nat {
    CountMatching(n, IsStatementKind)
  }

  /** Reference view: the subtree's nodes in document (pre-)order. */
  function Preorder(n: Node): seq<Node>
    decreases n, 1, 0
  {
    [n] + PreorderChildren(n, |n.children|)
  }

  function PreorderChildren(n: Node, k: nat): seq<Node>
    requires k <= |n.children|
    decreases n, 0, k
  {
    if k == 0 then [] else PreorderChildren(n, k - 1) + Preorder(n.children[k - 1])
  }

  /** How many nodes of the list have a kind satisfying `p`. */
  function CountKinds(ns: seq<Node>, p: string -> bool): nat {
    if ns == [] then 0 else CountKinds(ns[..|ns| - 1], p) + (if p(ns[|ns| - 1].kind) then 1 else 0)
  }

  lemma {:induction false} CountKindsAppend(a: seq<Node>, b: seq<Node>, p: string -> bool)
    ensures CountKinds(a + b, p) == CountKinds(a, p) + CountKinds(b, p)
    decreases |b|
  {
    if b != [] {
      assert (a + b)[..|a + b| - 1] == a + b[..|b| - 1];
      CountKindsAppend(a, b[..|b| - 1], p);
    } else {
      assert a + b == a;
    }
  }

  /**
   * The bottom-up count equals the number of matching nodes among all nodes
   * of the subtree, root included: every node is counted exactly once.
   */
  lemma {:induction false} CountMatchingIsPreorderCount(n: Node, p: string -> bool)
    ensures CountMatching(n, p) == CountKinds(Preorder(n), p)
    decreases n, 1, 0
  {
    CountChildrenIsPreorderCount(n, p, |n.children|);
    CountKindsAppend([n], PreorderChildren(n, |n.children|), p);
    assert CountKinds([n], p) == (if p(n.kind) then 1 else 0) by {
      assert [n][..0] == [];
    }
  }

  lemma {:induction false} CountChildrenIsPreorderCount(n: Node, p: string -> bool, k: nat)
    requires k <= |n.children|
    ensures CountChildren(n, p, k) == CountKinds(PreorderChildren(n, k), p)
    decreases n, 0, k
  {
    if k > 0 {
      CountChildrenIsPreorderCount(n, p, k - 1);
      CountMatchingIsPreorderCount(n.children[k - 1], p);
      CountKindsAppend(PreorderChildren(n, k - 1), Preorder(n.children[k - 1]), p);
    }
  }

  /** The sum over children does not depend on anything but the children's counts. */
  lemma {:induction false} CountChildrenOfSeq(n: Node, m: Node, p: string -> bool, k: nat)
    requires k <= |n.children| && k <= |m.children|
    requires n.children[..k] == m.children[..k]
    ensures CountChildren(n, p, k) == CountChildren(m, p, k)
    decreases k
  {
    if k > 0 {
      assert n.children[k - 1] == n.children[..k][k - 1];
      assert m.children[k - 1] == m.children[..k][k - 1];
      assert n.children[..k - 1] == n.children[..k][..k - 1];
      assert m.children[..k - 1] == m.children[..k][..k - 1];
      CountChildrenOfSeq(n, m, p, k - 1);
    }
  }

  /**
   * Inserting one more child subtree `c` anywhere among the children of `n`
   * raises the count by exactly the count of `c` (for the complexity, by 1
   * for an added `if` statement with no branches inside it).
   */
  lemma {:induction false} InsertChildAddsItsCount(n: Node, k: nat, c: Node, p: string -> bool)
    requires k <= |n.children|
    ensures CountMatching(n.(children := n.children[..k] + [c] + n.children[k..]), p)
         == CountMatching(n, p) + CountMatching(c, p)
  {
    var m := n.(children := n.children[..k] + [c] + n.children[k..]);
    InsertedChildren(n, m, k, c, p, |n.children|);
  }

  lemma {:induction false} InsertedChildren(n: Node, m: Node, k: nat, c: Node, p: string -> bool, j: nat)
    requires k <= j <= |n.children|
    requires m.children == n.children[..k] + [c] + n.children[k..]
    ensures CountChildren(m, p, j + 1) == CountChildren(n, p, j) + CountMatching(c, p)
    decreases j
  {
    if j == k {
      assert m.children[k] == c;
      assert m.children[..k] == n.children[..k];
      CountChildrenOfSeq(n, m, p, k);
    } else {
      assert m.children[j] == n.children[j - 1];
      InsertedChildren(n, m, k, c, p, j - 1);
    }
  }
}
