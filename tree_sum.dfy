/** Recursive fan-out over a binary tree (03_/0306.py). `process_node`
    starts one task per child, waits for both, and adds the node's value to
    the two child totals. An absent child (`None`) contributes 0. */
module TreeSum {
  import opened Sums

  /** `None`, or a `{"value", "left", "right"}` node. */
  datatype Tree = Nil | Node(value: int, left: Tree, right: Tree)

  /** The node values, root first, then the left subtree, then the right. */
  function Values(t: Tree): seq<int>
  {
    match t
    case Nil => []
    case Node(v, l, r) => [v] + Values(l) + Values(r)
  }

  /** `process_node`: the tree is only read; the two child totals are
      combined with the node's value once both are known. */
  function ProcessNode(t: Tree): (total: int)
    ensures total == Sum(Values(t))
  {
    match t
    case Nil => 0
    case Node(v, l, r) =>
      var leftTotal := ProcessNode(l);
      var rightTotal := ProcessNode(r);
      SumAppend([v] + Values(l), Values(r));
      SumAppend([v], Values(l));
      v + leftTotal + rightTotal
  }

  /** The tree with every left and right child exchanged. */
  function Mirror(t: Tree): Tree
  {
    match t
    case Nil => Nil
    case Node(v, l, r) => Node(v, Mirror(r), Mirror(l))
  }

  /** An absent node is 0 and a leaf is its own value. */
  lemma BaseCases(v: int)
    ensures ProcessNode(Nil) == 0
    ensures ProcessNode(Node(v, Nil, Nil)) == v
  {
  }

  /** The order in which the two child results are combined does not
      matter: exchanging every pair of siblings leaves the total unchanged. */
  lemma {:induction false} MirrorSameTotal(t: Tree)
    ensures ProcessNode(Mirror(t)) == ProcessNode(t)
  {
    match t
    case Nil =>
    case Node(v, l, r) =>
      MirrorSameTotal(l);
      MirrorSameTotal(r);
  }

  /** The tree of the script: 10 with the leaves 5 and 20. */
  lemma Example()
    ensures ProcessNode(Node(10, Node(5, Nil, Nil), Node(20, Nil, Nil))) == 35
  {
  }
}
