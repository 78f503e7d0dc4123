/**
 * Interactions: the units an agent enacts. A primitive interaction is an
 * (action, result) pair such as ("Step", "Succeed"); a composite one is an
 * ordered pair "pre was enacted, then post"; a perception interaction wraps a
 * primitive together with the perceptual context in which it was enacted.
 *
 * The interaction module itself is not part of this model: its get_name is
 * kept uninterpreted (callers receive it as a `Naming` parameter) and unwrap
 * is given here as the depth-first, left-to-right flattening it documents.
 */
module Interactions {

  datatype Interaction =
    | Primitive(action: string, result: string)
    | Composite(pre: Interaction, post: Interaction)
    | Perception(wrapped: Interaction, context: string)

  /** The dispatch name of an interaction (get_name), left uninterpreted. */
  type Naming = Interaction -> string

  /** A leaf of the composite tree: anything that is not itself composite. */
  predicate IsLeaf(i: Interaction) {
    !i.Composite?
  }

  /** unwrap(): the leaves of the composite tree, depth-first, left to right. */
  function Unwrap(i: Interaction): (leaves: seq<Interaction>)
    ensures |leaves| >= 1
    ensures forall x :: x in leaves ==> IsLeaf(x)
    ensures IsLeaf(i) ==> leaves == [i]
  {
    match i
    case Composite(pre, post) => Unwrap(pre) + Unwrap(post)
    case _ => [i]
  }

  /** Every node of the composite tree, in pre-order (the node, then pre, then post). */
  function Nodes(i: Interaction): (nodes: seq<Interaction>)
    ensures |nodes| >= 1 && nodes[0] == i
  {
    match i
    case Composite(pre, post) => [i] + Nodes(pre) + Nodes(post)
    case _ => [i]
  }

  /** A composite tree is a full binary tree: it has one node fewer than twice its leaves. */
  lemma {:induction false} NodesOfFullTree(i: Interaction)
    ensures |Nodes(i)| == 2 * |Unwrap(i)| - 1
  {
    match i
    case Composite(pre, post) =>
      NodesOfFullTree(pre);
      NodesOfFullTree(post);
    case _ =>
  }

  /** Every leaf produced by unwrap is a node of the tree. */
  lemma {:induction false} LeavesAreNodes(i: Interaction)
    ensures forall x :: x in Unwrap(i) ==> x in Nodes(i)
  {
    match i
    case Composite(pre, post) =>
      LeavesAreNodes(pre);
      LeavesAreNodes(post);
      assert Nodes(i) == [i] + Nodes(pre) + Nodes(post);
    case _ =>
  }

  /** unwrap(Composite(Composite(p1, p2), p3)) flattens to [p1, p2, p3]. */
  lemma UnwrapNested(p1: Interaction, p2: Interaction, p3: Interaction)
    requires IsLeaf(p1) && IsLeaf(p2) && IsLeaf(p3)
    ensures Unwrap(Composite(Composite(p1, p2), p3)) == [p1, p2, p3]
  {
  }
}
