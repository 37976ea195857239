/** The node record of the state graph: a puzzle state plus the depth at which
    the breadth-first builder first recorded it, and its kind. */
module StateNodes {

  /** The kind of a node. The builder only ever assigns Solution; Failure is
      reserved for puzzles that can be lost, which Kami cannot. */
  datatype NodeType = Normal | Solution | Failure

  /** `depth` is the number of moves from the starting state along the path the
      builder found; `reachableStates` is a slot for the node's successors that
      the builder never assigns (null in the source, `[]` here). */
  datatype StateNode<S> = StateNode(state: S, depth: nat, reachableStates: seq<StateNode<S>>, nodeType: NodeType)

  /** A fresh node: the given state and depth, no successors yet, kind Normal. */
  function NewStateNode<S>(puzzleState: S, depthInGraph: nat): (node: StateNode<S>)
    ensures node.state == puzzleState && node.depth == depthInGraph
    ensures node.nodeType == Normal && node.reachableStates == []
  {
    StateNode(puzzleState, depthInGraph, [], Normal)
  }
}
