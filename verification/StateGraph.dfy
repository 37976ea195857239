/** The breadth-first state-graph builder, generic over the puzzle.

    The builder records the initial state at depth 0 and queues it. It then
    repeatedly takes the oldest queued node: a solution is marked as such and
    not expanded; any other node offers each of its successors at one layer
    deeper, and a successor is recorded (and queued) only when no node with its
    key is recorded yet. The dictionary compares states by their hash code, so
    a node is identified by its key. */
module StateGraphs {
  import opened StateNodes

  /** What the builder asks of a puzzle: its initial state, the states reachable
      in one move, the solution test, and the key the dictionary compares by
      (a state's hash code). */
  datatype Puzzle<!S> = Puzzle(initialState: S, reachable: S -> seq<S>, isSolution: S -> bool, key: S -> int)

  /** The recorded nodes, by key. */
  type Graph<S> = map<int, StateNode<S>>

  /** The keys of the successors of `s`, in the order they are offered. */
  function ChildKeys<S>(pz: Puzzle<S>, s: S): (ks: seq<int>)
    ensures |ks| == |pz.reachable(s)|
    ensures forall i :: 0 <= i < |ks| ==> ks[i] == pz.key(pz.reachable(s)[i])
  {
    var children := pz.reachable(s);
    seq(|children|, i requires 0 <= i < |children| => pz.key(children[i]))
  }

  predicate Distinct(keys: seq<int>)
  {
    forall i, j :: 0 <= i < j < |keys| ==> keys[i] != keys[j]
  }

  /** Each node is stored under the key of its own state. */
  predicate WellKeyed<S>(pz: Puzzle<S>, graph: Graph<S>)
  {
    forall k :: k in graph ==> pz.key(graph[k].state) == k
  }

  /** The edges of the recorded graph: from a non-solution node to the key of
      each of its successors. Solution nodes have no outgoing edges. */
  predicate Edge<S>(pz: Puzzle<S>, graph: Graph<S>, p: int, k: int)
  {
    p in graph && !pz.isSolution(graph[p].state) && k in ChildKeys(pz, graph[p].state)
  }

  /** Every edge out of an explored node leads to a recorded node at most one
      layer deeper (closure, plus the triangle inequality of depths). */
  ghost predicate Relaxed<S>(pz: Puzzle<S>, graph: Graph<S>, explored: set<int>)
  {
    forall p, k :: p in explored && Edge(pz, graph, p, k) ==> k in graph && graph[k].depth <= graph[p].depth + 1
  }

  /** Every node but the initial one was recorded as a successor of an explored
      node exactly one layer up. */
  ghost predicate Supported<S>(pz: Puzzle<S>, graph: Graph<S>, explored: set<int>)
  {
    forall k :: k in graph && k != pz.key(pz.initialState) ==>
      exists p :: p in explored && Edge(pz, graph, p, k) && graph[k].depth == graph[p].depth + 1
  }

  /** The closure conditions under which the search ends: the invariant `inv`
      holds initially, is kept by every move, and confines keys to [0, bound). */
  ghost predicate KeysBounded<S(!new)>(pz: Puzzle<S>, inv: S -> bool, bound: nat)
  {
    inv(pz.initialState) &&
    (forall s :: inv(s) ==> 0 <= pz.key(s) < bound) &&
    (forall s, i :: inv(s) && 0 <= i < |pz.reachable(s)| ==> inv(pz.reachable(s)[i]))
  }

  /** Record a state unless a node with its key is already recorded. A recorded
      node is never overwritten, and only a new node is queued. */
  function RecordState<S>(pz: Puzzle<S>, graph: Graph<S>, queue: seq<int>, state: S, depth: nat)
    : (r: (Graph<S>, seq<int>))
    ensures r.0.Keys == graph.Keys + {pz.key(state)}
    ensures forall k :: k in graph ==> r.0[k] == graph[k]
    ensures pz.key(state) in graph ==> r.1 == queue
    ensures pz.key(state) !in graph ==> r.0[pz.key(state)] == NewStateNode(state, depth) && r.1 == queue + [pz.key(state)]
  {
    var k := pz.key(state);
    if k !in graph then (graph[k := NewStateNode(state, depth)], queue + [k]) else (graph, queue)
  }

  /** The state of a new node is the first successor offered with its key. */
  ghost predicate FirstOffered<S>(pz: Puzzle<S>, s: S, count: nat, k: int, node: StateNode<S>, depth: nat)
    requires count <= |pz.reachable(s)|
  {
    exists i :: 0 <= i < count && pz.key(pz.reachable(s)[i]) == k && node == NewStateNode(pz.reachable(s)[i], depth) &&
      forall j :: 0 <= j < i ==> pz.key(pz.reachable(s)[j]) != k
  }

  /** What offering the first `count` successors of `s` to `graph` has done:
      `current` adds exactly their missing keys, each holding the first successor
      offered with that key, and `added` lists the new keys once each. */
  ghost predicate Offered<S>(pz: Puzzle<S>, graph: Graph<S>, s: S, depth: nat, count: nat,
                             current: Graph<S>, added: seq<int>)
    requires count <= |pz.reachable(s)|
  {
    OfferedKeys(pz, graph, s, count, current, added) && OfferedFirst(pz, graph, s, depth, count, current)
  }

  ghost predicate OfferedKeys<S>(pz: Puzzle<S>, graph: Graph<S>, s: S, count: nat, current: Graph<S>, added: seq<int>)
    requires count <= |pz.reachable(s)|
  {
    AddedKeys(graph, ChildKeys(pz, s)[..count], current, added)
  }

  /** The keys of `offered` that are not in `known`, each once, in the order
      of their first offer. */
  function FreshInOrder(known: set<int>, offered: seq<int>): seq<int>
  {
    if |offered| == 0 then []
    else
      var r := FreshInOrder(known, offered[..|offered| - 1]);
      var k := offered[|offered| - 1];
      if k in known || k in r then r else r + [k]
  }

  /** `current` extends `graph` by exactly the keys of `offered` it lacked, and
      `added` lists those new keys once each, in the order they were first
      offered. */
  ghost predicate AddedKeys<S>(graph: Graph<S>, offered: seq<int>, current: Graph<S>, added: seq<int>)
  {
    (forall k :: k in current <==> k in graph || k in offered) &&
    (forall k :: k in graph ==> k in current && current[k] == graph[k]) &&
    (forall k :: k in added <==> k in current && k !in graph) &&
    Distinct(added) && |current| == |graph| + |added| &&
    added == FreshInOrder(graph.Keys, offered)
  }

  ghost predicate OfferedFirst<S>(pz: Puzzle<S>, graph: Graph<S>, s: S, depth: nat, count: nat, current: Graph<S>)
    requires count <= |pz.reachable(s)|
  {
    forall k :: k in current && k !in graph ==> FirstOffered(pz, s, count, k, current[k], depth)
  }

  /** Offer every successor of `s` at `depth`, in order. Exactly the successors'
      keys that were missing are added, each holding the first successor with
      that key, and they are queued once each after the existing queue. */
  method ExploreNode<S>(pz: Puzzle<S>, graph: Graph<S>, queue: seq<int>, s: S, depth: nat)
    returns (graph': Graph<S>, queue': seq<int>)
    ensures |queue| <= |queue'| && queue'[..|queue|] == queue
    ensures Offered(pz, graph, s, depth, |pz.reachable(s)|, graph', queue'[|queue|..])
  {
    var children := pz.reachable(s);
    graph' := graph;
    var added := [];
    for i := 0 to |children|
      invariant Offered(pz, graph, s, depth, i, graph', added)
    {
      var recorded := RecordState(pz, graph', added, children[i], depth);
      RecordStep(pz, graph, s, depth, i, graph', added);
      graph', added := recorded.0, recorded.1;
    }
    queue' := queue + added;
    assert queue'[|queue|..] == added;
  }

  /** Offering one more successor keeps `Offered`. */
  lemma RecordStep<S>(pz: Puzzle<S>, graph: Graph<S>, s: S, depth: nat, i: nat, current: Graph<S>, added: seq<int>)
    requires i < |pz.reachable(s)|
    requires Offered(pz, graph, s, depth, i, current, added)
    ensures Offered(pz, graph, s, depth, i + 1,
                    RecordState(pz, current, added, pz.reachable(s)[i], depth).0,
                    RecordState(pz, current, added, pz.reachable(s)[i], depth).1)
  {
    RecordStepKeys(pz, graph, s, depth, i, current, added);
    RecordStepFirst(pz, graph, s, depth, i, current, added);
  }

  lemma RecordStepKeys<S>(pz: Puzzle<S>, graph: Graph<S>, s: S, depth: nat, i: nat, current: Graph<S>, added: seq<int>)
    requires i < |pz.reachable(s)|
    requires OfferedKeys(pz, graph, s, i, current, added)
    ensures OfferedKeys(pz, graph, s, i + 1,
                        RecordState(pz, current, added, pz.reachable(s)[i], depth).0,
                        RecordState(pz, current, added, pz.reachable(s)[i], depth).1)
  {
    var keys := ChildKeys(pz, s);
    assert keys[..i + 1] == keys[..i] + [keys[i]];
    AddKeyStep(graph, keys[..i], current, added, keys[i], NewStateNode(pz.reachable(s)[i], depth));
  }

  /** Record-if-absent of one more key keeps `AddedKeys`. */
  lemma AddKeyStep<S>(graph: Graph<S>, offered: seq<int>, current: Graph<S>, added: seq<int>, k: int, node: StateNode<S>)
    requires AddedKeys(graph, offered, current, added)
    ensures k in current ==> AddedKeys(graph, offered + [k], current, added)
    ensures k !in current ==> AddedKeys(graph, offered + [k], current[k := node], added + [k])
  {
    FreshInOrderSnoc(graph.Keys, offered, k);
    if k !in current {
      DistinctSnoc(added, k);
    }
  }

  /** Offering one more key appends it exactly when it is neither known nor
      already listed. */
  lemma FreshInOrderSnoc(known: set<int>, offered: seq<int>, k: int)
    ensures FreshInOrder(known, offered + [k])
      == if k in known || k in FreshInOrder(known, offered) then FreshInOrder(known, offered)
         else FreshInOrder(known, offered) + [k]
  {
    assert (offered + [k])[..|offered|] == offered;
  }

  lemma DistinctSnoc(keys: seq<int>, k: int)
    requires Distinct(keys) && k !in keys
    ensures Distinct(keys + [k])
  {
    forall a, b | 0 <= a < b < |keys| + 1
      ensures (keys + [k])[a] != (keys + [k])[b]
    {
      if b == |keys| {
        assert keys[a] in keys;
      }
    }
  }

  lemma RecordStepFirst<S>(pz: Puzzle<S>, graph: Graph<S>, s: S, depth: nat, i: nat, current: Graph<S>, added: seq<int>)
    requires i < |pz.reachable(s)|
    requires forall k :: k in current <==> k in graph || k in ChildKeys(pz, s)[..i]
    requires OfferedFirst(pz, graph, s, depth, i, current)
    ensures OfferedFirst(pz, graph, s, depth, i + 1, RecordState(pz, current, added, pz.reachable(s)[i], depth).0)
  {
    var keys := ChildKeys(pz, s);
    var k := keys[i];
    var next := RecordState(pz, current, added, pz.reachable(s)[i], depth).0;
    if k !in current {
      forall j | 0 <= j < i
        ensures keys[j] != k
      {
        assert keys[j] in keys[..i];
      }
      forall k' | k' in next && k' !in graph
        ensures FirstOffered(pz, s, i + 1, k', next[k'], depth)
      {
        if k' != k {
          assert FirstOffered(pz, s, i, k', current[k'], depth);
        }
      }
    } else {
      forall k' | k' in current && k' !in graph
        ensures FirstOffered(pz, s, i + 1, k', current[k'], depth)
      {
        assert FirstOffered(pz, s, i, k', current[k'], depth);
      }
    }
  }

  /** A set of keys confined to [0, bound) has at most `bound` elements. */
  lemma {:induction false} KeysInRangeBounded(keys: set<int>, bound: nat)
    requires forall k :: k in keys ==> 0 <= k < bound
    ensures |keys| <= bound
  {
    if bound > 0 {
      var rest := keys - {bound - 1};
      KeysInRangeBounded(rest, bound - 1);
      if bound - 1 in keys {
        assert keys == rest + {bound - 1} && bound - 1 !in rest;
        assert |keys| == |rest| + 1;
      } else {
        assert keys == rest;
      }
    } else {
      assert forall k :: k !in keys;
      assert keys == {};
    }
  }

  // ---------------------------------------------------------------------------
  // Loop invariants of the builder
  // ---------------------------------------------------------------------------

  /** The node contents: the root at depth 0, each node under its own key and
      within the invariant, no successor list, and a node is a Solution exactly
      when it has been taken from the queue and passes the solution test. */
  ghost predicate NodesOk<S>(pz: Puzzle<S>, inv: S -> bool, graph: Graph<S>, explored: set<int>)
  {
    pz.key(pz.initialState) in graph &&
    graph[pz.key(pz.initialState)].state == pz.initialState && graph[pz.key(pz.initialState)].depth == 0 &&
    WellKeyed(pz, graph) &&
    (forall k :: k in graph ==> inv(graph[k].state) && graph[k].reachableStates == []) &&
    (forall k :: k in graph ==>
      graph[k].nodeType == (if k in explored && pz.isSolution(graph[k].state) then Solution else Normal))
  }

  /** Every recorded key has either been taken from the queue (and is listed in
      `order`) or is still queued, and never both; no key is queued or taken twice. */
  ghost predicate QueueOk(keys: set<int>, queue: seq<int>, order: seq<int>, explored: set<int>)
  {
    (forall k :: k in keys <==> k in explored || k in queue) &&
    (forall k :: k in explored <==> k in order) &&
    (forall k :: k in queue ==> k !in explored) &&
    Distinct(queue) && Distinct(order)
  }

  /** The layer discipline: taken nodes lie at most at layer `cur`, queued nodes
      at `cur` or `cur + 1` in non-decreasing order, and nodes were taken in
      non-decreasing depth. */
  ghost predicate LayersOk<S>(graph: Graph<S>, queue: seq<int>, order: seq<int>, explored: set<int>, cur: nat)
  {
    (forall k :: k in explored ==> k in graph && graph[k].depth <= cur) &&
    (forall i :: 0 <= i < |queue| ==> queue[i] in graph && cur <= graph[queue[i]].depth <= cur + 1) &&
    (forall i, j :: 0 <= i < j < |queue| ==> graph[queue[i]].depth <= graph[queue[j]].depth) &&
    (forall i :: 0 <= i < |order| ==> order[i] in graph) &&
    (forall i, j :: 0 <= i < j < |order| ==> graph[order[i]].depth <= graph[order[j]].depth)
  }

  /** Two graphs with the same keys, states and depths. */
  ghost predicate SameShape<S>(before: Graph<S>, after: Graph<S>)
  {
    before.Keys == after.Keys &&
    forall k :: k in after ==> after[k].state == before[k].state && after[k].depth == before[k].depth
  }

  /** `after` keeps every node of `before` and adds nodes one layer below `cur`. */
  ghost predicate GrownBelow<S>(before: Graph<S>, after: Graph<S>, added: seq<int>, cur: nat)
  {
    (forall k :: k in before ==> k in after && after[k] == before[k]) &&
    (forall k :: k in added <==> k in after && k !in before) &&
    (forall k :: k in after && k !in before ==> after[k].depth == cur + 1)
  }

  /** Taking the head of the queue moves it to `order`. */
  lemma DequeueQueue(keys: set<int>, queue: seq<int>, order: seq<int>, explored: set<int>)
    requires QueueOk(keys, queue, order, explored) && |queue| > 0
    ensures QueueOk(keys, queue[1..], order + [queue[0]], explored + {queue[0]})
  {
    assert queue == [queue[0]] + queue[1..];
    assert queue[0] !in queue[1..] by {
      forall i | 0 <= i < |queue[1..]|
        ensures queue[1..][i] != queue[0]
      {
        assert queue[1..][i] == queue[i + 1];
      }
    }
    DistinctSnoc(order, queue[0]);
  }

  /** Queueing the newly recorded keys after the rest of the queue. */
  lemma EnqueueQueue(keys: set<int>, keys': set<int>, queue: seq<int>, added: seq<int>, order: seq<int>, explored: set<int>)
    requires QueueOk(keys, queue, order, explored)
    requires Distinct(added) && forall k :: k in keys' <==> k in keys || k in added
    requires forall k :: k in added ==> k !in keys
    ensures QueueOk(keys', queue + added, order, explored)
  {
    var q := queue + added;
    forall i, j | 0 <= i < j < |q|
      ensures q[i] != q[j]
    {
      if j >= |queue| && i < |queue| {
        assert q[i] in queue && q[j] in added;
      } else if i >= |queue| {
        assert q[i] == added[i - |queue|] && q[j] == added[j - |queue|];
      }
    }
  }

  /** Taking the head of the queue makes its depth the current layer. */
  lemma DequeueLayers<S>(graph: Graph<S>, queue: seq<int>, order: seq<int>, explored: set<int>, cur: nat)
    requires LayersOk(graph, queue, order, explored, cur) && |queue| > 0
    requires forall k :: k in order ==> k in explored
    ensures LayersOk(graph, queue[1..], order + [queue[0]], explored + {queue[0]}, graph[queue[0]].depth)
    ensures forall k :: k in explored + {queue[0]} || k in queue[1..] ==> graph[k].depth <= graph[queue[0]].depth + 1
  {
    var h := queue[0];
    var d := graph[h].depth;
    forall k | k in queue[1..]
      ensures graph[k].depth <= d + 1
    {
      var i :| 0 <= i < |queue[1..]| && queue[1..][i] == k;
      assert queue[i + 1] == k;
    }
    var o := order + [h];
    assert h in graph;
    forall i, j | 0 <= i < j < |o|
      ensures o[i] in graph && o[j] in graph && graph[o[i]].depth <= graph[o[j]].depth
    {
      assert o[i] == order[i];
      if j == |order| {
        assert o[j] == h && o[i] in explored;
      } else {
        assert o[j] == order[j];
      }
    }
  }

  /** Queueing nodes of layer `cur + 1` at the tail keeps the layer discipline. */
  lemma EnqueueLayers<S>(graph: Graph<S>, graph': Graph<S>, queue: seq<int>, added: seq<int>, order: seq<int>,
                         explored: set<int>, cur: nat)
    requires LayersOk(graph, queue, order, explored, cur)
    requires GrownBelow(graph, graph', added, cur)
    ensures LayersOk(graph', queue + added, order, explored, cur)
  {
    var q := queue + added;
    forall i | 0 <= i < |q|
      ensures q[i] in graph' && cur <= graph'[q[i]].depth <= cur + 1
    {
      if i < |queue| {
        assert q[i] == queue[i] && queue[i] in graph;
      } else {
        assert q[i] == added[i - |queue|];
        assert q[i] in added;
      }
    }
    forall i, j | 0 <= i < j < |q|
      ensures graph'[q[i]].depth <= graph'[q[j]].depth
    {
      if j < |queue| {
        assert q[i] == queue[i] && q[j] == queue[j];
      } else {
        assert q[j] == added[j - |queue|];
        assert q[j] in added;
      }
    }
    forall i, j | 0 <= i < j < |order|
      ensures order[i] in graph' && order[j] in graph' && graph'[order[i]].depth <= graph'[order[j]].depth
    {
      var a, b := order[i], order[j];
      assert a in graph && b in graph;
      assert graph'[a] == graph[a] && graph'[b] == graph[b];
    }
    forall i | 0 <= i < |order|
      ensures order[i] in graph'
    {
      var k := order[i];
      assert k in graph;
    }
    forall k | k in explored
      ensures k in graph' && graph'[k].depth <= cur
    {
      assert k in graph && graph'[k] == graph[k];
    }
  }

  lemma ShapeKeepsLayers<S>(graph: Graph<S>, graph': Graph<S>, queue: seq<int>, order: seq<int>, explored: set<int>, cur: nat)
    requires LayersOk(graph, queue, order, explored, cur) && SameShape(graph, graph')
    ensures LayersOk(graph', queue, order, explored, cur)
  {
    forall i | 0 <= i < |queue|
      ensures queue[i] in graph' && graph'[queue[i]].depth == graph[queue[i]].depth
    {
      var k := queue[i];
      assert k in graph && k in graph';
    }
    forall i | 0 <= i < |order|
      ensures order[i] in graph' && graph'[order[i]].depth == graph[order[i]].depth
    {
      var k := order[i];
      assert k in graph && k in graph';
    }
  }

  /** Marking a dequeued solution node. */
  lemma MarkKeepsNodes<S>(pz: Puzzle<S>, inv: S -> bool, graph: Graph<S>, explored: set<int>, h: int)
    requires NodesOk(pz, inv, graph, explored) && h in graph && h !in explored && pz.isSolution(graph[h].state)
    ensures NodesOk(pz, inv, graph[h := graph[h].(nodeType := Solution)], explored + {h})
  {
    var graph' := graph[h := graph[h].(nodeType := Solution)];
    assert forall k :: k in graph' ==> graph'[k].state == graph[k].state && graph'[k].depth == graph[k].depth;
    assert forall k :: k in graph' ==> graph'[k].reachableStates == graph[k].reachableStates;
    forall k | k in graph'
      ensures graph'[k].nodeType == (if k in explored + {h} && pz.isSolution(graph'[k].state) then Solution else Normal)
    {
      if k != h {
        assert graph'[k] == graph[k];
      }
    }
  }

  /** Marking changes no edge: a solution node had none, and states are kept. */
  lemma MarkKeepsEdges<S>(pz: Puzzle<S>, graph: Graph<S>, graph': Graph<S>, explored: set<int>, h: int)
    requires SameShape(graph, graph') && h in graph && pz.isSolution(graph[h].state)
    requires Relaxed(pz, graph, explored) && Supported(pz, graph, explored)
    ensures Relaxed(pz, graph', explored + {h}) && Supported(pz, graph', explored + {h})
  {
    assert forall p, k :: Edge(pz, graph', p, k) <==> Edge(pz, graph, p, k);
  }

  /** Exploring a dequeued non-solution node: the new nodes are its successors. */
  lemma ExploreKeepsNodes<S(!new)>(pz: Puzzle<S>, inv: S -> bool, bound: nat, graph: Graph<S>, graph': Graph<S>,
                                   explored: set<int>, h: int)
    requires KeysBounded(pz, inv, bound)
    requires NodesOk(pz, inv, graph, explored) && h in graph && h !in explored && !pz.isSolution(graph[h].state)
    requires forall k :: k in graph ==> k in graph' && graph'[k] == graph[k]
    requires OfferedFirst(pz, graph, graph[h].state, graph[h].depth + 1, |pz.reachable(graph[h].state)|, graph')
    requires forall k :: k in explored ==> k in graph
    ensures NodesOk(pz, inv, graph', explored + {h})
  {
    var s := graph[h].state;
    forall k | k in graph' && k !in graph
      ensures pz.key(graph'[k].state) == k && inv(graph'[k].state)
      ensures graph'[k].reachableStates == [] && graph'[k].nodeType == Normal
    {
      assert FirstOffered(pz, s, |pz.reachable(s)|, k, graph'[k], graph[h].depth + 1);
    }
  }

  /** Exploring h closes its edges: its successors lie at most one layer down. */
  lemma ExploreKeepsRelaxed<S>(pz: Puzzle<S>, graph: Graph<S>, graph': Graph<S>, added: seq<int>, explored: set<int>, h: int)
    requires h in graph && !pz.isSolution(graph[h].state)
    requires forall k :: k in explored ==> k in graph
    requires Relaxed(pz, graph, explored)
    requires GrownBelow(graph, graph', added, graph[h].depth)
    requires forall k :: k in graph' <==> k in graph || k in ChildKeys(pz, graph[h].state)
    requires forall k :: k in graph ==> graph[k].depth <= graph[h].depth + 1
    ensures Relaxed(pz, graph', explored + {h})
  {
    forall p, k | p in explored + {h} && Edge(pz, graph', p, k)
      ensures k in graph' && graph'[k].depth <= graph'[p].depth + 1
    {
      assert graph'[p] == graph[p];
      if p != h {
        assert Edge(pz, graph, p, k);
      }
    }
  }

  /** Exploring h supports each new node by the edge from h. */
  lemma ExploreKeepsSupported<S>(pz: Puzzle<S>, graph: Graph<S>, graph': Graph<S>, added: seq<int>, explored: set<int>, h: int)
    requires h in graph && !pz.isSolution(graph[h].state)
    requires Supported(pz, graph, explored)
    requires GrownBelow(graph, graph', added, graph[h].depth)
    requires forall k :: k in graph' <==> k in graph || k in ChildKeys(pz, graph[h].state)
    ensures Supported(pz, graph', explored + {h})
  {
    forall k | k in graph' && k != pz.key(pz.initialState)
      ensures exists p :: p in explored + {h} && Edge(pz, graph', p, k) && graph'[k].depth == graph'[p].depth + 1
    {
      if k in graph {
        var p :| p in explored && Edge(pz, graph, p, k) && graph[k].depth == graph[p].depth + 1;
        assert Edge(pz, graph', p, k);
      } else {
        assert Edge(pz, graph', h, k);
      }
    }
  }

  /** All loop invariants of the builder. */
  ghost predicate BuilderInv<S>(pz: Puzzle<S>, inv: S -> bool, bound: nat, graph: Graph<S>, queue: seq<int>,
                                order: seq<int>, explored: set<int>, cur: nat)
  {
    NodesOk(pz, inv, graph, explored) &&
    QueueOk(graph.Keys, queue, order, explored) &&
    LayersOk(graph, queue, order, explored, cur) &&
    Relaxed(pz, graph, explored) && Supported(pz, graph, explored) &&
    |graph| <= bound
  }

  /** The first iteration's state satisfies the invariants. */
  lemma BuilderInvInit<S(!new)>(pz: Puzzle<S>, inv: S -> bool, bound: nat)
    requires KeysBounded(pz, inv, bound)
    ensures BuilderInv(pz, inv, bound, map[pz.key(pz.initialState) := NewStateNode(pz.initialState, 0)],
                       [pz.key(pz.initialState)], [], {}, 0)
  {
    var graph := map[pz.key(pz.initialState) := NewStateNode(pz.initialState, 0)];
    KeysInRangeBounded(graph.Keys, bound);
  }

  /** Taking a solution node from the queue: mark it, expand nothing. */
  lemma SolutionStep<S(!new)>(pz: Puzzle<S>, inv: S -> bool, bound: nat, graph: Graph<S>, queue: seq<int>,
                              order: seq<int>, explored: set<int>, cur: nat)
    requires BuilderInv(pz, inv, bound, graph, queue, order, explored, cur)
    requires |queue| > 0 && queue[0] in graph && pz.isSolution(graph[queue[0]].state)
    ensures var h := queue[0];
      BuilderInv(pz, inv, bound, graph[h := graph[h].(nodeType := Solution)], queue[1..],
                 order + [h], explored + {h}, graph[h].depth)
  {
    var h := queue[0];
    var graph' := graph[h := graph[h].(nodeType := Solution)];
    DequeueQueue(graph.Keys, queue, order, explored);
    DequeueLayers(graph, queue, order, explored, cur);
    assert SameShape(graph, graph');
    MarkKeepsNodes(pz, inv, graph, explored, h);
    MarkKeepsEdges(pz, graph, graph', explored, h);
    ShapeKeepsLayers(graph, graph', queue[1..], order + [h], explored + {h}, graph[h].depth);
    assert graph'.Keys == graph.Keys;
  }

  /** Taking a non-solution node from the queue: its missing successors are
      recorded one layer down and queued. */
  lemma ExploreStep<S(!new)>(pz: Puzzle<S>, inv: S -> bool, bound: nat, graph: Graph<S>, queue: seq<int>,
                             order: seq<int>, explored: set<int>, cur: nat, graph': Graph<S>, queue': seq<int>)
    requires KeysBounded(pz, inv, bound)
    requires BuilderInv(pz, inv, bound, graph, queue, order, explored, cur)
    requires |queue| > 0 && queue[0] in graph && !pz.isSolution(graph[queue[0]].state)
    requires |queue| - 1 <= |queue'| && queue'[..|queue| - 1] == queue[1..]
    requires Offered(pz, graph, graph[queue[0]].state, graph[queue[0]].depth + 1,
                     |pz.reachable(graph[queue[0]].state)|, graph', queue'[|queue| - 1..])
    ensures BuilderInv(pz, inv, bound, graph', queue', order + [queue[0]], explored + {queue[0]}, graph[queue[0]].depth)
    ensures |graph'| > |graph| || (|graph'| == |graph| && |queue'| < |queue|)
  {
    var h := queue[0];
    var node := graph[h];
    var added := queue'[|queue| - 1..];
    assert queue' == queue[1..] + added;
    var keys := ChildKeys(pz, node.state);
    assert keys[..|pz.reachable(node.state)|] == keys;
    assert AddedKeys(graph, keys, graph', added);
    ExploreGrows(pz, graph, graph', node.state, node.depth, added);
    ExploreStepNodes(pz, inv, bound, graph, queue, order, explored, cur, graph', added);
    ExploreStepQueue(pz, inv, bound, graph, queue, order, explored, cur, graph', added);
  }

  lemma ExploreStepNodes<S(!new)>(pz: Puzzle<S>, inv: S -> bool, bound: nat, graph: Graph<S>, queue: seq<int>,
                                  order: seq<int>, explored: set<int>, cur: nat, graph': Graph<S>, added: seq<int>)
    requires KeysBounded(pz, inv, bound)
    requires BuilderInv(pz, inv, bound, graph, queue, order, explored, cur)
    requires |queue| > 0 && queue[0] in graph && !pz.isSolution(graph[queue[0]].state)
    requires AddedKeys(graph, ChildKeys(pz, graph[queue[0]].state), graph', added)
    requires OfferedFirst(pz, graph, graph[queue[0]].state, graph[queue[0]].depth + 1,
                          |pz.reachable(graph[queue[0]].state)|, graph')
    requires GrownBelow(graph, graph', added, graph[queue[0]].depth)
    ensures NodesOk(pz, inv, graph', explored + {queue[0]})
    ensures Relaxed(pz, graph', explored + {queue[0]}) && Supported(pz, graph', explored + {queue[0]})
    ensures |graph'| <= bound
  {
    var h := queue[0];
    DequeueLayers(graph, queue, order, explored, cur);
    ExploreKeepsNodes(pz, inv, bound, graph, graph', explored, h);
    ExploreKeepsRelaxed(pz, graph, graph', added, explored, h);
    ExploreKeepsSupported(pz, graph, graph', added, explored, h);
    BoundedByKeys(pz, inv, bound, graph');
  }

  lemma ExploreStepQueue<S>(pz: Puzzle<S>, inv: S -> bool, bound: nat, graph: Graph<S>, queue: seq<int>,
                            order: seq<int>, explored: set<int>, cur: nat, graph': Graph<S>, added: seq<int>)
    requires BuilderInv(pz, inv, bound, graph, queue, order, explored, cur)
    requires |queue| > 0 && queue[0] in graph
    requires AddedKeys(graph, ChildKeys(pz, graph[queue[0]].state), graph', added)
    requires GrownBelow(graph, graph', added, graph[queue[0]].depth)
    ensures QueueOk(graph'.Keys, queue[1..] + added, order + [queue[0]], explored + {queue[0]})
    ensures LayersOk(graph', queue[1..] + added, order + [queue[0]], explored + {queue[0]}, graph[queue[0]].depth)
    ensures |graph'| > |graph| || (|graph'| == |graph| && |queue[1..] + added| < |queue|)
  {
    var h := queue[0];
    DequeueQueue(graph.Keys, queue, order, explored);
    DequeueLayers(graph, queue, order, explored, cur);
    EnqueueQueue(graph.Keys, graph'.Keys, queue[1..], added, order + [h], explored + {h});
    EnqueueLayers(graph, graph', queue[1..], added, order + [h], explored + {h}, graph[h].depth);
  }

  /** The nodes an exploration adds lie one layer below the explored node. */
  lemma ExploreGrows<S>(pz: Puzzle<S>, graph: Graph<S>, graph': Graph<S>, s: S, depth: nat, added: seq<int>)
    requires AddedKeys(graph, ChildKeys(pz, s), graph', added)
    requires OfferedFirst(pz, graph, s, depth + 1, |pz.reachable(s)|, graph')
    ensures GrownBelow(graph, graph', added, depth)
  {
    forall k | k in graph' && k !in graph
      ensures graph'[k].depth == depth + 1
    {
      assert FirstOffered(pz, s, |pz.reachable(s)|, k, graph'[k], depth + 1);
    }
  }

  /** A graph of well-keyed nodes within the invariant has at most `bound` nodes. */
  lemma BoundedByKeys<S(!new)>(pz: Puzzle<S>, inv: S -> bool, bound: nat, graph: Graph<S>)
    requires KeysBounded(pz, inv, bound)
    requires WellKeyed(pz, graph) && forall k :: k in graph ==> inv(graph[k].state)
    ensures |graph| <= bound
  {
    KeysInRangeBounded(graph.Keys, bound);
  }

  /** Build the state graph of a puzzle breadth-first. `order` lists the keys
      in the order their nodes were taken from the queue. */
  method BuildStateGraph<S(!new)>(pz: Puzzle<S>, inv: S -> bool, bound: nat) returns (graph: Graph<S>, order: seq<int>)
    requires KeysBounded(pz, inv, bound)
    ensures pz.key(pz.initialState) in graph
    ensures graph[pz.key(pz.initialState)].state == pz.initialState && graph[pz.key(pz.initialState)].depth == 0
    ensures WellKeyed(pz, graph)
    ensures forall k :: k in graph ==> inv(graph[k].state) && graph[k].reachableStates == []
    ensures forall k :: k in graph ==> graph[k].nodeType == (if pz.isSolution(graph[k].state) then Solution else Normal)
    ensures Relaxed(pz, graph, graph.Keys)
    ensures Supported(pz, graph, graph.Keys)
    ensures Distinct(order) && forall k :: k in order <==> k in graph
    ensures forall i, j :: 0 <= i < j < |order| ==> graph[order[i]].depth <= graph[order[j]].depth
  {
    var root := pz.key(pz.initialState);
    graph := map[root := NewStateNode(pz.initialState, 0)];
    var queue := [root];
    order := [];
    ghost var explored: set<int> := {};
    ghost var cur: nat := 0;
    BuilderInvInit(pz, inv, bound);
    while |queue| > 0
      invariant BuilderInv(pz, inv, bound, graph, queue, order, explored, cur)
      decreases bound - |graph|, |queue|
    {
      var h := queue[0];
      var node := graph[h];
      if pz.isSolution(node.state) {
        SolutionStep(pz, inv, bound, graph, queue, order, explored, cur);
        graph := graph[h := node.(nodeType := Solution)];
        queue := queue[1..];
      } else {
        var graph', queue' := ExploreNode(pz, graph, queue[1..], node.state, node.depth + 1);
        ExploreStep(pz, inv, bound, graph, queue, order, explored, cur, graph', queue');
        graph, queue := graph', queue';
      }
      order := order + [h];
      explored := explored + {h};
      cur := node.depth;
    }
    BuilderDone(pz, inv, bound, graph, order, explored, cur);
  }

  /** With the queue empty, every recorded node has been taken from it. */
  lemma BuilderDone<S>(pz: Puzzle<S>, inv: S -> bool, bound: nat, graph: Graph<S>, order: seq<int>,
                       explored: set<int>, cur: nat)
    requires BuilderInv(pz, inv, bound, graph, [], order, explored, cur)
    ensures explored == graph.Keys
    ensures Distinct(order) && forall k :: k in order <==> k in graph
    ensures forall i, j :: 0 <= i < j < |order| ==> graph[order[i]].depth <= graph[order[j]].depth
  {
    assert forall k :: k in graph.Keys <==> k in explored;
  }

  // ---------------------------------------------------------------------------
  // Depth is the length of a shortest walk from the initial state
  // ---------------------------------------------------------------------------

  /** `path` is a walk from the initial state to `k` along edges of the
      recorded graph; it takes |path| - 1 moves. */
  ghost predicate WalkTo<S>(pz: Puzzle<S>, graph: Graph<S>, path: seq<int>, k: int)
  {
    |path| >= 1 && path[0] == pz.key(pz.initialState) && path[|path| - 1] == k &&
    forall i :: 0 <= i < |path| - 1 ==> Edge(pz, graph, path[i], path[i + 1])
  }

  /** No walk reaches a node in fewer moves than its recorded depth. */
  lemma {:induction false} DepthIsLowerBound<S>(pz: Puzzle<S>, graph: Graph<S>, path: seq<int>, k: int)
    requires pz.key(pz.initialState) in graph && graph[pz.key(pz.initialState)].depth == 0
    requires Relaxed(pz, graph, graph.Keys)
    requires WalkTo(pz, graph, path, k)
    ensures k in graph && graph[k].depth <= |path| - 1
  {
    if |path| > 1 {
      var n := |path| - 1;
      var prefix := path[..n];
      assert forall i :: 0 <= i < |prefix| ==> prefix[i] == path[i];
      DepthIsLowerBound(pz, graph, prefix, path[n - 1]);
      assert Edge(pz, graph, path[n - 1], path[n]);
    }
  }

  /** Some walk reaches each node in exactly its recorded depth. */
  lemma {:induction false} DepthIsAttained<S>(pz: Puzzle<S>, graph: Graph<S>, k: int) returns (path: seq<int>)
    requires pz.key(pz.initialState) in graph && graph[pz.key(pz.initialState)].depth == 0
    requires Supported(pz, graph, graph.Keys)
    requires k in graph
    ensures WalkTo(pz, graph, path, k) && |path| - 1 == graph[k].depth
    decreases graph[k].depth
  {
    if k == pz.key(pz.initialState) {
      path := [k];
    } else {
      var p :| p in graph.Keys && Edge(pz, graph, p, k) && graph[k].depth == graph[p].depth + 1;
      var prefix := DepthIsAttained(pz, graph, p);
      path := prefix + [k];
      forall i | 0 <= i < |path| - 1
        ensures Edge(pz, graph, path[i], path[i + 1])
      {
        if i < |prefix| - 1 {
          assert path[i] == prefix[i] && path[i + 1] == prefix[i + 1];
        }
      }
    }
  }

  /** Hence, in a built graph, each node's depth is the least number of moves
      from the initial state along the recorded graph, where solution nodes
      have no outgoing moves. */
  lemma DepthIsDistance<S>(pz: Puzzle<S>, graph: Graph<S>, k: int)
    requires pz.key(pz.initialState) in graph && graph[pz.key(pz.initialState)].depth == 0
    requires Relaxed(pz, graph, graph.Keys) && Supported(pz, graph, graph.Keys)
    requires k in graph
    ensures exists path :: WalkTo(pz, graph, path, k) && |path| - 1 == graph[k].depth
    ensures forall path :: WalkTo(pz, graph, path, k) ==> graph[k].depth <= |path| - 1
  {
    var path := DepthIsAttained(pz, graph, k);
    forall path' | WalkTo(pz, graph, path', k)
      ensures graph[k].depth <= |path'| - 1
    {
      DepthIsLowerBound(pz, graph, path', k);
    }
  }
}
