/**
 The topological sort of 3rdparty/onnx-tensorrt/toposort.hpp: a depth-first search with three node states,
 from each node to the producers of its inputs.
 */
module Toposort {
  import opened Sequences

  /** An operator with its attributes, each with the encoding of its value, and the names it reads and produces. */
  datatype Node = Node(op: string, attributes: map<string, string>, inputs: seq<string>, outputs: seq<string>)

  datatype NodeState = Unvisited | Active | Visited

  // ----- graphs

  /** Node j reads something that node k produces. */
  predicate Edge(nodes: seq<Node>, j: nat, k: nat) {
    j < |nodes| && k < |nodes| && exists name :: name in nodes[j].inputs && name in nodes[k].outputs
  }

  ghost predicate IsPath(nodes: seq<Node>, p: seq<nat>) {
    forall i :: 0 <= i < |p| - 1 ==> Edge(nodes, p[i], p[i + 1])
  }

  ghost predicate IsCycle(nodes: seq<Node>, p: seq<nat>) {
    |p| >= 2 && p[0] == p[|p| - 1] && IsPath(nodes, p)
  }

  ghost predicate Acyclic(nodes: seq<Node>) {
    forall p: seq<nat> :: !IsCycle(nodes, p)
  }

  /** The out-th output of a node. */
  datatype Slot = Slot(node: nat, out: nat)

  predicate IsSlot(nodes: seq<Node>, p: Slot) {
    p.node < |nodes| && p.out < |nodes[p.node].outputs|
  }

  function NameAt(nodes: seq<Node>, p: Slot): string
    requires IsSlot(nodes, p)
  {
    nodes[p.node].outputs[p.out]
  }

  /** No output name stands in two places. */
  ghost predicate UniqueOutputs(nodes: seq<Node>) {
    forall p, q :: IsSlot(nodes, p) && IsSlot(nodes, q) && NameAt(nodes, p) == NameAt(nodes, q) ==> p == q
  }

  /** All nodes, each once. */
  ghost predicate IsPermutation(n: nat, order: seq<nat>) {
    && Distinct(order)
    && (forall k: nat :: k in order <==> k < n)
  }

  /** Every producer stands before its consumers. */
  ghost predicate ProducersFirst(nodes: seq<Node>, order: seq<nat>) {
    forall i, k: nat :: 0 <= i < |order| && Edge(nodes, order[i], k) ==> k in order[..i]
  }

  ghost predicate IsTopological(nodes: seq<Node>, order: seq<nat>) {
    IsPermutation(|nodes|, order) && ProducersFirst(nodes, order)
  }

  /** A graph that can be ordered has no cycle. */
  lemma TopologicalMeansAcyclic(nodes: seq<Node>, order: seq<nat>)
    requires IsTopological(nodes, order)
    ensures Acyclic(nodes)
  {
    forall p: seq<nat> | IsCycle(nodes, p) ensures false {
      assert Edge(nodes, p[0], p[1]);
      assert p[0] in order;
      var i :| 0 <= i < |order| && order[i] == p[0];
      var j := PathGoesBack(nodes, order, p, |p| - 1, i);
    }
  }

  /** Along a path of producers the position in the order falls. */
  lemma {:induction false} PathGoesBack(nodes: seq<Node>, order: seq<nat>, p: seq<nat>, n: nat, i: nat) returns (j: nat)
    requires ProducersFirst(nodes, order) && IsPath(nodes, p) && 0 < n < |p|
    requires i < |order| && order[i] == p[0]
    ensures j < i && order[j] == p[n]
  {
    j := i;
    if n > 1 {
      j := PathGoesBack(nodes, order, p, n - 1, i);
    }
    assert Edge(nodes, p[n - 1], p[n]);
    assert p[n] in order[..j];
    j :| 0 <= j < i && order[j] == p[n];
  }

  // ----- the name map

  ghost predicate IsNodeMap(nodes: seq<Node>, m: map<string, nat>) {
    && (forall name :: name in m ==> m[name] < |nodes| && name in nodes[m[name]].outputs)
    && (forall k: nat, name :: k < |nodes| && name in nodes[k].outputs ==> name in m && m[name] == k)
  }

  /** What has been seen when the loops stand at output i of node j. */
  ghost predicate Seen(nodes: seq<Node>, j: nat, i: nat, p: Slot) {
    IsSlot(nodes, p) && (p.node < j || (p.node == j && p.out < i))
  }

  ghost predicate MapSoFar(nodes: seq<Node>, m: map<string, nat>, j: nat, i: nat) {
    && (forall name :: name in m ==> exists p :: Seen(nodes, j, i, p) && NameAt(nodes, p) == name)
    && (forall p :: Seen(nodes, j, i, p) ==> NameAt(nodes, p) in m && m[NameAt(nodes, p)] == p.node)
    && (forall p, q :: Seen(nodes, j, i, p) && Seen(nodes, j, i, q) && NameAt(nodes, p) == NameAt(nodes, q) ==> p == q)
  }

  lemma MapGrows(nodes: seq<Node>, m: map<string, nat>, j: nat, i: nat)
    requires MapSoFar(nodes, m, j, i) && IsSlot(nodes, Slot(j, i)) && NameAt(nodes, Slot(j, i)) !in m
    ensures MapSoFar(nodes, m[NameAt(nodes, Slot(j, i)) := j], j, i + 1)
  {
    var here := Slot(j, i);
    var m' := m[NameAt(nodes, here) := j];
    assert Seen(nodes, j, i + 1, here);
    assert forall p :: Seen(nodes, j, i + 1, p) <==> Seen(nodes, j, i, p) || p == here;
  }

  lemma MapComplete(nodes: seq<Node>, m: map<string, nat>)
    requires MapSoFar(nodes, m, |nodes|, 0)
    ensures IsNodeMap(nodes, m) && UniqueOutputs(nodes)
  {
    forall p | IsSlot(nodes, p) ensures Seen(nodes, |nodes|, 0, p) {}
    forall k: nat, name | k < |nodes| && name in nodes[k].outputs ensures name in m && m[name] == k {
      var i :| 0 <= i < |nodes[k].outputs| && nodes[k].outputs[i] == name;
      assert NameAt(nodes, Slot(k, i)) == name;
    }
    forall name | name in m ensures m[name] < |nodes| && name in nodes[m[name]].outputs {
      var p :| Seen(nodes, |nodes|, 0, p) && NameAt(nodes, p) == name;
    }
  }

  method BuildNodeMap(nodes: seq<Node>) returns (ok: bool, m: map<string, nat>)
    ensures ok <==> UniqueOutputs(nodes)
    ensures ok ==> IsNodeMap(nodes, m)
  {
    m := map[];
    for j := 0 to |nodes|
      invariant MapSoFar(nodes, m, j, 0)
    {
      var outs := nodes[j].outputs;
      for i := 0 to |outs|
        invariant MapSoFar(nodes, m, j, i)
      {
        if outs[i] in m {
          ghost var p :| Seen(nodes, j, i, p) && NameAt(nodes, p) == outs[i];
          assert NameAt(nodes, Slot(j, i)) == outs[i] && p != Slot(j, i);
          return false, m;
        }
        MapGrows(nodes, m, j, i);
        m := m[outs[i] := j];
      }
      assert forall p :: Seen(nodes, j, |outs|, p) <==> Seen(nodes, j + 1, 0, p);
    }
    MapComplete(nodes, m);
    ok := true;
  }

  // ----- the search

  function Unseen(states: seq<NodeState>): set<nat> {
    set k | 0 <= k < |states| && states[k].Unvisited?
  }

  /** The order holds the visited nodes, each once and after its producers. */
  ghost predicate OrderInv(nodes: seq<Node>, states: seq<NodeState>, order: seq<nat>) {
    && |states| == |nodes|
    && (forall k: nat :: k in order <==> k < |nodes| && states[k].Visited?)
    && Distinct(order)
    && ProducersFirst(nodes, order)
  }

  /** The active nodes are those on the way from the root to the node about to be visited. */
  ghost predicate PathInv(nodes: seq<Node>, states: seq<NodeState>, path: seq<nat>, k: nat)
    requires |states| == |nodes|
  {
    && IsPath(nodes, path + [k])
    && (forall j :: 0 <= j < |nodes| ==> (states[j].Active? <==> j in path))
  }

  lemma ActiveMeansCycle(nodes: seq<Node>, states: seq<NodeState>, path: seq<nat>, k: nat)
    requires |states| == |nodes| && PathInv(nodes, states, path, k)
    requires k < |nodes| && states[k].Active?
    ensures !Acyclic(nodes)
  {
    var i :| 0 <= i < |path| && path[i] == k;
    var p := path[i..] + [k];
    var whole := path + [k];
    forall n | 0 <= n < |p| - 1 ensures Edge(nodes, p[n], p[n + 1]) {
      assert Edge(nodes, whole[n + i], whole[n + i + 1]);
    }
    assert IsCycle(nodes, p);
  }

  class Search {
    const nodes: seq<Node>
    const nodeMap: map<string, nat>
    var states: seq<NodeState>
    var order: seq<nat>

    constructor (nodes: seq<Node>, nodeMap: map<string, nat>)
      ensures this.nodes == nodes && this.nodeMap == nodeMap
      ensures OrderInv(nodes, states, order) && order == []
      ensures forall k :: 0 <= k < |states| ==> states[k].Unvisited?
    {
      this.nodes, this.nodeMap := nodes, nodeMap;
      states, order := seq(|nodes|, _ => Unvisited), [];
    }

    /** Visits node k and everything it needs; a failure means that the graph has a cycle. */
    method GetPostOrder(k: nat, ghost path: seq<nat>) returns (ok: bool)
      requires k < |nodes| && IsNodeMap(nodes, nodeMap)
      requires OrderInv(nodes, states, order) && PathInv(nodes, states, path, k)
      modifies this
      ensures !ok ==> !Acyclic(nodes)
      ensures ok ==> OrderInv(nodes, states, order) && states[k].Visited?
      ensures ok ==> Unseen(states) <= old(Unseen(states))
      ensures ok ==> forall j :: 0 <= j < |nodes| ==>
        (states[j].Active? <==> old(states)[j].Active?) && (old(states)[j].Visited? ==> states[j].Visited?)
      decreases Unseen(states)
    {
      if states[k].Active? {
        ActiveMeansCycle(nodes, states, path, k);
        return false;
      } else if states[k].Visited? {
        return true;
      }
      states := states[k := Active];
      assert k in old(Unseen(states)) && k !in Unseen(states);
      var inputs := nodes[k].inputs;
      ghost var path' := path + [k];
      for i := 0 to |inputs|
        invariant OrderInv(nodes, states, order)
        invariant Unseen(states) <= old(Unseen(states)) - {k}
        invariant forall j :: 0 <= j < |nodes| ==>
          (states[j].Active? <==> j == k || old(states)[j].Active?) && (old(states)[j].Visited? ==> states[j].Visited?)
        invariant forall n :: 0 <= n < i && inputs[n] in nodeMap ==> states[nodeMap[inputs[n]]].Visited?
      {
        if inputs[i] !in nodeMap {
          continue;
        }
        var j := nodeMap[inputs[i]];
        assert Edge(nodes, k, j);
        assert PathInv(nodes, states, path', j) by {
          assert forall n :: 0 <= n < |path'| ==> (path' + [j])[n] == path'[n];
        }
        var found := GetPostOrder(j, path');
        if !found {
          return false;
        }
      }
      FinishNode(nodes, nodeMap, states, order, k);
      states := states[k := Visited];
      order := order + [k];
      ok := true;
    }

    method SortAll() returns (ok: bool)
      requires IsNodeMap(nodes, nodeMap) && OrderInv(nodes, states, order)
      requires forall k :: 0 <= k < |states| ==> states[k].Unvisited?
      modifies this
      ensures ok <==> Acyclic(nodes)
      ensures ok ==> IsTopological(nodes, order)
    {
      for i := 0 to |nodes|
        invariant OrderInv(nodes, states, order)
        invariant forall j :: 0 <= j < |nodes| ==> !states[j].Active? && (j < i ==> states[j].Visited?)
      {
        assert [] + [i] == [i];
        var found := GetPostOrder(i, []);
        if !found {
          return false;
        }
      }
      TopologicalMeansAcyclic(nodes, order);
      ok := true;
    }
  }

  /** Appending a node whose producers have all been visited. */
  lemma FinishNode(nodes: seq<Node>, nodeMap: map<string, nat>, states: seq<NodeState>, order: seq<nat>, k: nat)
    requires IsNodeMap(nodes, nodeMap) && OrderInv(nodes, states, order) && k < |nodes| && !states[k].Visited?
    requires forall n :: 0 <= n < |nodes[k].inputs| && nodes[k].inputs[n] in nodeMap ==>
      states[nodeMap[nodes[k].inputs[n]]].Visited?
    ensures OrderInv(nodes, states[k := Visited], order + [k])
  {
    var order' := order + [k];
    forall i, j: nat | 0 <= i < |order'| && Edge(nodes, order'[i], j) ensures j in order'[..i] {
      if i < |order| {
        assert order'[i] == order[i] && order'[..i] == order[..i];
      } else {
        assert order'[..i] == order;
        var name :| name in nodes[k].inputs && name in nodes[j].outputs;
        assert nodeMap[name] == j;
      }
    }
  }

  /** toposort: succeeds exactly on the graphs whose output names are unique and which have no cycle, and
      then lists every node once, after the nodes it needs. */
  method Sort(nodes: seq<Node>) returns (ok: bool, order: seq<nat>)
    ensures ok <==> UniqueOutputs(nodes) && Acyclic(nodes)
    ensures ok ==> IsTopological(nodes, order)
  {
    order := [];
    var unique, nodeMap := BuildNodeMap(nodes);
    if !unique {
      return false, order;
    }
    var search := new Search(nodes, nodeMap);
    ok := search.SortAll();
    order := search.order;
  }
}
