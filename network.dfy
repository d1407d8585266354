/** The agent-based part of abm.py: network nodes that each follow the
    traffic Markov chain, and the model that owns them, activates every
    node once per tick and collects one traffic record per activation.

    The activation order, which the scheduler shuffles, and the random
    draws are supplied by the caller of a tick. */
module Network {
  import opened Markov

  /** One entry of the traffic log: the node's id and the label of the
      state it has just moved to. */
  datatype Record = Record(node: nat, trafficType: string)

  /** The label a traffic record carries for a state. */
  function Label(s: State): (name: string)
    ensures LabelState(name) == Some(s)
  {
    ["normal", "suspicious", "malicious"][s]
  }

  /** Reads a label back as the state it names. */
  function LabelState(name: string): Option<State>
  {
    if name == "normal" then Some(0)
    else if name == "suspicious" then Some(1)
    else if name == "malicious" then Some(2)
    else None
  }

  /** Number of nodes `range(n)` produces. */
  function Population(n: int): nat
  {
    if n < 0 then 0 else n
  }

  /** The node ids 0 .. n - 1, in construction order. */
  function Ids(n: nat): seq<nat>
  {
    seq(n, i => i)
  }

  /** The node ids of a log, in log order. */
  function NodesOf(log: seq<Record>): seq<nat>
  {
    seq(|log|, k requires 0 <= k < |log| => log[k].node)
  }

  /** An activation order for n nodes: n ids, each naming an existing
      node, no node twice. */
  predicate IsActivationOrder(order: seq<nat>, n: nat)
  {
    |order| == n &&
    (forall k :: 0 <= k < |order| ==> order[k] < n) &&
    (forall j, k :: 0 <= j < k < |order| ==> order[j] != order[k])
  }

  /** Each of the ids 0 .. n - 1 occurs exactly once, and no other value. */
  lemma {:induction false} IdsCount(n: nat, i: int)
    ensures multiset(Ids(n))[i] == if 0 <= i < n then 1 else 0
  {
    if n > 0 {
      assert Ids(n) == Ids(n - 1) + [n - 1];
      IdsCount(n - 1, i);
    }
  }

  /** The last id of an activation order does not occur before it. */
  lemma LastNotEarlier(order: seq<nat>, n: nat)
    requires IsActivationOrder(order, n) && n > 0
    ensures order[n - 1] !in order[..n - 1]
  {
  }

  /** Dropping the last id leaves an order of n - 1 nodes when the highest
      id n - 1 is not among the rest. */
  lemma DropLast(order: seq<nat>, n: nat)
    requires IsActivationOrder(order, n) && n > 0
    requires n - 1 !in order[..n - 1]
    ensures IsActivationOrder(order[..n - 1], n - 1)
  {
  }

  /** Dropping the last id x and writing x where the highest id n - 1 was
      leaves an order of n - 1 nodes. */
  lemma DropLastReplacing(order: seq<nat>, n: nat, p: nat)
    requires IsActivationOrder(order, n) && n > 0
    requires p < n - 1 && order[p] == n - 1
    ensures IsActivationOrder(order[..n - 1][p := order[n - 1]], n - 1)
  {
  }

  /** Moving the last id x into the place of the highest id n - 1 trades
      one occurrence of n - 1 for one of x. */
  lemma ReplacingCount(order: seq<nat>, n: nat, p: nat)
    requires 0 < n == |order| && p < n - 1 && order[p] == n - 1
    ensures multiset(order) == multiset(order[..n - 1][p := order[n - 1]]) + multiset{n - 1}
  {
    var x: nat, rest: seq<nat> := order[n - 1], order[..n - 1];
    var swapped := rest[p := x];
    assert order == rest + [x];
    var top: nat := n - 1;
    assert rest == swapped[p := top];
    assert multiset(rest) == multiset(swapped) - multiset{x} + multiset{top};
  }

  /** An activation order visits every node: it is a permutation of the
      ids 0 .. n - 1. */
  lemma {:induction false} ActivationOrderIsPermutation(order: seq<nat>, n: nat)
    requires IsActivationOrder(order, n)
    ensures multiset(order) == multiset(Ids(n))
    decreases n
  {
    if n == 0 {
      return;
    }
    var x: nat, rest: seq<nat> := order[n - 1], order[..n - 1];
    assert Ids(n) == Ids(n - 1) + [n - 1];
    LastNotEarlier(order, n);
    if x == n - 1 {
      DropLast(order, n);
      ActivationOrderIsPermutation(rest, n - 1);
      assert order == rest + [x];
    } else if n - 1 in rest {
      var p :| 0 <= p < n - 1 && rest[p] == n - 1;
      DropLastReplacing(order, n, p);
      ActivationOrderIsPermutation(rest[p := x], n - 1);
      ReplacingCount(order, n, p);
    } else {
      DropLast(order, n);
      ActivationOrderIsPermutation(rest, n - 1);
      IdsCount(n - 1, x);
      assert false;
    }
  }

  /** `NetworkNode`: a fixed id, an inert malicious flag, and a traffic
      state that starts at normal. */
  class Node {
    const id: nat
    const model: NetworkModel
    const isMalicious: bool
    var state: State

    constructor (id: nat, model: NetworkModel, isMalicious: bool := false)
      ensures this.id == id && this.model == model && this.isMalicious == isMalicious
      ensures state == 0
    {
      this.id := id;
      this.model := model;
      this.isMalicious := isMalicious;
      state := 0;
    }

    /** One activation: move to the next state drawn with `u` from the
        model's matrix and append a record of it to the model's log. The
        malicious flag plays no part. */
    method Step(u: Uniform)
      modifies this`state, model`traffic
      ensures NextState(old(state), model.matrix, u) == Some(state)
      ensures model.traffic == old(model.traffic) + [Record(id, Label(state))]
    {
      state := NextState(state, model.matrix, u).value;
      model.traffic := model.traffic + [Record(id, Label(state))];
    }
  }

  /** `NetworkModel`: the node population, the shared transition matrix and
      the traffic log of the current tick. */
  class NetworkModel {
    const nNodes: int
    const nMalicious: int
    const matrix: Matrix
    /** The scheduler's nodes, in the order they were added. */
    var nodes: seq<Node>
    var traffic: seq<Record>

    /** Node i has id i, belongs to this model, and is malicious exactly
        when i < nMalicious. */
    ghost predicate Valid()
      reads this
    {
      |nodes| == Population(nNodes) &&
      forall i :: 0 <= i < |nodes| ==>
        nodes[i].id == i && nodes[i].model == this && nodes[i].isMalicious == (i < nMalicious)
    }

    constructor (nNodes: int, nMalicious: int, matrix: Matrix)
      ensures Valid()
      ensures this.nNodes == nNodes && this.nMalicious == nMalicious && this.matrix == matrix
      ensures traffic == []
      ensures forall i :: 0 <= i < |nodes| ==> fresh(nodes[i]) && nodes[i].state == 0
    {
      this.nNodes := nNodes;
      this.nMalicious := nMalicious;
      this.matrix := matrix;
      traffic := [];
      nodes := [];
      new;
      var i := 0;
      while i < nNodes
        invariant 0 <= i && (i == 0 || i <= nNodes)
        invariant |nodes| == i && traffic == []
        invariant forall j :: 0 <= j < i ==>
          nodes[j].id == j && nodes[j].model == this && nodes[j].isMalicious == (j < nMalicious)
        invariant forall j :: 0 <= j < i ==> fresh(nodes[j]) && nodes[j].state == 0
      {
        var node := new Node(i, this, i < nMalicious);
        nodes := nodes + [node];
        i := i + 1;
      }
    }

    /** One tick: discard the previous log, then activate every node once
        in `order`, the k-th activation drawing with `us[k]`. */
    method Step(order: seq<nat>, us: seq<Uniform>)
      requires Valid()
      requires IsActivationOrder(order, |nodes|) && |us| == |order|
      modifies this`traffic, nodes
      ensures Valid()
      ensures |traffic| == |nodes| && NodesOf(traffic) == order
      ensures multiset(NodesOf(traffic)) == multiset(Ids(|nodes|))
      ensures forall k :: 0 <= k < |order| ==>
        NextState(old(nodes[order[k]].state), matrix, us[k]) == Some(nodes[order[k]].state)
      ensures forall k :: 0 <= k < |order| ==>
        traffic[k].trafficType == Label(nodes[order[k]].state)
    {
      ActivationOrderIsPermutation(order, |nodes|);
      traffic := [];
      for k := 0 to |order|
        invariant |traffic| == k
        invariant forall j :: 0 <= j < k ==>
          traffic[j] == Record(order[j], Label(nodes[order[j]].state))
        invariant forall j :: 0 <= j < k ==>
          NextState(old(nodes[order[j]].state), matrix, us[j]) == Some(nodes[order[j]].state)
        invariant forall j :: k <= j < |order| ==>
          nodes[order[j]].state == old(nodes[order[j]].state)
      {
        nodes[order[k]].Step(us[k]);
      }
      assert NodesOf(traffic) == order;
    }
  }
}
