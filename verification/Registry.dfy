/** The mutable node registry: a map of node objects updated in place. */
module Registries {
  import opened Options
  import opened RegistryModel

  class NodeInfo {
    const nodeID: string
    const address: string
    const capacity: int
    var currentLoad: int
    var healthy: bool
    var draining: bool
    var lastSeen: int

    /** Also the defensive copy that lookups hand out. */
    function View(): Node
      reads this
    {
      Node(nodeID, address, capacity, currentLoad, healthy, draining, lastSeen)
    }

    constructor (nodeID: string, address: string, capacity: int, now: int)
      ensures this.nodeID == nodeID
      ensures View() == Node(nodeID, address, capacity, 0, true, false, now)
    {
      this.nodeID, this.address, this.capacity := nodeID, address, capacity;
      currentLoad, healthy, draining, lastSeen := 0, true, false, now;
    }
  }

  class Registry {
    var nodes: map<string, NodeInfo>
    const heartbeatTimeout: int

    /** Each entry is the object that carries its id, so no two entries share one. */
    ghost predicate Valid()
      reads this, nodes.Values
    {
      forall id :: id in nodes ==> nodes[id].nodeID == id
    }

    ghost function View(): Nodes
      reads this, nodes.Values
    {
      map id | id in nodes :: nodes[id].View()
    }

    twostate lemma OneChanged(id: string)
      requires old(Valid()) && nodes == old(nodes) && id in nodes
      requires forall k :: k in nodes && k != id ==> unchanged(nodes[k])
      ensures Valid() && View() == old(View())[id := nodes[id].View()]
    {
    }

    constructor (heartbeatTimeout: int)
      ensures Valid() && View() == map[] && this.heartbeatTimeout == heartbeatTimeout
    {
      this.heartbeatTimeout := heartbeatTimeout;
      nodes := map[];
    }

    method Register(nodeID: string, address: string, capacity: int, now: int) returns (isNew: bool)
      requires Valid()
      modifies this
      ensures Valid() && View() == Registered(old(View()), nodeID, address, capacity, now)
      ensures isNew <==> nodeID !in old(View())
    {
      isNew := nodeID !in nodes;
      var node := new NodeInfo(nodeID, address, capacity, now);
      nodes := nodes[nodeID := node];
      assert View() == old(View())[nodeID := node.View()];
    }

    method Heartbeat(nodeID: string, currentLoad: int, now: int) returns (known: bool)
      requires Valid()
      modifies nodes.Values
      ensures Valid() && View() == Beaten(old(View()), nodeID, currentLoad, now)
      ensures known <==> nodeID in View()
      ensures known ==>
        && nodes[nodeID].healthy && nodes[nodeID].lastSeen == now && nodes[nodeID].currentLoad == currentLoad
        && nodes[nodeID].draining == old(nodes[nodeID].draining)
    {
      if nodeID !in nodes {
        return false;
      }
      var node := nodes[nodeID];
      node.lastSeen := now;
      node.currentLoad := currentLoad;
      node.healthy := true;
      OneChanged(nodeID);
      return true;
    }

    /** Walks the nodes in any order and keeps the first one with strictly more room than all before. */
    method BestNode() returns (result: Option<Node>)
      requires Valid()
      ensures result.None? <==> forall id :: id in View() ==> !Suitable(View()[id])
      ensures result.Some? ==> IsBest(View(), result.value.nodeID) && result.value == View()[result.value.nodeID]
    {
      var best: NodeInfo? := null;
      var bestSpare := -1;
      var rest := nodes.Keys;
      while rest != {}
        invariant rest <= nodes.Keys
        invariant best == null ==>
          bestSpare == -1 && forall id :: id in nodes && id !in rest ==> !Suitable(nodes[id].View())
        invariant best != null ==>
          && best.nodeID in nodes && nodes[best.nodeID] == best && Suitable(best.View())
          && bestSpare == Spare(best.View())
          && forall id :: id in nodes && id !in rest && Suitable(nodes[id].View()) ==>
               Spare(nodes[id].View()) <= bestSpare
        decreases |rest|
      {
        var id :| id in rest;
        rest := rest - {id};
        var node := nodes[id];
        if !node.healthy || node.draining {
          continue;
        }
        var spare := node.capacity - node.currentLoad;
        if spare <= 0 {
          continue;
        }
        if spare > bestSpare {
          best, bestSpare := node, spare;
        }
      }
      if best != null {
        assert Suitable(View()[best.nodeID]);
        return Some(best.View());
      }
      return None;
    }

    method IncrementLoad(nodeID: string)
      requires Valid()
      modifies nodes.Values
      ensures Valid() && View() == Loaded(old(View()), nodeID)
    {
      if nodeID in nodes {
        nodes[nodeID].currentLoad := nodes[nodeID].currentLoad + 1;
        OneChanged(nodeID);
      }
    }

    method SetDraining(nodeID: string)
      requires Valid()
      modifies nodes.Values
      ensures Valid() && View() == Drained(old(View()), nodeID)
    {
      if nodeID in nodes {
        nodes[nodeID].draining := true;
        OneChanged(nodeID);
      }
    }

    method Remove(nodeID: string)
      requires Valid()
      modifies this
      ensures Valid() && View() == old(View()) - {nodeID}
    {
      nodes := nodes - {nodeID};
    }

    method HealthCheck(now: int)
      requires Valid()
      modifies nodes.Values
      ensures Valid() && View() == HealthChecked(old(View()), now, heartbeatTimeout)
    {
      var rest := nodes.Keys;
      while rest != {}
        invariant rest <= nodes.Keys
        invariant Valid()
        invariant forall id :: id in nodes ==>
          nodes[id].View() ==
          if id in rest then old(nodes[id].View()) else CheckedNode(old(nodes[id].View()), now, heartbeatTimeout)
        decreases |rest|
      {
        var id :| id in rest;
        rest := rest - {id};
        if nodes[id].healthy && now - nodes[id].lastSeen > heartbeatTimeout {
          nodes[id].healthy := false;
        }
      }
    }
  }
}
