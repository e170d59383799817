/** The node registry as a value, and what each of its operations makes of it. */
module RegistryModel {

  /** One registered game node. */
  datatype Node = Node(
    nodeID: string, address: string, capacity: int, currentLoad: int,
    healthy: bool, draining: bool, lastSeen: int)

  type Nodes = map<string, Node>

  predicate Eligible(n: Node)
  {
    n.healthy && !n.draining
  }

  function Spare(n: Node): int
  {
    n.capacity - n.currentLoad
  }

  predicate Suitable(n: Node)
  {
    Eligible(n) && Spare(n) > 0
  }

  /** id may be picked: suitable, and no suitable node has more room. */
  ghost predicate IsBest(nodes: Nodes, id: string)
  {
    && id in nodes && Suitable(nodes[id])
    && forall k :: k in nodes && Suitable(nodes[k]) ==> Spare(nodes[k]) <= Spare(nodes[id])
  }

  /** A registration replaces whatever was known of the node. */
  function Registered(nodes: Nodes, id: string, address: string, capacity: int, now: int): Nodes
  {
    nodes[id := Node(id, address, capacity, 0, true, false, now)]
  }

  /** A heartbeat revives a node but does not end its draining. */
  function Beaten(nodes: Nodes, id: string, load: int, now: int): Nodes
  {
    if id in nodes then nodes[id := nodes[id].(lastSeen := now, currentLoad := load, healthy := true)] else nodes
  }

  function Loaded(nodes: Nodes, id: string): Nodes
  {
    if id in nodes then nodes[id := nodes[id].(currentLoad := nodes[id].currentLoad + 1)] else nodes
  }

  function Drained(nodes: Nodes, id: string): Nodes
  {
    if id in nodes then nodes[id := nodes[id].(draining := true)] else nodes
  }

  function CheckedNode(n: Node, now: int, timeout: int): Node
  {
    if n.healthy && now - n.lastSeen > timeout then n.(healthy := false) else n
  }

  function HealthChecked(nodes: Nodes, now: int, timeout: int): Nodes
  {
    map id | id in nodes :: CheckedNode(nodes[id], now, timeout)
  }

  /** What nodes and their operators do to the registry between assignments. */
  datatype Operation =
    | Register(id: string, address: string, capacity: int)
    | Beat(id: string, load: int)
    | Drain(id: string)
    | Remove(id: string)
    | Check(timeout: int)

  function Operated(nodes: Nodes, op: Operation, now: int): Nodes
  {
    match op
    case Register(id, address, capacity) => Registered(nodes, id, address, capacity, now)
    case Beat(id, load) => Beaten(nodes, id, load, now)
    case Drain(id) => Drained(nodes, id)
    case Remove(id) => nodes - {id}
    case Check(timeout) => HealthChecked(nodes, now, timeout)
  }

  // ---- What each operation does, node by node ----------------------------------------------------

  /** All nodes but the one named are as they were. */
  ghost predicate OthersUnchanged(s: Nodes, t: Nodes, id: string)
  {
    forall k :: k != id ==> (k in t <==> k in s) && (k in s ==> t[k] == s[k])
  }

  /** A registration, also of a known node, ends draining and silence and forgets the load. */
  lemma RegisteringStartsAfresh(nodes: Nodes, id: string, address: string, capacity: int, now: int)
    ensures
      var t := Registered(nodes, id, address, capacity, now);
      && id in t && t[id].nodeID == id && t[id].address == address && t[id].capacity == capacity
      && t[id].currentLoad == 0 && t[id].healthy && !t[id].draining && t[id].lastSeen == now
      && (Suitable(t[id]) <==> capacity > 0)
      && OthersUnchanged(nodes, t, id)
  {
  }

  /** A heartbeat revives a node: it may be picked exactly if it is not draining and reports room. An
      unknown node stays unknown. */
  lemma HeartbeatRevives(nodes: Nodes, id: string, load: int, now: int)
    ensures OthersUnchanged(nodes, Beaten(nodes, id, load, now), id)
    ensures id in Beaten(nodes, id, load, now) <==> id in nodes
    ensures id in nodes ==>
      var n, m := nodes[id], Beaten(nodes, id, load, now)[id];
      && m.healthy && m.lastSeen == now && m.currentLoad == load
      && m.nodeID == n.nodeID && m.address == n.address && m.capacity == n.capacity && m.draining == n.draining
      && (Suitable(m) <==> !n.draining && load < n.capacity)
  {
  }

  /** Draining takes a node out of the lookup and changes nothing else; removing takes it out of the map. */
  lemma DrainingAndRemovingTouchOne(nodes: Nodes, id: string)
    ensures OthersUnchanged(nodes, Drained(nodes, id), id) && OthersUnchanged(nodes, nodes - {id}, id)
    ensures id !in nodes - {id} && (id in Drained(nodes, id) <==> id in nodes)
    ensures id in nodes ==>
      var n, m := nodes[id], Drained(nodes, id)[id];
      && m.draining && !Suitable(m)
      && m.nodeID == n.nodeID && m.address == n.address && m.capacity == n.capacity
      && m.currentLoad == n.currentLoad && m.healthy == n.healthy && m.lastSeen == n.lastSeen
  {
  }

  /** A health check only ever ends health, exactly where the silence exceeds the timeout. */
  lemma HealthCheckExactly(nodes: Nodes, now: int, timeout: int, id: string)
    requires id in nodes
    ensures HealthChecked(nodes, now, timeout).Keys == nodes.Keys
    ensures
      var n, m := nodes[id], HealthChecked(nodes, now, timeout)[id];
      && (m.healthy <==> n.healthy && now <= n.lastSeen + timeout)
      && m.nodeID == n.nodeID && m.address == n.address && m.capacity == n.capacity
      && m.currentLoad == n.currentLoad && m.draining == n.draining && m.lastSeen == n.lastSeen
  {
  }

  lemma AssigningTouchesOne(nodes: Nodes, id: string)
    requires id in nodes
    ensures OthersUnchanged(nodes, Loaded(nodes, id), id)
    ensures
      var n, m := nodes[id], Loaded(nodes, id)[id];
      && id in Loaded(nodes, id) && m.currentLoad == n.currentLoad + 1
      && m.nodeID == n.nodeID && m.address == n.address && m.capacity == n.capacity
      && m.healthy == n.healthy && m.draining == n.draining && m.lastSeen == n.lastSeen
  {
  }

  /** A registry of one node with one place, seen last at the given instant. */
  function OneNode(load: int, seen: int): Nodes
  {
    map["n" := Node("n", "host", 1, load, true, false, seen)]
  }
}
