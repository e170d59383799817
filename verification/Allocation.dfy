/** Greedy allocation of queued players to nodes: how many fit, and how evenly they end up. */
module Allocation {
  import opened MapTotals
  import opened RegistryModel

  /** The registries before the first pick, between picks and after the last; each pick takes any of
      the nodes with most room. */
  ghost predicate IsAllocation(states: seq<Nodes>, picks: seq<string>)
  {
    && |states| == |picks| + 1
    && forall n :: 0 <= n < |picks| ==> IsBest(states[n], picks[n]) && states[n + 1] == Loaded(states[n], picks[n])
  }

  // ---- How many players fit ------------------------------------------------------------------

  function Room(n: Node): int
  {
    if Suitable(n) then Spare(n) else 0
  }

  ghost function Rooms(nodes: Nodes): map<string, int>
  {
    map id | id in nodes :: Room(nodes[id])
  }

  /** All free places on healthy, non-draining nodes. */
  ghost function TotalRoom(nodes: Nodes): int
  {
    Total(Rooms(nodes))
  }

  lemma PickTakesOnePlace(nodes: Nodes, id: string)
    requires id in nodes && Suitable(nodes[id])
    ensures TotalRoom(Loaded(nodes, id)) == TotalRoom(nodes) - 1
  {
    assert Rooms(Loaded(nodes, id)) == Rooms(nodes)[id := Room(nodes[id]) - 1];
    TotalUpdate(Rooms(nodes), id, Room(nodes[id]) - 1);
  }

  /** Some node can be picked exactly when there is room. */
  lemma RoomMeansSuitable(nodes: Nodes)
    ensures TotalRoom(nodes) >= 0
    ensures TotalRoom(nodes) > 0 <==> exists id :: id in nodes && Suitable(nodes[id])
  {
    TotalNonNegative(Rooms(nodes));
    if forall id :: id in nodes ==> !Suitable(nodes[id]) {
      TotalOfZeros(Rooms(nodes));
    } else {
      var id :| id in nodes && Suitable(nodes[id]);
      TermAtMostTotal(Rooms(nodes), id);
    }
  }

  lemma {:induction false} EveryPickTakesOnePlace(states: seq<Nodes>, picks: seq<string>, n: nat)
    requires IsAllocation(states, picks) && n <= |picks|
    ensures TotalRoom(states[n]) == TotalRoom(states[0]) - n
  {
    if n > 0 {
      EveryPickTakesOnePlace(states, picks, n - 1);
      PickTakesOnePlace(states[n - 1], picks[n - 1]);
    }
  }

  /** What n picks leave of a node: eligible nodes only gain load and never pass their capacity,
      ineligible ones are untouched. */
  lemma {:induction false} AllocationRespectsNodes(states: seq<Nodes>, picks: seq<string>, n: nat, id: string)
    requires IsAllocation(states, picks) && n <= |picks| && id in states[0]
    ensures states[n].Keys == states[0].Keys
    ensures !Suitable(states[0][id]) ==> states[n][id] == states[0][id]
    ensures
      var before, after := states[0][id], states[n][id];
      && after == before.(currentLoad := after.currentLoad)
      && before.currentLoad <= after.currentLoad
      && (Suitable(before) ==> after.currentLoad <= after.capacity)
  {
    if n > 0 {
      AllocationRespectsNodes(states, picks, n - 1, id);
    }
  }

  // ---- Water-filling -------------------------------------------------------------------------

  /** A node that received a player ends at most one place below any eligible node. */
  lemma {:induction false} WaterFilling(states: seq<Nodes>, picks: seq<string>, n: nat, m: nat, other: string)
    requires IsAllocation(states, picks) && m < n <= |picks|
    requires other in states[n] && Eligible(states[n][other])
    ensures picks[m] in states[n] && Eligible(states[n][picks[m]])
    ensures Spare(states[n][picks[m]]) >= Spare(states[n][other]) - 1
  {
    if m < n - 1 {
      WaterFilling(states, picks, n - 1, m, other);
    }
  }

  /** The eligible nodes with exactly v free places. */
  ghost function Level(nodes: Nodes, v: int): set<string>
  {
    set id | id in nodes && Eligible(nodes[id]) && Spare(nodes[id]) == v
  }

  /** The same number of eligible nodes at every level: the multisets of spares are equal. */
  ghost predicate SameLevels(s: Nodes, t: Nodes)
  {
    forall v :: |Level(s, v)| == |Level(t, v)|
  }

  lemma PickMovesOneLevelDown(nodes: Nodes, id: string, v: int)
    requires IsBest(nodes, id)
    ensures
      var top := Spare(nodes[id]);
      |Level(Loaded(nodes, id), v)| == |Level(nodes, v)| - (if v == top then 1 else 0) + (if v == top - 1 then 1 else 0)
  {
    var top := Spare(nodes[id]);
    if v == top {
      assert Level(Loaded(nodes, id), v) == Level(nodes, v) - {id};
    } else if v == top - 1 {
      assert Level(Loaded(nodes, id), v) == Level(nodes, v) + {id};
    } else {
      assert Level(Loaded(nodes, id), v) == Level(nodes, v);
    }
  }

  /** Equal levels have equal best spares. */
  lemma BestSpareAgrees(s: Nodes, t: Nodes, p: string, q: string)
    requires SameLevels(s, t) && IsBest(s, p) && IsBest(t, q)
    ensures Spare(s[p]) <= Spare(t[q])
  {
    var v := Spare(s[p]);
    assert p in Level(s, v);
    assert |Level(t, v)| == |Level(s, v)| > 0;
    var k :| k in Level(t, v);
    assert Suitable(t[k]);
  }

  lemma PickKeepsSameLevels(s: Nodes, t: Nodes, p: string, q: string)
    requires SameLevels(s, t) && IsBest(s, p) && IsBest(t, q)
    ensures SameLevels(Loaded(s, p), Loaded(t, q))
  {
    BestSpareAgrees(s, t, p, q);
    assert SameLevels(t, s);
    BestSpareAgrees(t, s, q, p);
    forall v
      ensures |Level(Loaded(s, p), v)| == |Level(Loaded(t, q), v)|
    {
      assert |Level(s, v)| == |Level(t, v)|;
      PickMovesOneLevelDown(s, p, v);
      PickMovesOneLevelDown(t, q, v);
    }
  }

  /** However ties are broken, the same number of picks leaves the same multiset of spares. */
  lemma {:induction false} TiesDoNotMatter(
      one: seq<Nodes>, picks1: seq<string>, two: seq<Nodes>, picks2: seq<string>, n: nat)
    requires IsAllocation(one, picks1) && IsAllocation(two, picks2)
    requires n <= |picks1| && n <= |picks2| && one[0] == two[0]
    ensures SameLevels(one[n], two[n])
  {
    if n > 0 {
      TiesDoNotMatter(one, picks1, two, picks2, n - 1);
      PickKeepsSameLevels(one[n - 1], two[n - 1], picks1[n - 1], picks2[n - 1]);
    }
  }
}
