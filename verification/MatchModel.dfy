/** What the matchmaker's two assigners make of queue and registry. */
module MatchModel {
  import opened Options
  import opened RegistryModel
  import opened Allocation
  import opened QueueModel

  datatype MatchResponse =
    | InvalidArgument
    | AlreadyExists
    | Waiting
    | Matched(nodeID: string, nodeAddr: string, token: string)
    | Internal

  /** What a request meets outside the matchmaker: whether the duplicate check fails, how a push to the
      queue goes, and the random token, if one can be drawn. */
  datatype Luck = Luck(checkFails: bool, push: PushOutcome, token: Option<string>)

  /** The request gets as far as the node lookup. */
  predicate Admitted(q: QueueState, playerID: string, now: int, luck: Luck)
  {
    playerID != "" && !luck.checkFails && !HasKey(q, playerID, now)
  }

  /** Nobody looks at the head of the queue: whoever is admitted is matched whenever a node is suitable. */
  ghost predicate RequestOutcome(q: QueueState, nodes: Nodes, playerID: string, now: int, luck: Luck,
                                 r: MatchResponse, q2: QueueState, nodes2: Nodes)
  {
    var admitted, room := Admitted(q, playerID, now, luck), TotalRoom(nodes);
    && (r.InvalidArgument? <==> playerID == "")
    && (r.AlreadyExists? <==> playerID != "" && !luck.checkFails && HasKey(q, playerID, now))
    && (r.Waiting? <==> admitted && room == 0 && luck.push.Pushed?)
    && (r.Matched? <==> admitted && room > 0 && luck.token.Some?)
    && (r.Internal? <==>
          || (playerID != "" && luck.checkFails)
          || (admitted && if room == 0 then luck.push.PushFailed? else luck.token.None?))
    && q2 == (if admitted && room == 0 then Enqueued(q, playerID, now, luck.push) else q)
    && (r.Matched? ==>
          && IsBest(nodes, r.nodeID) && r.nodeAddr == nodes[r.nodeID].address && luck.token == Some(r.token)
          && nodes2 == Loaded(nodes, r.nodeID))
    && (!r.Matched? ==> nodes2 == nodes)
  }

  ghost predicate Leads(states: seq<Nodes>, picks: seq<string>, nodes: Nodes, nodes2: Nodes)
  {
    IsAllocation(states, picks) && states[0] == nodes && states[|picks|] == nodes2
  }

  /** A drain serves the front of the queue, each player on a best node, until the queue is empty, no room
      is left or a pop fails; only then is an error reported. */
  ghost predicate DrainOutcome(q: QueueState, nodes: Nodes, pops: nat -> PopOutcome,
                               served: nat, failed: bool, q2: QueueState, nodes2: Nodes)
  {
    var room := TotalRoom(nodes);
    && served <= |q.list| && served <= room
    && (forall i: nat :: i < served ==> Delivers(pops(i)))
    && (failed <==> served < room && !Delivers(pops(served)))
    && (!failed ==> served == if |q.list| <= room then |q.list| else room)
    && q2 == DequeuedBy(q, pops, if failed then served + 1 else served)
    && exists states, picks :: |picks| == served && Leads(states, picks, nodes, nodes2)
  }

  /** However ties are broken, drains of the same queue and registry under the same pops serve equally many,
      end alike, leave the same queue and the same multiset of spares. */
  lemma DrainsAgree(q: QueueState, nodes: Nodes, pops: nat -> PopOutcome,
                    served1: nat, failed1: bool, q1: QueueState, nodes1: Nodes,
                    served2: nat, failed2: bool, q2: QueueState, nodes2: Nodes)
    requires DrainOutcome(q, nodes, pops, served1, failed1, q1, nodes1)
    requires DrainOutcome(q, nodes, pops, served2, failed2, q2, nodes2)
    ensures served1 == served2 && failed1 == failed2 && q1 == q2 && SameLevels(nodes1, nodes2)
  {
    hide TotalRoom, IsAllocation, SameLevels;
    assert served1 == served2;
    var states1, picks1 :| |picks1| == served1 && Leads(states1, picks1, nodes, nodes1);
    var states2, picks2 :| |picks2| == served2 && Leads(states2, picks2, nodes, nodes2);
    TiesDoNotMatter(states1, picks1, states2, picks2, served1);
  }
}
