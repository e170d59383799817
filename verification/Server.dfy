/** The matchmaker's two assigners: one match request, and the periodic drain of the queue. */
module Servers {
  import opened Options
  import opened RegistryModel
  import opened Allocation
  import opened QueueModel
  import opened MatchModel
  import opened Registries
  import opened Queues

  /** One round of a drain: a player was assigned, there is nothing to do, or the pop failed. */
  datatype Round = Served | Finished | Broken

  class MatchmakerServer {
    const reg: Registry
    const queue: Queue

    constructor (reg: Registry, queue: Queue)
      ensures this.reg == reg && this.queue == queue
    {
      this.reg, this.queue := reg, queue;
    }

    method RequestMatch(playerID: string, now: int, luck: Luck) returns (r: MatchResponse)
      requires reg.Valid()
      modifies queue, reg.nodes.Values
      ensures reg.Valid()
      ensures RequestOutcome(old(queue.View()), old(reg.View()), playerID, now, luck, r, queue.View(), reg.View())
    {
      hide TotalRoom, Registry.View, IsBest, Loaded, Enqueued, HasKey;
      ghost var nodes := reg.View();
      RoomMeansSuitable(nodes);
      if playerID == "" {
        return InvalidArgument;
      }
      var queued := queue.IsQueued(playerID, now, luck.checkFails);
      if queued.None? {
        return Internal;
      }
      if queued.value {
        return AlreadyExists;
      }
      var node := reg.BestNode();
      assert reg.View() == nodes;
      if node.None? {
        var ok := queue.Enqueue(playerID, now, luck.push);
        assert reg.View() == nodes;
        return if ok then Waiting else Internal;
      }
      if luck.token.None? {
        return Internal;
      }
      reg.IncrementLoad(node.value.nodeID);
      return Matched(node.value.nodeID, node.value.address, luck.token.value);
    }

    /** One round of the drain: a node is looked up first, and the front player is taken only for it. */
    method AssignOne(pop: PopOutcome) returns (round: Round, ghost pick: string)
      requires reg.Valid()
      modifies queue, reg.nodes.Values
      ensures reg.Valid()
      ensures
        var room, q := TotalRoom(old(reg.View())), old(queue.View());
        && (round.Finished? <==> room == 0 || PopAnswer(q, pop).Empty?)
        && (round.Broken? <==> room > 0 && PopAnswer(q, pop).PopFailed?)
        && queue.View() == (if room > 0 then Dequeued(q, pop) else q)
      ensures round.Served? ==>
        IsBest(old(reg.View()), pick) && reg.View() == Loaded(old(reg.View()), pick)
      ensures !round.Served? ==> reg.View() == old(reg.View())
    {
      hide TotalRoom, Registry.View;
      ghost var nodes := reg.View();
      RoomMeansSuitable(nodes);
      pick := "";
      var node := reg.BestNode();
      assert reg.View() == nodes;
      if node.None? {
        return Finished, pick;
      }
      var entry := queue.Dequeue(pop);
      assert reg.View() == nodes;
      match entry
      case Empty => return Finished, pick;
      case PopFailed => return Broken, pick;
      case Entry(_) =>
        reg.IncrementLoad(node.value.nodeID);
        return Served, node.value.nodeID;
    }

    /** Assigns from the front of the queue. The registries in between and the picks are reported in
        states and picks. */
    method DrainQueue(pops: nat -> PopOutcome)
      returns (served: nat, failed: bool, ghost states: seq<Nodes>, ghost picks: seq<string>)
      requires reg.Valid()
      modifies queue, reg.nodes.Values
      ensures reg.Valid()
      ensures DrainOutcome(old(queue.View()), old(reg.View()), pops, served, failed, queue.View(), reg.View())
      ensures |picks| == served && Leads(states, picks, old(reg.View()), reg.View())
    {
      hide Registry.View, TotalRoom, IsBest, Loaded;
      served := 0;
      states, picks := [reg.View()], [];
      RoomMeansSuitable(reg.View());
      var round := Served;
      while round.Served?
        invariant reg.Valid()
        invariant Leads(states, picks, old(reg.View()), reg.View()) && |picks| == served
        invariant forall i: nat :: i < served ==> Delivers(pops(i))
        invariant queue.View() == DequeuedBy(old(queue.View()), pops, if round.Broken? then served + 1 else served)
        invariant !round.Broken? ==> |queue.list| == |old(queue.list)| - served
        invariant served <= |old(queue.list)|
        invariant TotalRoom(reg.View()) == TotalRoom(old(reg.View())) - served >= 0
        invariant round.Finished? ==>
          TotalRoom(reg.View()) == 0 || (served == |old(queue.list)| && Delivers(pops(served)))
        invariant round.Broken? ==> TotalRoom(reg.View()) > 0 && !Delivers(pops(served))
        decreases |old(queue.list)| - served, round.Served?
      {
        ghost var pick;
        ghost var q := old(queue.View());
        assert DequeuedBy(q, pops, served + 1) == Dequeued(DequeuedBy(q, pops, served), pops(served));
        round, pick := AssignOne(pops(served));
        if round.Served? {
          served := served + 1;
          states, picks := states + [reg.View()], picks + [pick];
          EveryPickTakesOnePlace(states, picks, served);
          RoomMeansSuitable(reg.View());
        }
      }
      failed := round.Broken?;
    }
  }
}
