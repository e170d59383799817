/** The mutable matchmaking queue over a shared list and key index. */
module Queues {
  import opened Options
  import opened QueueModel

  class Queue {
    var list: seq<PlayerEntry>
    var index: map<string, int>

    function View(): QueueState
      reads this
    {
      QueueState(list, index)
    }

    constructor ()
      ensures View() == QueueState([], map[])
    {
      list, index := [], map[];
    }

    /** Two commands in one pipeline, which is not a transaction. */
    method Enqueue(playerID: string, now: int, push: PushOutcome) returns (ok: bool)
      modifies this
      ensures View() == Enqueued(old(View()), playerID, now, push)
      ensures ok <==> push.Pushed?
    {
      var entry := PlayerEntry(playerID, now);
      if WritesKey(push) {
        index := index[playerID := now + METADATA_TTL];
      }
      if WritesEntry(push) {
        list := list + [entry];
      }
      return push.Pushed?;
    }

    method Dequeue(pop: PopOutcome) returns (r: PopResult)
      modifies this
      ensures View() == Dequeued(old(View()), pop)
      ensures r == PopAnswer(old(View()), pop)
      ensures pop.Popped? && old(list) != [] ==>
        r == Entry(old(list)[0]) && list == old(list)[1..] && index == old(index) - {old(list)[0].playerID}
    {
      if pop.Refused? {
        return PopFailed;
      }
      if list == [] {
        return if pop.Lost? then PopFailed else Empty;
      }
      var first := list[0];
      list := list[1..];
      if pop.Lost? {
        return PopFailed;
      }
      if pop.Popped? {
        index := index - {first.playerID};
      }
      return Entry(first);
    }

    /** None is a failed check. */
    method IsQueued(playerID: string, now: int, fails: bool) returns (queued: Option<bool>)
      ensures queued == if fails then None else Some(HasKey(View(), playerID, now))
    {
      if fails {
        return None;
      }
      queued := Some(playerID in index && now < index[playerID]);
    }
  }
}
