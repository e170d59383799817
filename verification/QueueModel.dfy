/** The matchmaking queue as a value: a list of waiting players and an index of keys that expire. The
    store behind it can fail, and a failed call may have taken effect in part. */
module QueueModel {

  /** The index keeps a player's key for five minutes, in nanoseconds. */
  const METADATA_TTL := 300_000_000_000

  datatype PlayerEntry = PlayerEntry(playerID: string, queuedAt: int)

  /** index maps a player to the instant their key expires. */
  datatype QueueState = QueueState(list: seq<PlayerEntry>, index: map<string, int>)

  /** How a push goes: both commands succeed, or an error is reported and either may have been done. */
  datatype PushOutcome = Pushed | PushFailed(keyed: bool, listed: bool)

  /** How a pop goes: entry and key are removed; the key's removal fails unnoticed; an error is reported
      and nothing was popped; an error is reported although the entry is gone. */
  datatype PopOutcome = Popped | KeyKept | Refused | Lost

  datatype PopResult = Empty | PopFailed | Entry(entry: PlayerEntry)

  predicate HasKey(q: QueueState, playerID: string, now: int)
  {
    playerID in q.index && now < q.index[playerID]
  }

  predicate WritesKey(push: PushOutcome)
  {
    push.Pushed? || push.keyed
  }

  predicate WritesEntry(push: PushOutcome)
  {
    push.Pushed? || push.listed
  }

  function Enqueued(q: QueueState, playerID: string, now: int, push: PushOutcome): QueueState
  {
    QueueState(if WritesEntry(push) then q.list + [PlayerEntry(playerID, now)] else q.list,
               if WritesKey(push) then q.index[playerID := now + METADATA_TTL] else q.index)
  }

  /** A key is good for five minutes from the push that wrote it. */
  lemma KeysLastFiveMinutes(q: QueueState, playerID: string, now: int, push: PushOutcome, later: int)
    requires WritesKey(push)
    ensures HasKey(Enqueued(q, playerID, now, push), playerID, later) <==> later < now + 5 * 60 * 1_000_000_000
  {
  }

  /** The caller sees no error. */
  predicate Delivers(pop: PopOutcome)
  {
    pop.Popped? || pop.KeyKept?
  }

  function Dequeued(q: QueueState, pop: PopOutcome): QueueState
  {
    if q.list == [] || pop.Refused? then q
    else QueueState(q.list[1..], if pop.Popped? then q.index - {q.list[0].playerID} else q.index)
  }

  function PopAnswer(q: QueueState, pop: PopOutcome): PopResult
  {
    if !Delivers(pop) then PopFailed else if q.list == [] then Empty else Entry(q.list[0])
  }

  /** The queue after n pops, the i-th of which goes as pops(i). */
  function DequeuedBy(q: QueueState, pops: nat -> PopOutcome, n: nat): QueueState
  {
    if n == 0 then q else Dequeued(DequeuedBy(q, pops, n - 1), pops(n - 1))
  }

  /** n pops that are not refused take the first n entries, and the keys of those that went well. */
  lemma {:induction false} DequeueTakesAPrefix(q: QueueState, pops: nat -> PopOutcome, n: nat)
    requires n <= |q.list|
    requires forall i: nat :: i < n ==> !pops(i).Refused?
    ensures DequeuedBy(q, pops, n).list == q.list[n..]
    ensures forall p :: p in DequeuedBy(q, pops, n).index <==>
      p in q.index && forall i: nat :: i < n && pops(i).Popped? ==> q.list[i].playerID != p
    ensures forall p :: p in DequeuedBy(q, pops, n).index ==> DequeuedBy(q, pops, n).index[p] == q.index[p]
  {
    if n > 0 {
      DequeueTakesAPrefix(q, pops, n - 1);
    }
  }
}
