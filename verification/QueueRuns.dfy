/** Queue, registry and clock together, over runs of whole requests and whole drains: whether the
    expiring key index tells the truth about the waiting list, and who is served before whom. */
module QueueRuns {
  import opened MapTotals
  import opened Options
  import opened RegistryModel
  import opened Allocation
  import opened QueueModel
  import opened MatchModel

  datatype State = State(queue: QueueState, nodes: Nodes, now: int)

  datatype Event =
    | Ask(playerID: string, luck: Luck, response: MatchResponse)
    | Serve(pops: nat -> PopOutcome, served: nat, failed: bool)
    | Operate(op: Operation)
    | Wait(duration: nat)

  /** e may lead from s to t. */
  ghost predicate Step(s: State, e: Event, t: State)
  {
    match e
    case Ask(playerID, luck, r) =>
      t.now == s.now && RequestOutcome(s.queue, s.nodes, playerID, s.now, luck, r, t.queue, t.nodes)
    case Serve(pops, served, failed) =>
      t.now == s.now && DrainOutcome(s.queue, s.nodes, pops, served, failed, t.queue, t.nodes)
    case Operate(op) => t == s.(nodes := Operated(s.nodes, op, s.now))
    case Wait(duration) => t == s.(now := s.now + duration)
  }

  /** The registry starts empty; the queue outlives the matchmaker and may hold anything. */
  ghost predicate IsRun(states: seq<State>, events: seq<Event>)
  {
    && |states| == |events| + 1
    && states[0].nodes == map[]
    && forall i :: 0 <= i < |events| ==> Step(states[i], events[i], states[i + 1])
  }

  // ---- The key index -------------------------------------------------------------------------

  ghost predicate OnList(q: QueueState, playerID: string)
  {
    exists i :: 0 <= i < |q.list| && q.list[i].playerID == playerID
  }

  /** Nobody waits twice, and entries are in the order they came. */
  ghost predicate InLine(list: seq<PlayerEntry>, now: int)
  {
    && (forall i, j :: 0 <= i < j < |list| ==>
          list[i].playerID != list[j].playerID && list[i].queuedAt <= list[j].queuedAt)
    && (forall i :: 0 <= i < |list| ==> list[i].queuedAt <= now)
  }

  /** The waiting are in line, and the keys are exactly theirs, each due five minutes after the entry. */
  ghost predicate Orderly(q: QueueState, now: int)
  {
    && InLine(q.list, now)
    && (forall i :: 0 <= i < |q.list| ==>
          q.list[i].playerID in q.index && q.index[q.list[i].playerID] == q.list[i].queuedAt + METADATA_TTL)
    && (forall p :: p in q.index ==> OnList(q, p))
  }

  /** The index answers exactly for the players on the list. */
  ghost predicate Agrees(q: QueueState, now: int)
  {
    forall p :: HasKey(q, p, now) <==> OnList(q, p)
  }

  /** The player at the head has waited less than five minutes. */
  ghost predicate Prompt(q: QueueState, now: int)
  {
    q.list != [] ==> now < q.list[0].queuedAt + METADATA_TTL
  }

  /** On an orderly queue the index tells the truth exactly while the head has waited under five minutes. */
  lemma AgreementExactlyWhilePrompt(q: QueueState, now: int)
    requires Orderly(q, now)
    ensures Agrees(q, now) <==> Prompt(q, now)
  {
    if q.list != [] {
      assert OnList(q, q.list[0].playerID);
      assert HasKey(q, q.list[0].playerID, now) <==> now < q.list[0].queuedAt + METADATA_TTL;
    }
    if Prompt(q, now) {
      forall p | OnList(q, p)
        ensures HasKey(q, p, now)
      {
        var i :| 0 <= i < |q.list| && q.list[i].playerID == p;
        assert q.list[0].queuedAt <= q.list[i].queuedAt;
      }
    }
  }

  lemma EndOfLine(q: QueueState, playerID: string, now: int)
    requires InLine(q.list, now) && !OnList(q, playerID)
    ensures InLine(q.list + [PlayerEntry(playerID, now)], now)
  {
    forall i | 0 <= i < |q.list|
      ensures q.list[i].playerID != playerID
    {
    }
  }

  lemma NewEntryKeepsOrder(q: QueueState, playerID: string, now: int, push: PushOutcome)
    requires Orderly(q, now) && !OnList(q, playerID) && WritesKey(push) && WritesEntry(push)
    ensures Orderly(Enqueued(q, playerID, now, push), now)
  {
    var r := Enqueued(q, playerID, now, push);
    EndOfLine(q, playerID, now);
    hide InLine;
    forall p | p in r.index
      ensures OnList(r, p)
    {
      if p == playerID {
        assert r.list[|q.list|].playerID == p;
      } else {
        var i :| 0 <= i < |q.list| && q.list[i].playerID == p;
        assert r.list[i].playerID == p;
      }
    }
  }

  /** A push keeps the queue orderly exactly if it does both of its writes or none, and both only for a
      player who is not waiting. */
  lemma PushKeepsOrderExactly(q: QueueState, playerID: string, now: int, push: PushOutcome)
    requires Orderly(q, now) && !HasKey(q, playerID, now)
    ensures Orderly(Enqueued(q, playerID, now, push), now) <==>
      WritesKey(push) == WritesEntry(push) && (WritesEntry(push) ==> !OnList(q, playerID))
  {
    var r := Enqueued(q, playerID, now, push);
    if OnList(q, playerID) {
      var i :| 0 <= i < |q.list| && q.list[i].playerID == playerID;
      if WritesEntry(push) {
        assert r.list[i].playerID == r.list[|q.list|].playerID;
      } else if WritesKey(push) {
        assert r.list[i].playerID == playerID && r.index[playerID] != r.list[i].queuedAt + METADATA_TTL;
      }
    } else if WritesKey(push) && WritesEntry(push) {
      NewEntryKeepsOrder(q, playerID, now, push);
    } else if WritesKey(push) {
      assert r.list == q.list && playerID in r.index && !OnList(r, playerID);
    } else if WritesEntry(push) {
      assert r.list[|q.list|].playerID == playerID && playerID !in r.index;
    }
  }

  /** A request keeps the queue orderly unless it is pushed for a player who is still waiting with an
      expired key, or the push writes only one of key and entry. */
  lemma RequestKeepsOrderExactly(s: State, e: Event, t: State)
    requires Step(s, e, t) && e.Ask? && Orderly(s.queue, s.now)
    ensures Orderly(t.queue, t.now) <==>
      (Admitted(s.queue, e.playerID, s.now, e.luck) && TotalRoom(s.nodes) == 0 ==>
        && WritesKey(e.luck.push) == WritesEntry(e.luck.push)
        && (WritesEntry(e.luck.push) ==> !OnList(s.queue, e.playerID)))
  {
    hide TotalRoom, Orderly, OnList;
    if Admitted(s.queue, e.playerID, s.now, e.luck) {
      PushKeepsOrderExactly(s.queue, e.playerID, s.now, e.luck.push);
    }
  }

  lemma TailIsOrderly(q: QueueState, r: QueueState, n: nat, now: int)
    requires Orderly(q, now) && n <= |q.list| && r.list == q.list[n..]
    requires forall p :: p in r.index <==> p in q.index && forall i: nat :: i < n ==> q.list[i].playerID != p
    requires forall p :: p in r.index ==> r.index[p] == q.index[p]
    ensures Orderly(r, now)
  {
    TailIsInLine(q.list, n, now);
    OneEntryAndKeyEach(q, now);
    hide InLine;
    forall i | 0 <= i < |r.list|
      ensures r.list[i].playerID in r.index && r.index[r.list[i].playerID] == r.list[i].queuedAt + METADATA_TTL
    {
      assert r.list[i] == q.list[n + i];
    }
    forall p | p in r.index
      ensures OnList(r, p)
    {
      var i :| 0 <= i < |q.list| && q.list[i].playerID == p;
      assert r.list[i - n].playerID == p;
    }
  }

  lemma TailIsInLine(list: seq<PlayerEntry>, n: nat, now: int)
    requires InLine(list, now) && n <= |list|
    ensures InLine(list[n..], now)
  {
  }

  lemma KeyWithoutEntry(q: QueueState, now: int, p: string)
    requires p in q.index && forall k :: 0 <= k < |q.list| ==> q.list[k].playerID != p
    ensures !Orderly(q, now)
  {
  }

  lemma OneEntryAndKeyEach(q: QueueState, now: int)
    requires Orderly(q, now)
    ensures forall i :: 0 <= i < |q.list| ==> q.list[i].playerID in q.index
    ensures forall i, j :: 0 <= i < j < |q.list| ==> q.list[i].playerID != q.list[j].playerID
  {
  }

  /** Taking entries off the front keeps the queue orderly exactly if every one of them takes its key along. */
  lemma PrefixKeepsOrderExactly(q: QueueState, pops: nat -> PopOutcome, n: nat, now: int)
    requires Orderly(q, now) && n <= |q.list|
    requires forall i: nat :: i < n ==> !pops(i).Refused?
    ensures Orderly(DequeuedBy(q, pops, n), now) <==> forall i: nat :: i < n ==> pops(i).Popped?
  {
    hide Orderly, DequeuedBy;
    DequeueTakesAPrefix(q, pops, n);
    var r := DequeuedBy(q, pops, n);
    if forall i: nat :: i < n ==> pops(i).Popped? {
      TailIsOrderly(q, r, n, now);
    } else {
      var i: nat :| i < n && !pops(i).Popped?;
      OneEntryAndKeyEach(q, now);
      KeyWithoutEntry(r, now, q.list[i].playerID);
    }
  }

  /** The pops of a drain: one for each player served, and the failing one. */
  function Rounds(e: Event): nat
    requires e.Serve?
  {
    if e.failed then e.served + 1 else e.served
  }

  /** A drain keeps the queue orderly exactly if no entry is popped without its key. */
  lemma DrainKeepsOrderExactly(s: State, e: Event, t: State)
    requires Step(s, e, t) && e.Serve? && Orderly(s.queue, s.now)
    ensures Orderly(t.queue, t.now) <==>
      forall i: nat :: i < Rounds(e) && i < |s.queue.list| ==> e.pops(i).Popped? || e.pops(i).Refused?
  {
    hide TotalRoom, Orderly, OnList, IsAllocation;
    var last := e.served;
    if e.failed && e.pops(last).Lost? && last < |s.queue.list| {
      PrefixKeepsOrderExactly(s.queue, e.pops, last + 1, s.now);
    } else {
      DequeueTakesAPrefix(s.queue, e.pops, last);
      assert t.queue == DequeuedBy(s.queue, e.pops, last);
      PrefixKeepsOrderExactly(s.queue, e.pops, last, s.now);
    }
  }

  /** No call of the event separates an entry from its key. */
  predicate KeepsTogether(s: State, e: Event)
  {
    match e
    case Ask(_, luck, _) => WritesKey(luck.push) == WritesEntry(luck.push)
    case Serve(pops, _, _) =>
      forall i: nat :: i < Rounds(e) && i < |s.queue.list| ==> pops(i).Popped? || pops(i).Refused?
    case _ => true
  }

  lemma StepKeepsOrder(s: State, e: Event, t: State)
    requires Orderly(s.queue, s.now) && Agrees(s.queue, s.now) && Step(s, e, t) && KeepsTogether(s, e)
    ensures Orderly(t.queue, t.now)
  {
    hide TotalRoom, RequestOutcome, DrainOutcome;
    match e
    case Ask(_, _, _) => RequestKeepsOrderExactly(s, e, t);
    case Serve(_, _, _) => DrainKeepsOrderExactly(s, e, t);
    case _ =>
  }

  /** As long as nobody has waited five minutes and no fault separates an entry from its key, the queue
      stays orderly and the index tells the truth: whoever is waiting is refused a second entry, and
      whoever is not is not refused. */
  lemma {:induction false} QueueAndIndexAgree(states: seq<State>, events: seq<Event>, n: nat)
    requires IsRun(states, events) && n < |states| && Orderly(states[0].queue, states[0].now)
    requires forall i :: 0 <= i <= n ==> Prompt(states[i].queue, states[i].now)
    requires forall i :: 0 <= i < n ==> KeepsTogether(states[i], events[i])
    ensures Orderly(states[n].queue, states[n].now) && Agrees(states[n].queue, states[n].now)
  {
    hide Step, Orderly, Agrees, KeepsTogether;
    if n > 0 {
      QueueAndIndexAgree(states, events, n - 1);
      StepKeepsOrder(states[n - 1], events[n - 1], states[n]);
    }
    AgreementExactlyWhilePrompt(states[n].queue, states[n].now);
  }

  // ---- Who is served first ---------------------------------------------------------------------

  /** A request is matched although somebody is waiting. */
  predicate Overtakes(s: State, e: Event)
  {
    e.Ask? && e.response.Matched? && s.queue.list != []
  }

  /** Overtaking happens exactly if somebody waits while there is room, and the newcomer has a name, passes
      the duplicate check and gets a token. It takes one place, and everybody waiting goes on waiting. */
  lemma OvertakesExactly(s: State, e: Event, t: State)
    requires Step(s, e, t) && e.Ask?
    ensures Overtakes(s, e) <==>
      && s.queue.list != [] && TotalRoom(s.nodes) > 0 && e.playerID != ""
      && !e.luck.checkFails && !HasKey(s.queue, e.playerID, s.now) && e.luck.token.Some?
    ensures Overtakes(s, e) ==> t.queue == s.queue && TotalRoom(t.nodes) == TotalRoom(s.nodes) - 1
  {
    hide TotalRoom;
    if Overtakes(s, e) {
      PickTakesOnePlace(s.nodes, e.response.nodeID);
    }
  }

  /** Nobody waits while there is room. */
  ghost predicate Settled(s: State)
  {
    s.queue.list == [] || TotalRoom(s.nodes) == 0
  }

  lemma DrainUsesRoom(s: State, e: Event, t: State)
    requires Step(s, e, t) && e.Serve?
    ensures TotalRoom(t.nodes) == TotalRoom(s.nodes) - e.served
    ensures t.queue.list == s.queue.list[e.served..] ||
            (e.failed && e.served < |s.queue.list| && t.queue.list == s.queue.list[e.served + 1..])
  {
    hide TotalRoom, IsAllocation;
    var states, picks :| |picks| == e.served && Leads(states, picks, s.nodes, t.nodes);
    EveryPickTakesOnePlace(states, picks, |picks|);
    DequeueTakesAPrefix(s.queue, e.pops, e.served);
  }

  /** A drain leaves nobody waiting while there is room, unless a pop failed with players left. */
  lemma DrainSettlesExactly(s: State, e: Event, t: State)
    requires Step(s, e, t) && e.Serve?
    ensures Settled(t) <==> !e.failed || t.queue.list == []
  {
    hide TotalRoom, IsAllocation, DequeuedBy;
    DrainUsesRoom(s, e, t);
  }

  lemma NoEventButOperateUnsettles(s: State, e: Event, t: State)
    requires Step(s, e, t) && Settled(s) && !e.Operate?
    ensures Settled(t)
  {
    hide TotalRoom, IsAllocation, DequeuedBy;
    RoomMeansSuitable(s.nodes);
    RoomMeansSuitable(t.nodes);
    if e.Serve? {
      DrainUsesRoom(s, e, t);
    }
  }

  lemma TakingAwayMakesNoRoom(nodes: Nodes, op: Operation, now: int)
    requires !op.Register? && !op.Beat?
    ensures TotalRoom(Operated(nodes, op, now)) <= TotalRoom(nodes)
  {
    var after := Operated(nodes, op, now);
    RoomMeansSuitable(nodes);
    if op.Remove? {
      if op.id in nodes {
        TotalWithout(Rooms(nodes), op.id);
        assert Rooms(after) == Rooms(nodes) - {op.id};
      } else {
        assert after == nodes;
      }
    } else {
      TotalAtMost(Rooms(after), Rooms(nodes));
    }
  }

  /** Room appears for players who wait: a node registers or reports while the rest is full. */
  ghost predicate NewRoom(s: State, e: Event, t: State)
  {
    && e.Operate? && (e.op.Register? || e.op.Beat?)
    && s.queue.list != [] && TotalRoom(s.nodes) == 0 < TotalRoom(t.nodes)
  }

  lemma OnlyNewRoomUnsettles(s: State, e: Event, t: State)
    requires Step(s, e, t) && Settled(s) && !Settled(t)
    ensures NewRoom(s, e, t)
  {
    hide TotalRoom, Operated, RequestOutcome, DrainOutcome;
    RoomMeansSuitable(s.nodes);
    RoomMeansSuitable(t.nodes);
    if e.Operate? {
      if !e.op.Register? && !e.op.Beat? {
        TakingAwayMakesNoRoom(s.nodes, e.op, s.now);
      }
    } else {
      NoEventButOperateUnsettles(s, e, t);
    }
  }

  lemma {:induction false} WhatUnsettled(states: seq<State>, events: seq<Event>, m: nat, n: nat) returns (i: nat)
    requires IsRun(states, events) && m <= n <= |events| && Settled(states[m]) && !Settled(states[n])
    ensures m <= i < n && NewRoom(states[i], events[i], states[i + 1])
    decreases n - m
  {
    hide Step, Settled, NewRoom;
    if Settled(states[n - 1]) {
      OnlyNewRoomUnsettles(states[n - 1], events[n - 1], states[n]);
      return n - 1;
    }
    i := WhatUnsettled(states, events, m, n - 1);
  }

  /** In any run, whoever is served past the queue takes room that a registering or reporting node brought
      while players waited, after the start and after every drain that ended without an error. */
  lemma OvertakingNeedsNewRoom(states: seq<State>, events: seq<Event>, m: nat, n: nat) returns (i: nat)
    requires IsRun(states, events) && m <= n < |events| && Overtakes(states[n], events[n])
    requires m == 0 || (events[m - 1].Serve? && !events[m - 1].failed)
    ensures m <= i < n && NewRoom(states[i], events[i], states[i + 1])
  {
    hide TotalRoom, NewRoom, Step;
    OvertakesExactly(states[n], events[n], states[n + 1]);
    if m == 0 {
      RoomMeansSuitable(states[0].nodes);
    } else {
      DrainSettlesExactly(states[m - 1], events[m - 1], states[m]);
    }
    i := WhatUnsettled(states, events, m, n);
  }

  // ---- Two runs --------------------------------------------------------------------------------

  function AllGood(token: string): Luck
  {
    Luck(false, Pushed, Some(token))
  }

  lemma RoomOfOneNode(load: int, now: int)
    ensures TotalRoom(map[]) == 0
    ensures TotalRoom(OneNode(load, now)) == if load < 1 then 1 - load else 0
    ensures load < 1 ==> IsBest(OneNode(load, now), "n")
  {
    var nodes := OneNode(load, now);
    assert Rooms(nodes) == map["n" := Room(nodes["n"])];
    assert Rooms(map[]) == map[];
    TotalWithout(Rooms(nodes), "n");
    assert Rooms(nodes) - {"n"} == map[];
  }

  /** A run in which b is served before a, who asked first and goes on waiting without any room left. */
  lemma NewcomerIsServedFirst(now: int) returns (states: seq<State>, events: seq<Event>)
    ensures IsRun(states, events) && |events| == 3
    ensures events[0] == Ask("a", AllGood("t"), Waiting)
    ensures events[2] == Ask("b", AllGood("t"), Matched("n", "host", "t"))
    ensures Overtakes(states[2], events[2])
    ensures states[3].queue.list == [PlayerEntry("a", now)] && TotalRoom(states[3].nodes) == 0
  {
    hide TotalRoom, IsBest;
    RoomOfOneNode(0, now);
    RoomOfOneNode(1, now);
    var empty := QueueState([], map[]);
    var waiting := Enqueued(empty, "a", now, Pushed);
    states := [State(empty, map[], now), State(waiting, map[], now),
               State(waiting, OneNode(0, now), now), State(waiting, OneNode(1, now), now)];
    events := [Ask("a", AllGood("t"), Waiting), Operate(Register("n", "host", 1)),
               Ask("b", AllGood("t"), Matched("n", "host", "t"))];
    assert Step(states[0], events[0], states[1]);
    assert Step(states[1], events[1], states[2]);
    assert Step(states[2], events[2], states[3]);
  }

  /** A player who asks again after five minutes waits twice, and loses their key when served once. */
  lemma LateRequestQueuesTwice(playerID: string, now: int) returns (states: seq<State>, events: seq<Event>)
    requires playerID != ""
    ensures IsRun(states, events) && |events| == 5
    ensures events[0] == events[2] == Ask(playerID, AllGood("t"), Waiting)
    ensures events[1] == Wait(METADATA_TTL)
    ensures states[3].queue.list == [PlayerEntry(playerID, now), PlayerEntry(playerID, now + METADATA_TTL)]
    ensures OnList(states[5].queue, playerID) && !HasKey(states[5].queue, playerID, states[5].now)
  {
    hide TotalRoom, IsBest;
    var later := now + METADATA_TTL;
    RoomOfOneNode(0, later);
    RoomOfOneNode(1, later);
    var pops: nat -> PopOutcome := i => Popped;
    var empty := QueueState([], map[]);
    var once := Enqueued(empty, playerID, now, Pushed);
    var twice := Enqueued(once, playerID, later, Pushed);
    var ask := Ask(playerID, AllGood("t"), Waiting);
    states := [State(empty, map[], now), State(once, map[], now), State(once, map[], later), State(twice, map[], later),
               State(twice, OneNode(0, later), later), State(DequeuedBy(twice, pops, 1), OneNode(1, later), later)];
    events := [ask, Wait(METADATA_TTL), ask, Operate(Register("n", "host", 1)), Serve(pops, 1, false)];
    assert Step(states[0], events[0], states[1]);
    assert Step(states[1], events[1], states[2]);
    assert Step(states[2], events[2], states[3]);
    assert Step(states[3], events[3], states[4]);
    assert Step(states[4], events[4], states[5]) by {
      assert Leads([OneNode(0, later), OneNode(1, later)], ["n"], OneNode(0, later), OneNode(1, later));
    }
    DequeueTakesAPrefix(twice, pops, 1);
    assert states[5].queue.list[0].playerID == playerID;
  }
}
