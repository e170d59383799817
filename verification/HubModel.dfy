/** Broadcast through bounded per-client buffers: what a client gets, misses and can never get. */
module HubModel {

  const SEND_BUFFER := 64

  type Frame = seq<bv8>

  /** One connection. The last four fields are its account: when it joined, what was written to the
      socket, which broadcasts were accepted, and how many were dropped. */
  datatype Conn = Conn(
    playerID: string, buffer: seq<Frame>, closed: bool,
    joinedAt: nat, delivered: seq<Frame>, accepted: seq<nat>, dropped: nat)

  /** Every connection ever made, the connection each player is reached by, and all broadcasts. */
  datatype HubState = HubState(conns: seq<Conn>, clients: map<string, nat>, sent: seq<Frame>)

  function NewConn(playerID: string, joinedAt: nat): Conn
  {
    Conn(playerID, [], false, joinedAt, [], [], 0)
  }

  /** A full buffer drops the frame rather than blocking. */
  function Offered(c: Conn, frame: Frame, number: nat): Conn
  {
    if |c.buffer| < SEND_BUFFER then
      c.(buffer := c.buffer + [frame], accepted := c.accepted + [number])
    else
      c.(dropped := c.dropped + 1)
  }

  /** The writer takes the oldest buffered frame, also from a closed channel. */
  function Written(c: Conn): Conn
  {
    if c.buffer == [] then c else c.(buffer := c.buffer[1..], delivered := c.delivered + [c.buffer[0]])
  }

  predicate Linked(h: HubState, i: nat)
  {
    i < |h.conns| && h.conns[i].playerID in h.clients && h.clients[h.conns[i].playerID] == i
  }

  /** A new connection takes over the player's entry; the old channel is neither closed nor reachable. */
  function Connected(h: HubState, playerID: string): HubState
  {
    h.(conns := h.conns + [NewConn(playerID, |h.sent|)], clients := h.clients[playerID := |h.conns|])
  }

  /** Whoever removes a player closes the connection that is current then. */
  function Disconnected(h: HubState, playerID: string): HubState
  {
    if playerID in h.clients && h.clients[playerID] < |h.conns| then
      var i := h.clients[playerID];
      h.(conns := h.conns[i := h.conns[i].(closed := true)], clients := h.clients - {playerID})
    else h
  }

  function Broadcasted(h: HubState, frame: Frame): HubState
  {
    h.(conns := seq(|h.conns|, i requires 0 <= i < |h.conns| =>
                      if Linked(h, i) then Offered(h.conns[i], frame, |h.sent|) else h.conns[i]),
       sent := h.sent + [frame])
  }

  /** The connections while the players in rest have not been offered the frame yet. */
  function OfferedBut(h: HubState, rest: set<string>, frame: Frame): seq<Conn>
  {
    seq(|h.conns|, i requires 0 <= i < |h.conns| =>
      if Linked(h, i) && h.conns[i].playerID !in rest then Offered(h.conns[i], frame, |h.sent|) else h.conns[i])
  }

  lemma OfferNext(h: HubState, rest: set<string>, frame: Frame, p: string)
    requires Good(h) && p in rest && rest <= h.clients.Keys
    ensures
      var i := h.clients[p];
      && OfferedBut(h, rest, frame)[i] == h.conns[i] && !h.conns[i].closed
      && OfferedBut(h, rest - {p}, frame) == OfferedBut(h, rest, frame)[i := Offered(h.conns[i], frame, |h.sent|)]
  {
    hide Faithful, Offered;
    assert Linked(h, h.clients[p]);
  }

  function Delivered(h: HubState, i: nat): HubState
  {
    if i < |h.conns| then h.(conns := h.conns[i := Written(h.conns[i])]) else h
  }

  // ---- What holds of one connection ------------------------------------------------------------

  /** Delivered then buffered frames are the accepted broadcasts, in order, none from before joining. */
  ghost predicate Faithful(c: Conn, sent: seq<Frame>)
  {
    && |c.buffer| <= SEND_BUFFER && c.joinedAt <= |sent|
    && |c.accepted| == |c.delivered| + |c.buffer|
    && (forall k :: 0 <= k < |c.accepted| ==>
          c.joinedAt <= c.accepted[k] < |sent| && (c.delivered + c.buffer)[k] == sent[c.accepted[k]])
    && (forall k, m :: 0 <= k < m < |c.accepted| ==> c.accepted[k] < c.accepted[m])
  }

  lemma OfferIsFaithful(c: Conn, sent: seq<Frame>, frame: Frame)
    requires Faithful(c, sent)
    ensures Faithful(c, sent + [frame]) && Faithful(Offered(c, frame, |sent|), sent + [frame])
  {
    var d := Offered(c, frame, |sent|);
    if |c.buffer| < SEND_BUFFER {
      var before := c.delivered + c.buffer;
      assert d.delivered + d.buffer == before + [frame];
      forall k | 0 <= k < |d.accepted|
        ensures c.joinedAt <= d.accepted[k] < |sent + [frame]|
        ensures (before + [frame])[k] == (sent + [frame])[d.accepted[k]]
      {
        assert k < |c.accepted| ==> before[k] == sent[c.accepted[k]];
      }
    }
  }

  lemma WriteIsFaithful(c: Conn, sent: seq<Frame>)
    requires Faithful(c, sent)
    ensures Faithful(Written(c), sent)
  {
    assert Written(c).delivered + Written(c).buffer == c.delivered + c.buffer;
  }

  // ---- What holds of the hub -------------------------------------------------------------------

  /** Every connection is faithful; every linked one is open and accounts for every broadcast since it
      joined as delivered, buffered or dropped. */
  ghost predicate Good(h: HubState)
  {
    && (forall i :: 0 <= i < |h.conns| ==> Faithful(h.conns[i], h.sent))
    && (forall p :: p in h.clients ==> h.clients[p] < |h.conns| && h.conns[h.clients[p]].playerID == p)
    && (forall i :: 0 <= i < |h.conns| && Linked(h, i) ==>
          !h.conns[i].closed && h.conns[i].joinedAt + |h.conns[i].accepted| + h.conns[i].dropped == |h.sent|)
  }

  datatype Event = Connect(playerID: string) | Disconnect(playerID: string) | Broadcast(frame: Frame) | Write(conn: nat)

  function After(h: HubState, e: Event): HubState
  {
    match e
    case Connect(playerID) => Connected(h, playerID)
    case Disconnect(playerID) => Disconnected(h, playerID)
    case Broadcast(frame) => Broadcasted(h, frame)
    case Write(i) => Delivered(h, i)
  }

  lemma BroadcastKeepsGood(h: HubState, frame: Frame)
    requires Good(h)
    ensures Good(Broadcasted(h, frame))
  {
    var g := Broadcasted(h, frame);
    hide Faithful;
    forall i | 0 <= i < |h.conns|
      ensures Faithful(g.conns[i], g.sent) && Linked(g, i) == Linked(h, i)
    {
      OfferIsFaithful(h.conns[i], h.sent, frame);
    }
  }

  lemma EventKeepsGood(h: HubState, e: Event)
    requires Good(h)
    ensures Good(After(h, e))
  {
    hide Faithful;
    match e
    case Connect(playerID) =>
      NewIsFaithful(playerID, h.sent);
      var g := After(h, e);
      forall i | 0 <= i < |g.conns| && Linked(g, i)
        ensures i == |h.conns| || Linked(h, i)
      {
      }
    case Disconnect(playerID) =>
      if playerID in h.clients {
        CloseIsFaithful(h.conns[h.clients[playerID]], h.sent);
        var g := After(h, e);
        forall i | 0 <= i < |g.conns| && Linked(g, i)
          ensures Linked(h, i) && i != h.clients[playerID]
        {
        }
      }
    case Broadcast(frame) => BroadcastKeepsGood(h, frame);
    case Write(i) =>
      if i < |h.conns| {
        WriteIsFaithful(h.conns[i], h.sent);
        var g := After(h, e);
        forall j | 0 <= j < |g.conns|
          ensures Linked(g, j) == Linked(h, j)
        {
        }
      }
  }

  lemma NewIsFaithful(playerID: string, sent: seq<Frame>)
    ensures Faithful(NewConn(playerID, |sent|), sent)
  {
  }

  lemma CloseIsFaithful(c: Conn, sent: seq<Frame>)
    requires Faithful(c, sent)
    ensures Faithful(c.(closed := true), sent)
  {
  }

  ghost predicate IsRun(states: seq<HubState>, events: seq<Event>)
  {
    && |states| == |events| + 1
    && states[0] == HubState([], map[], [])
    && forall i :: 0 <= i < |events| ==> states[i + 1] == After(states[i], events[i])
  }

  /** For any interleaving of broadcasts, writes, joins and leaves: what a connection was delivered and
      still has buffered is an in-order part of the broadcasts since it joined, no buffer exceeds its
      bound, and no channel the hub can reach is closed. */
  lemma {:induction false} BroadcastHistory(states: seq<HubState>, events: seq<Event>, n: nat)
    requires IsRun(states, events) && n < |states|
    ensures Good(states[n])
  {
    hide Good, After;
    if n == 0 {
      EmptyIsGood();
    } else {
      BroadcastHistory(states, events, n - 1);
      EventKeepsGood(states[n - 1], events[n - 1]);
    }
  }

  lemma EmptyIsGood()
    ensures Good(HubState([], map[], []))
  {
  }

  /** A current connection has, delivered or buffered, every broadcast since it joined, in order, if and
      only if it dropped nothing: dropping on a full buffer is the only loss. */
  lemma NothingDroppedNothingLost(h: HubState, i: nat)
    requires Good(h) && Linked(h, i)
    ensures h.conns[i].delivered + h.conns[i].buffer == h.sent[h.conns[i].joinedAt..] <==> h.conns[i].dropped == 0
  {
    var c := h.conns[i];
    if c.dropped == 0 {
      forall k | 0 <= k < |c.accepted|
        ensures c.accepted[k] == c.joinedAt + k
      {
        RoomBelow(c, h.sent, k);
        RoomAbove(c, h.sent, k);
      }
    } else {
      assert |c.delivered + c.buffer| < |h.sent[c.joinedAt..]|;
    }
  }

  lemma {:induction false} RoomBelow(c: Conn, sent: seq<Frame>, k: nat)
    requires Faithful(c, sent) && k < |c.accepted|
    ensures c.accepted[k] >= c.joinedAt + k
  {
    if k > 0 {
      RoomBelow(c, sent, k - 1);
    }
  }

  lemma {:induction false} RoomAbove(c: Conn, sent: seq<Frame>, k: nat)
    requires Faithful(c, sent) && k < |c.accepted|
    ensures c.accepted[k] + (|c.accepted| - k) <= |sent|
    decreases |c.accepted| - k
  {
    if k + 1 < |c.accepted| {
      RoomAbove(c, sent, k + 1);
    }
  }

  // ---- What each event does ----------------------------------------------------------------------

  /** A broadcast goes last into every current buffer of fewer than 64 frames; a full one loses it and
      counts it. Nobody else's connection changes. */
  lemma BroadcastReachesExactly(h: HubState, frame: Frame, i: nat)
    requires i < |h.conns|
    ensures
      var c, d := h.conns[i], Broadcasted(h, frame).conns[i];
      && (Linked(h, i) && |c.buffer| < 64 ==>
            d.buffer == c.buffer + [frame] && d.dropped == c.dropped && d.delivered == c.delivered)
      && (Linked(h, i) && |c.buffer| >= 64 ==>
            d.buffer == c.buffer && d.dropped == c.dropped + 1 && d.delivered == c.delivered)
      && (!Linked(h, i) ==> d == c)
      && Linked(Broadcasted(h, frame), i) == Linked(h, i)
  {
  }

  /** A joining player is reached by a new open connection; all connections so far stay as they are. */
  lemma JoiningExactly(h: HubState, playerID: string)
    ensures
      var g, n := Connected(h, playerID), |h.conns|;
      && |g.conns| == n + 1 && g.conns[..n] == h.conns && Linked(g, n) && g.conns[n].playerID == playerID
      && !g.conns[n].closed && g.conns[n].buffer == g.conns[n].delivered == [] && g.conns[n].joinedAt == |h.sent|
      && g.conns[n].dropped == 0
      && forall i: nat :: i < n ==> (Linked(g, i) <==> Linked(h, i) && h.conns[i].playerID != playerID)
  {
  }

  /** A leaving player's current connection is closed and no longer reached; what it has buffered stays,
      and no other connection changes. */
  lemma LeavingExactly(h: HubState, playerID: string, i: nat)
    requires Good(h) && i < |h.conns|
    ensures
      var c, g := h.conns[i], Disconnected(h, playerID);
      var leaves := Linked(h, i) && c.playerID == playerID;
      && |g.conns| == |h.conns| && playerID !in g.clients
      && (Linked(g, i) <==> Linked(h, i) && c.playerID != playerID)
      && g.conns[i].closed == (c.closed || leaves)
      && g.conns[i].buffer == c.buffer && g.conns[i].delivered == c.delivered && g.conns[i].dropped == c.dropped
  {
  }

  /** The connection after n writes. */
  function WrittenTimes(c: Conn, n: nat): Conn
  {
    if n == 0 then c else Written(WrittenTimes(c, n - 1))
  }

  /** Writing delivers the buffer from the front, frame by frame, down to the last. */
  lemma {:induction false} WritesDeliverTheBuffer(c: Conn, n: nat)
    requires n <= |c.buffer|
    ensures WrittenTimes(c, n).delivered == c.delivered + c.buffer[..n]
    ensures WrittenTimes(c, n).buffer == c.buffer[n..]
  {
    if n > 0 {
      WritesDeliverTheBuffer(c, n - 1);
    }
  }

  // ---- Drops over runs ---------------------------------------------------------------------------

  /** The event is a broadcast that finds the connection current and its buffer holding 64 frames. */
  predicate FindsItFull(h: HubState, e: Event, i: nat)
  {
    e.Broadcast? && i < |h.conns| && Linked(h, i) && |h.conns[i].buffer| >= 64
  }

  /** How many of the first n events do. */
  ghost function FullBroadcasts(states: seq<HubState>, events: seq<Event>, n: nat, i: nat): nat
    requires IsRun(states, events) && n <= |events|
  {
    if n == 0 then 0
    else FullBroadcasts(states, events, n - 1, i) + if FindsItFull(states[n - 1], events[n - 1], i) then 1 else 0
  }

  lemma EventDropsExactly(h: HubState, e: Event, i: nat)
    requires i < |After(h, e).conns|
    ensures i < |h.conns| ==>
      After(h, e).conns[i].dropped == h.conns[i].dropped + if FindsItFull(h, e, i) then 1 else 0
    ensures i >= |h.conns| ==> After(h, e).conns[i].dropped == 0 && !FindsItFull(h, e, i)
  {
  }

  lemma {:induction false} NotYetThere(states: seq<HubState>, events: seq<Event>, n: nat, i: nat)
    requires IsRun(states, events) && n <= |events| && i >= |states[n].conns|
    ensures FullBroadcasts(states, events, n, i) == 0
  {
    if n > 0 {
      ConnsOnlyGrow(states[n - 1], events[n - 1]);
      NotYetThere(states, events, n - 1, i);
    }
  }

  lemma ConnsOnlyGrow(h: HubState, e: Event)
    ensures |After(h, e).conns| >= |h.conns|
  {
  }

  /** Over any run a connection has dropped exactly the broadcasts that found it current with 64 frames
      buffered; so it has dropped nothing if and only if every broadcast found it with fewer. */
  lemma {:induction false} DroppedExactlyOnFull(states: seq<HubState>, events: seq<Event>, n: nat, i: nat)
    requires IsRun(states, events) && n <= |events| && i < |states[n].conns|
    ensures states[n].conns[i].dropped == FullBroadcasts(states, events, n, i)
    ensures states[n].conns[i].dropped == 0 <==>
      forall m: nat :: m < n ==> !FindsItFull(states[m], events[m], i)
  {
    hide FindsItFull, After, Linked;
    if n > 0 {
      EventDropsExactly(states[n - 1], events[n - 1], i);
      if i < |states[n - 1].conns| {
        DroppedExactlyOnFull(states, events, n - 1, i);
      } else {
        NotYetThere(states, events, n - 1, i);
        NothingFound(states, events, n - 1, i);
      }
    }
  }

  lemma {:induction false} NothingFound(states: seq<HubState>, events: seq<Event>, n: nat, i: nat)
    requires IsRun(states, events) && n <= |events| && FullBroadcasts(states, events, n, i) == 0
    ensures forall m: nat :: m < n ==> !FindsItFull(states[m], events[m], i)
  {
    hide FindsItFull, After;
    if n > 0 {
      NothingFound(states, events, n - 1, i);
    }
  }
}
