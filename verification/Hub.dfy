/** The mutable hub: a map of client objects, each with a bounded send channel. */
module Hubs {
  import opened HubModel

  class Client {
    const playerID: string
    var sendCh: seq<Frame>
    var closed: bool
    ghost var joinedAt: nat
    ghost var delivered: seq<Frame>
    ghost var accepted: seq<nat>
    ghost var dropped: nat

    ghost function View(): Conn
      reads this
    {
      Conn(playerID, sendCh, closed, joinedAt, delivered, accepted, dropped)
    }

    /** Not yet known to the hub, which sets joinedAt when it takes the client in. */
    constructor (playerID: string)
      ensures this.playerID == playerID && View() == NewConn(playerID, joinedAt)
    {
      this.playerID := playerID;
      sendCh, closed := [], false;
      joinedAt, delivered, accepted, dropped := 0, [], [], 0;
    }

    /** A send that never blocks; sending on a closed channel would crash the node. */
    method TrySend(data: Frame, ghost number: nat)
      requires !View().closed
      modifies this
      ensures View() == Offered(old(View()), data, number)
      ensures sendCh == old(sendCh) + (if |old(sendCh)| < 64 then [data] else [])
      ensures dropped == old(dropped) + (if |old(sendCh)| < 64 then 0 else 1)
    {
      if |sendCh| < SEND_BUFFER {
        sendCh := sendCh + [data];
        accepted := accepted + [number];
      } else {
        dropped := dropped + 1;
      }
    }

    /** The writer's receive; nothing happens on an empty buffer. */
    method Receive()
      modifies this
      ensures View() == Written(old(View()))
    {
      if sendCh != [] {
        delivered := delivered + [sendCh[0]];
        sendCh := sendCh[1..];
      }
    }
  }

  class Hub {
    var clients: map<string, Client>
    ghost var all: seq<Client>
    ghost var slots: map<string, nat>
    ghost var sent: seq<Frame>

    /** all lists every client ever added, each once; slots says where the current ones are in it. */
    ghost predicate Valid()
      reads this, all
    {
      && (forall i, j :: 0 <= i < j < |all| ==> all[i] != all[j])
      && clients.Keys == slots.Keys
      && (forall p :: p in clients ==> slots[p] < |all| && all[slots[p]] == clients[p] && clients[p].playerID == p)
      && Good(View())
    }

    ghost function View(): HubState
      reads this, all
    {
      HubState(seq(|all|, i requires 0 <= i < |all| reads this, all => all[i].View()), slots, sent)
    }

    constructor ()
      ensures Valid() && View() == HubState([], map[], [])
    {
      clients, all, slots, sent := map[], [], map[], [];
    }

    /** Broadcasts may have come since the client was made; it takes part from now on. */
    method AddClient(client: Client)
      requires Valid() && client !in all
      requires client.View() == NewConn(client.playerID, client.joinedAt)
      modifies this, client
      ensures Valid() && View() == Connected(old(View()), client.playerID)
    {
      client.joinedAt := |sent|;
      EventKeepsGood(View(), Connect(client.playerID));
      slots := slots[client.playerID := |all|];
      all := all + [client];
      clients := clients[client.playerID := client];
      assert View() == Connected(old(View()), client.playerID);
    }

    method RemoveClient(playerID: string)
      requires Valid()
      modifies this, all
      ensures Valid() && View() == Disconnected(old(View()), playerID)
    {
      hide Good;
      if playerID in clients {
        EventKeepsGood(View(), Disconnect(playerID));
        clients[playerID].closed := true;
        clients := clients - {playerID};
        slots := slots - {playerID};
        assert View() == Disconnected(old(View()), playerID);
      }
    }

    twostate lemma OneChanged(k: nat)
      requires all == old(all) && k < |all|
      requires forall j :: 0 <= j < |all| && j != k ==> unchanged(all[j])
      ensures View().conns == old(View()).conns[k := all[k].View()]
    {
      hide Client.View;
    }

    /** The send loop: every current client is offered the frame once, in any order. */
    method OfferToAll(data: Frame)
      requires Valid()
      modifies all
      ensures View().conns == OfferedBut(old(View()), {}, data)
    {
      hide Good, Offered, OfferedBut, Client.View;
      ghost var before := View();
      var rest := clients.Keys;
      assert rest == before.clients.Keys;
      NothingOffered(before, data);
      while rest != {}
        invariant rest <= clients.Keys
        invariant View().conns == OfferedBut(before, rest, data)
        decreases |rest|
      {
        var p :| p in rest;
        label Before:
        OfferNext(before, rest, data, p);
        ViewAt(slots[p]);
        clients[p].TrySend(data, |sent|);
        OneChanged@Before(slots[p]);
        rest := rest - {p};
      }
    }

    lemma ViewAt(k: nat)
      requires k < |all|
      ensures |View().conns| == |all| && View().conns[k] == all[k].View()
    {
    }

    lemma SeenAt(k: nat)
      requires k < |all|
      ensures View().conns[k].buffer == all[k].sendCh && View().conns[k].dropped == all[k].dropped
    {
    }

    twostate lemma WasSeenAt(k: nat)
      requires all == old(all) && k < |all|
      ensures old(View()).conns[k].buffer == old(all[k].sendCh) && old(View()).conns[k].dropped == old(all[k].dropped)
      ensures old(View()).conns[k].playerID == all[k].playerID
    {
    }

    /** Offers the frame to every current client; no channel it sends on is closed. */
    method Broadcast(data: Frame)
      requires Valid()
      modifies this, all
      ensures Valid() && View() == Broadcasted(old(View()), data) && clients == old(clients)
      ensures forall p :: p in clients ==>
        && clients[p].sendCh == old(clients[p].sendCh) + (if |old(clients[p].sendCh)| < 64 then [data] else [])
        && clients[p].dropped == old(clients[p].dropped) + (if |old(clients[p].sendCh)| < 64 then 0 else 1)
    {
      hide Faithful, Offered, Client.View;
      EventKeepsGood(View(), HubModel.Broadcast(data));
      OfferToAll(data);
      ghost var conns := View().conns;
      sent := sent + [data];
      assert View().conns == conns == Broadcasted(old(View()), data).conns;
      forall p | p in clients
        ensures clients[p].sendCh == old(clients[p].sendCh) + (if |old(clients[p].sendCh)| < 64 then [data] else [])
        ensures clients[p].dropped == old(clients[p].dropped) + (if |old(clients[p].sendCh)| < 64 then 0 else 1)
      {
        BroadcastReachesExactly(old(View()), data, slots[p]);
        SeenAt(slots[p]);
        WasSeenAt(slots[p]);
      }
    }
  }

  lemma NothingOffered(h: HubState, frame: Frame)
    ensures OfferedBut(h, h.clients.Keys, frame) == h.conns
  {
  }
}
