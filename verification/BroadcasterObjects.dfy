/** The connection limiter and the broadcaster as the objects that the run loop and the request handlers update. Each
    method takes the step of Hub it stands for. */
module BroadcasterObjects {
  import opened Bundle
  import opened Hub

  class ConnectionLimiter {
    const limit: nat
    var ips: map<string, nat>

    constructor (limit: nat)
      ensures this.limit == limit && ips == map[]
    {
      this.limit := limit;
      ips := map[];
    }

    method AddConnection(ip: string) returns (admitted: bool)
      modifies this
      ensures admitted == (Count(old(ips), ip) < limit)
      ensures ips == if admitted then old(ips)[ip := Count(old(ips), ip) + 1] else old(ips)
    {
      var count := if ip in ips then ips[ip] else 0;
      if count >= limit {
        return false;
      }
      ips := ips[ip := count + 1];
      return true;
    }

    method RemoveConnection(ip: string)
      modifies this
      ensures ips == Released(old(ips), ip)
    {
      if ip in ips {
        if ips[ip] > 1 {
          ips := ips[ip := ips[ip] - 1];
        } else {
          ips := ips - {ip};
        }
      }
    }
  }

  /** A buffered Go channel. Sending on it or closing it once it is closed panics, so both demand that it is open. */
  class Channel {
    ghost const id: nat
    var queue: seq<Item>
    var closed: bool

    constructor (ghost id: nat)
      ensures this.id == id && queue == [] && !closed
    {
      this.id := id;
      queue, closed := [], false;
    }

    /** select with a default: sends unless the buffer is full. */
    method TrySend(item: Item) returns (sent: bool)
      requires !closed
      modifies this`queue
      ensures sent == (|old(queue)| < 256)
      ensures queue == if sent then old(queue) + [item] else old(queue)
    {
      sent := |queue| < QUEUE;
      if sent {
        queue := queue + [item];
      }
    }

    method Close()
      requires !closed
      modifies this`closed
      ensures closed
    {
      closed := true;
    }

    /** What is buffered can still be received after the close. */
    method Receive() returns (item: Item)
      requires queue != []
      modifies this`queue
      ensures [item] + queue == old(queue)
    {
      item := queue[0];
      queue := queue[1..];
    }
  }

  class Peer {
    ghost const id: nat
    const ip: string
    const send: Channel

    constructor (ghost id: nat, ip: string)
      ensures this.id == id && this.ip == ip && fresh(send) && send.id == id && send.queue == [] && !send.closed
    {
      this.id := id;
      this.ip := ip;
      send := new Channel(id);
    }
  }

  /** Peers and their channels are known by their numbers, and those in the clients map are among them. */
  ghost predicate Enlisted(clients: set<Peer>, peers: map<nat, Peer>) {
    && (forall id :: id in peers ==> peers[id].id == id && peers[id].send.id == id)
    && forall p :: p in clients ==> p.id in peers && peers[p.id] == p
  }

  lemma Enlist(clients: set<Peer>, peers: map<nat, Peer>, p: Peer)
    requires Enlisted(clients, peers) && p.id !in peers && p.send.id == p.id
    ensures Enlisted(clients + {p}, peers[p.id := p])
    ensures p !in clients && forall id :: id in peers ==> peers[id] != p
  {
  }

  lemma Strike(clients: set<Peer>, peers: map<nat, Peer>, p: Peer)
    requires Enlisted(clients, peers)
    ensures Enlisted(clients - {p}, peers)
  {
  }

  lemma OthersDiffer(clients: set<Peer>, peers: map<nat, Peer>, p: Peer)
    requires Enlisted(clients, peers) && p.id in peers && peers[p.id] == p
    ensures forall id :: id in peers && id != p.id ==> peers[id] != p && peers[id].send != p.send
  {
  }

  /** The clients while a tick goes on. */
  ghost function Progress(peers: map<nat, Peer>, before: map<nat, Client>, text: string, todo: set<Peer>): (r: map<nat, Client>)
    requires peers.Keys == before.Keys
    ensures r.Keys == before.Keys
  {
    map id | id in before :: if peers[id] in todo then before[id] else Offer(before[id], text)
  }

  lemma OneVisited(clients: set<Peer>, peers: map<nat, Peer>, before: map<nat, Client>, text: string, todo: set<Peer>,
                   p: Peer)
    requires Enlisted(clients, peers) && peers.Keys == before.Keys && p in todo && todo <= clients
    ensures p.id in peers && peers[p.id] == p && Progress(peers, before, text, todo)[p.id] == before[p.id]
    ensures Progress(peers, before, text, todo - {p})
            == Progress(peers, before, text, todo)[p.id := Offer(before[p.id], text)]
  {
    hide Offer;
  }

  class Broadcaster {
    const limiter: ConnectionLimiter
    var clients: set<Peer>
    var inbox: seq<string>
    var messageBuffer: seq<string>
    /** The messages passed to the recorder. */
    var recorded: seq<string>
    /** The machine state this object is in, and every client ever registered. */
    ghost var hub: Hub
    ghost var peers: map<nat, Peer>

    ghost function Channels(): set<object>
      reads this`peers
    {
      set id | id in peers :: peers[id].send
    }

    /** The peer is the client of the machine. */
    ghost predicate Shows(p: Peer, c: Client)
      reads this`clients, p.send
    {
      && p.ip == c.ip && p.send.queue == c.queue
      && (p.send.closed <==> !c.phase.Live?)
      && (p in clients <==> c.phase.Live?)
    }

    ghost predicate Registered(ids: set<nat>): (b: bool)
      reads this`clients, this`peers
      ensures b ==> peers.Keys == ids
    {
      peers.Keys == ids && Enlisted(clients, peers)
    }

    ghost predicate Valid()
      reads this, limiter, Channels()
    {
      && limiter.limit == hub.limit && limiter.ips == hub.counts
      && inbox == hub.inbox && messageBuffer == hub.buffer && recorded == hub.recorded
      && Registered(hub.clients.Keys) && ShowsAll(hub.clients)
    }

    ghost predicate ShowsAll(shown: map<nat, Client>)
      requires peers.Keys == shown.Keys
      reads this`clients, this`peers, Channels()
    {
      forall id :: id in peers ==> Shows(peers[id], shown[id])
    }

    constructor (limiter: ConnectionLimiter)
      requires limiter.ips == map[]
      ensures Valid() && hub == Start(limiter.limit) && this.limiter == limiter && Channels() == {}
    {
      this.limiter := limiter;
      clients, inbox, messageBuffer, recorded := {}, [], [], [];
      hub, peers := Start(limiter.limit), map[];
    }

    /** HandleConnections, up to the limiter's answer. */
    method Connect(ip: string) returns (admitted: bool)
      requires Valid()
      modifies this`hub, limiter
      ensures Valid() && hub == Next(old(hub), Event.Connect(ip))
      ensures admitted == (hub != old(hub))
    {
      admitted := limiter.AddConnection(ip);
      hub := Next(hub, Event.Connect(ip));
      assert admitted ==> ip in hub.pending && hub.pending[ip] == old(hub).pending[ip] + 1;
    }

    /** HandleConnections when the upgrade fails. */
    method UpgradeFailed(ip: string)
      requires Valid() && Enabled(hub, UpgradeFails(ip))
      modifies this`hub, limiter
      ensures Valid() && hub == Next(old(hub), UpgradeFails(ip))
    {
      limiter.RemoveConnection(ip);
      hub := Next(hub, UpgradeFails(ip));
    }

    /** The new client of HandleConnections and the register case of run. */
    method Register(ip: string, ghost id: nat) returns (client: Peer)
      requires Valid() && Enabled(hub, Event.Register(id, ip))
      modifies this`clients, this`hub, this`peers
      ensures Valid() && hub == Next(old(hub), Event.Register(id, ip))
      ensures fresh(client.send) && peers == old(peers)[id := client]
    {
      hide Next, ShowsAll;
      ghost var next := Next(hub, Event.Register(id, ip));
      RegisterStep(hub, id, ip);
      AllShown();
      client := new Peer(id, ip);
      Enlist(clients, peers, client);
      hide Enlisted;
      clients := clients + {client};
      peers := peers[id := client];
      forall i | i in peers
        ensures Shows(peers[i], next.clients[i])
      {
        if i != id {
          assert peers[i] == old(peers)[i] && Shows(peers[i], hub.clients[i]);
        }
      }
      ShownAll(next.clients);
      Take(next);
    }

    /** The end of HandleConnections; false where Go panics because the channel was closed meanwhile. */
    method SendInitial(client: Peer, text: string) returns (sent: bool)
      requires Valid() && client.id in peers && peers[client.id] == client
      requires Enabled(hub, Event.SendInitial(client.id, text))
      modifies this`hub, client.send`queue
      ensures Valid() && hub == Next(old(hub), Event.SendInitial(client.id, text))
      ensures sent == !client.send.closed
    {
      hide Next, ShowsAll;
      ghost var next := Next(hub, Event.SendInitial(client.id, text));
      InitialStep(hub, client.id, text);
      AllShown();
      OthersDiffer(clients, peers, client);
      hide Enlisted;
      sent := !client.send.closed;
      if sent {
        client.send.queue := client.send.queue + [Initial(text)];
      }
      forall i | i in peers
        ensures Shows(peers[i], next.clients[i])
      {
        assert i != client.id ==> Shows(peers[i], hub.clients[i]);
      }
      ShownAll(next.clients);
      Take(next);
    }

    /** The unregister case of run. */
    method Unregister(client: Peer)
      requires Valid() && client.id in peers && peers[client.id] == client
      requires Enabled(hub, Event.Unregister(client.id))
      modifies this`clients, this`hub, limiter, client.send`closed
      ensures Valid() && hub == Next(old(hub), Event.Unregister(client.id))
    {
      hide Next, ShowsAll;
      ghost var next := Next(hub, Event.Unregister(client.id));
      UnregisterStep(hub, client.id);
      AllShown();
      OthersDiffer(clients, peers, client);
      Strike(clients, peers, client);
      hide Enlisted;
      if client in clients {
        limiter.RemoveConnection(client.ip);
        clients := clients - {client};
        client.send.Close();
      }
      forall i | i in peers
        ensures Shows(peers[i], next.clients[i])
      {
        assert i != client.id ==> Shows(peers[i], hub.clients[i]);
      }
      ShownAll(next.clients);
      Take(next);
    }

    /** writePump: the next item goes out to the browser. */
    method Drain(client: Peer) returns (item: Item)
      requires Valid() && client.id in peers && peers[client.id] == client
      requires Enabled(hub, Event.Drain(client.id))
      modifies this`hub, client.send`queue
      ensures Valid() && hub == Next(old(hub), Event.Drain(client.id))
      ensures hub.clients[client.id].received == old(hub).clients[client.id].received + [item]
    {
      hide Next, ShowsAll;
      ghost var next := Next(hub, Event.Drain(client.id));
      DrainStep(hub, client.id);
      AllShown();
      OthersDiffer(clients, peers, client);
      hide Enlisted;
      item := client.send.Receive();
      forall i | i in peers
        ensures Shows(peers[i], next.clients[i])
      {
        assert i != client.id ==> Shows(peers[i], hub.clients[i]);
      }
      ShownAll(next.clients);
      Take(next);
    }

    /** Broadcast: a send on the channel of the run loop. */
    method Broadcast(message: string)
      requires Valid() && Enabled(hub, Submit(message))
      modifies this`inbox, this`hub
      ensures Valid() && hub == Next(old(hub), Submit(message))
    {
      inbox := inbox + [message];
      hub := Next(hub, Submit(message));
    }

    /** The broadcast case of run. */
    method Accept()
      requires Valid() && Enabled(hub, Event.Accept)
      modifies this`inbox, this`messageBuffer, this`recorded, this`hub
      ensures Valid() && hub == Next(old(hub), Event.Accept)
    {
      var message := inbox[0];
      inbox := inbox[1..];
      recorded := recorded + [message];
      messageBuffer := messageBuffer + [message];
      hub := Next(hub, Event.Accept);
    }

    /** The machine takes the step that the object has just taken. */
    ghost method Take(next: Hub)
      requires limiter.limit == next.limit && limiter.ips == next.counts
      requires inbox == next.inbox && messageBuffer == next.buffer && recorded == next.recorded
      requires Registered(next.clients.Keys) && ShowsAll(next.clients)
      modifies this`hub
      ensures Valid() && hub == next
    {
      hide Registered;
      hub := next;
    }

    lemma AllShown()
      requires Valid()
      ensures forall id :: id in peers ==> Shows(peers[id], hub.clients[id])
    {
    }

    lemma ShownAll(shown: map<nat, Client>)
      requires peers.Keys == shown.Keys && forall id :: id in peers ==> Shows(peers[id], shown[id])
      ensures ShowsAll(shown)
    {
    }

    /** What the tick's range has done: the clients it has not visited yet are as before. */
    ghost predicate Visited(before: map<nat, Client>, text: string, todo: set<Peer>)
      requires peers.Keys == before.Keys
      reads this`clients, this`peers, Channels()
    {
      ShowsAll(Progress(peers, before, text, todo))
    }

    /** The select of the tick: the payload is sent, or the client is dropped and its channel closed. */
    method SendOrDrop(client: Peer, text: string)
      requires !client.send.closed
      modifies this`clients, client.send
      ensures var queue := old(client.send.queue);
              if |queue| < QUEUE
              then clients == old(clients) && client.send.queue == queue + [Bundled(text)] && !client.send.closed
              else clients == old(clients) - {client} && client.send.queue == queue && client.send.closed
    {
      var sent := client.send.TrySend(Bundled(text));
      if !sent {
        client.send.Close();
        clients := clients - {client};
      }
    }

    /** One iteration of the tick's range. */
    method Deliver(client: Peer, text: string, ghost todo: set<Peer>)
      requires Registered(hub.clients.Keys) && client in todo && todo <= clients
      requires Visited(hub.clients, text, todo)
      modifies this`clients, client.send
      ensures Registered(hub.clients.Keys) && todo - {client} <= clients && Visited(hub.clients, text, todo - {client})
    {
      ghost var c, before := hub.clients[client.id], Progress(peers, hub.clients, text, todo);
      OthersDiffer(clients, peers, client);
      Strike(clients, peers, client);
      OneVisited(clients, peers, hub.clients, text, todo, client);
      hide Enlisted, Offered, Progress;
      assert Shows(client, c);
      SendOrDrop(client, text);
      ghost var after := Progress(peers, hub.clients, text, todo - {client});
      assert Shows(client, Offer(c, text));
      hide Offer;
      forall id | id in peers
        ensures Shows(peers[id], after[id])
      {
        assert id != client.id ==> Shows(peers[id], before[id]);
      }
    }

    lemma NoneVisited(text: string)
      requires Valid()
      ensures Visited(hub.clients, text, clients)
    {
    }

    lemma AllVisited(text: string)
      requires Registered(hub.clients.Keys) && Visited(hub.clients, text, {})
      ensures ShowsAll(Offered(hub.clients, text))
    {
      hide Offer;
    }

    /** The tick case of run, the range visiting the clients in whatever order it likes. */
    method Tick()
      requires Valid()
      modifies this`clients, this`messageBuffer, this`hub, Channels()
      ensures Valid() && hub == Next(old(hub), Event.Tick)
    {
      hide Payload, Next, Offered, ShowsAll, Shows, Visited, Enlisted;
      ghost var next := Next(hub, Event.Tick);
      TickStep(hub);
      if |messageBuffer| > 0 {
        var payload, len := BuildPayload(messageBuffer);
        SendToAll(payload[..len]);
        messageBuffer := [];
      }
      Take(next);
    }

    method SendToAll(text: string)
      requires Valid()
      modifies this`clients, Channels()
      ensures Registered(hub.clients.Keys) && ShowsAll(Offered(hub.clients, text))
    {
      hide Offered, ShowsAll, Shows, Visited;
      NoneVisited(text);
      var todo := clients;
      while todo != {}
        invariant Registered(hub.clients.Keys) && todo <= clients && Visited(hub.clients, text, todo)
        decreases todo
      {
        var client :| client in todo;
        Deliver(client, text, todo);
        todo := todo - {client};
      }
      AllVisited(text);
    }
  }
}
