/** The broadcast hub with the connection limiter as a step machine: every interleaving of the run loop, the request
    handlers, and the pumps of the clients is a run of it. */
module Hub {
  import opened Wrappers
  import opened Bundle

  /** The capacity of a client's send channel and of the broadcast channel. */
  const QUEUE: nat := 256

  /** What travels in a send channel: the state at connection time, or a bundle. */
  datatype Item = Initial(text: string) | Bundled(text: string)

  /** Live: in the clients map. Gone: removed through unregister. Evicted: removed because its channel was full. The
      channel of a client that is not live is closed. */
  datatype Phase = Live | Gone | Evicted

  /** A client ever registered. joined and left number the bundles between which it was live. */
  datatype Client = Client(ip: string, phase: Phase, queue: seq<Item>, received: seq<Item>, joined: nat, left: nat)

  /** pending: admitted by the limiter and neither registered nor failed yet. submitted, recorded and bundles
      remember every message passed to Broadcast, every message handed to the recorder and every bundle. */
  datatype Hub = Hub(
    limit: nat, counts: map<string, nat>, pending: multiset<string>, clients: map<nat, Client>,
    submitted: seq<string>, inbox: seq<string>, recorded: seq<string>, buffer: seq<string>, bundles: seq<seq<string>>)

  datatype Event =
    | Connect(ip: string)
    | UpgradeFails(ip: string)
    | Register(id: nat, ip: string)
    | SendInitial(id: nat, text: string)
    | Unregister(id: nat)
    | Submit(message: string)
    | Accept
    | Tick
    | Drain(id: nat)

  function Start(limit: nat): Hub {
    Hub(limit, map[], multiset{}, map[], [], [], [], [], [])
  }

  // ---- the limiter ----

  function Count(counts: map<string, nat>, ip: string): nat {
    if ip in counts then counts[ip] else 0
  }

  function Released(counts: map<string, nat>, ip: string): map<string, nat> {
    if ip !in counts then counts
    else if counts[ip] > 1 then counts[ip := counts[ip] - 1]
    else counts - {ip}
  }

  // ---- the steps ----

  predicate Enabled(h: Hub, ev: Event) {
    match ev
    case Connect(_) => true
    case UpgradeFails(ip) => ip in h.pending
    case Register(id, ip) => ip in h.pending && id !in h.clients
    case SendInitial(id, _) => id in h.clients && (h.clients[id].phase.Live? ==> |h.clients[id].queue| < QUEUE)
    case Unregister(id) => id in h.clients
    case Submit(_) => |h.inbox| < QUEUE
    case Accept => h.inbox != []
    case Tick => true
    case Drain(id) => id in h.clients && h.clients[id].queue != []
  }

  /** The select of the tick for one client: the payload fits, or the client is evicted. */
  function Offer(c: Client, text: string): Client {
    if !c.phase.Live? then c
    else if |c.queue| < QUEUE then c.(queue := c.queue + [Bundled(text)], left := c.left + 1)
    else c.(phase := Evicted)
  }

  function Offered(clients: map<nat, Client>, text: string): (r: map<nat, Client>)
    ensures r.Keys == clients.Keys
  {
    map id | id in clients :: Offer(clients[id], text)
  }

  function Next(h: Hub, ev: Event): Hub
    requires Enabled(h, ev)
  {
    match ev
    case Connect(ip) =>
      if Count(h.counts, ip) >= h.limit then h
      else h.(counts := h.counts[ip := Count(h.counts, ip) + 1], pending := h.pending + multiset{ip})
    case UpgradeFails(ip) => h.(counts := Released(h.counts, ip), pending := h.pending - multiset{ip})
    case Register(id, ip) =>
      h.(pending := h.pending - multiset{ip},
         clients := h.clients[id := Client(ip, Live, [], [], |h.bundles|, |h.bundles|)])
    case SendInitial(id, text) =>
      // on a closed channel the send panics in the request handler, which leaves the hub as it is
      if h.clients[id].phase.Live?
      then h.(clients := h.clients[id := h.clients[id].(queue := h.clients[id].queue + [Initial(text)])])
      else h
    case Unregister(id) =>
      if h.clients[id].phase.Live?
      then h.(counts := Released(h.counts, h.clients[id].ip), clients := h.clients[id := h.clients[id].(phase := Gone)])
      else h
    case Submit(m) => h.(submitted := h.submitted + [m], inbox := h.inbox + [m])
    case Accept => h.(recorded := h.recorded + [h.inbox[0]], buffer := h.buffer + [h.inbox[0]], inbox := h.inbox[1..])
    case Tick =>
      if h.buffer == [] then h
      else h.(clients := Offered(h.clients, Payload(h.buffer)), bundles := h.bundles + [h.buffer], buffer := [])
    case Drain(id) =>
      var c := h.clients[id];
      h.(clients := h.clients[id := c.(queue := c.queue[1..], received := c.received + [c.queue[0]])])
  }

  /** The state after the events; None when one of them was not possible. */
  function Run(h: Hub, evs: seq<Event>): Option<Hub> {
    if evs == [] then Some(h)
    else
      var n := |evs| - 1;
      var mid := Run(h, evs[..n]);
      if mid.Some? && Enabled(mid.value, evs[n]) then Some(Next(mid.value, evs[n])) else None
  }

  ghost predicate Reachable(h: Hub) {
    exists evs :: Run(Start(h.limit), evs) == Some(h)
  }

  // ---- the steps one by one ----

  lemma ConnectStep(h: Hub, ip: string)
    ensures Next(h, Connect(ip))
            == if Count(h.counts, ip) >= h.limit then h
               else h.(counts := h.counts[ip := Count(h.counts, ip) + 1], pending := h.pending + multiset{ip})
  {
  }

  lemma FailStep(h: Hub, ip: string)
    requires ip in h.pending
    ensures Next(h, UpgradeFails(ip)) == h.(counts := Released(h.counts, ip), pending := h.pending - multiset{ip})
  {
  }

  lemma MessageStep(h: Hub, ev: Event)
    requires Enabled(h, ev) && (ev.Submit? || ev.Accept?)
    ensures var h' := Next(h, ev);
            h' == h.(submitted := h'.submitted, inbox := h'.inbox, recorded := h'.recorded, buffer := h'.buffer)
  {
  }

  lemma RegisterStep(h: Hub, id: nat, ip: string)
    requires Enabled(h, Event.Register(id, ip))
    ensures Next(h, Event.Register(id, ip))
            == h.(pending := h.pending - multiset{ip},
                  clients := h.clients[id := Client(ip, Live, [], [], |h.bundles|, |h.bundles|)])
  {
  }

  lemma InitialStep(h: Hub, id: nat, text: string)
    requires Enabled(h, Event.SendInitial(id, text))
    ensures var c := h.clients[id];
            Next(h, Event.SendInitial(id, text))
            == if c.phase.Live? then h.(clients := h.clients[id := c.(queue := c.queue + [Initial(text)])]) else h
  {
  }

  lemma UnregisterStep(h: Hub, id: nat)
    requires Enabled(h, Event.Unregister(id))
    ensures var c := h.clients[id];
            Next(h, Event.Unregister(id))
            == if c.phase.Live? then h.(counts := Released(h.counts, c.ip), clients := h.clients[id := c.(phase := Gone)])
               else h
  {
  }

  lemma DrainStep(h: Hub, id: nat)
    requires Enabled(h, Event.Drain(id))
    ensures var c := h.clients[id];
            Next(h, Event.Drain(id))
            == h.(clients := h.clients[id := c.(queue := c.queue[1..], received := c.received + [c.queue[0]])])
  {
  }

  lemma TickStep(h: Hub)
    ensures Next(h, Event.Tick)
            == if h.buffer == [] then h
               else h.(clients := Offered(h.clients, Payload(h.buffer)), bundles := h.bundles + [h.buffer], buffer := [])
  {
  }

  // ---- the ledger of connections ----

  function InPhase(clients: map<nat, Client>, ip: string, phase: Phase): set<nat> {
    set id | id in clients && clients[id].ip == ip && clients[id].phase == phase
  }

  /** The clients of an address that still hold a place in the limiter. */
  function Held(clients: map<nat, Client>, ip: string): set<nat> {
    InPhase(clients, ip, Live) + InPhase(clients, ip, Evicted)
  }

  /** The count of an address is what is on its way plus the clients that hold a place, within the limit. */
  ghost predicate Balanced(h: Hub, ip: string) {
    Count(h.counts, ip) == h.pending[ip] + |Held(h.clients, ip)| <= h.limit
  }

  ghost predicate Ledger(h: Hub) {
    forall ip :: Balanced(h, ip)
  }

  lemma LedgerSplits(clients: map<nat, Client>, ip: string)
    ensures |Held(clients, ip)| == |InPhase(clients, ip, Live)| + |InPhase(clients, ip, Evicted)|
  {
    assert InPhase(clients, ip, Live) !! InPhase(clients, ip, Evicted);
  }

  lemma HeldByNew(clients: map<nat, Client>, id: nat, c: Client, ip: string)
    requires id !in clients && c.phase == Live
    ensures |Held(clients[id := c], ip)| == |Held(clients, ip)| + if c.ip == ip then 1 else 0
  {
    assert Held(clients[id := c], ip) == Held(clients, ip) + if c.ip == ip then {id} else {};
  }

  lemma HeldMember(clients: map<nat, Client>, ip: string, id: nat)
    ensures id in Held(clients, ip) <==> id in clients && clients[id].ip == ip && !clients[id].phase.Gone?
  {
  }

  lemma HeldWithoutGone(clients: map<nat, Client>, id: nat, ip: string)
    requires id in clients && clients[id].phase == Live
    ensures var c := clients[id];
            |Held(clients[id := c.(phase := Gone)], ip)| + (if c.ip == ip then 1 else 0) == |Held(clients, ip)|
  {
    hide Held;
    var c := clients[id];
    var after := clients[id := c.(phase := Gone)];
    var lost := if c.ip == ip then {id} else {};
    forall x
      ensures x in Held(clients, ip) <==> x in Held(after, ip) + lost
      ensures !(x in Held(after, ip) && x in lost)
    {
      HeldMember(clients, ip, x);
      HeldMember(after, ip, x);
    }
    assert Held(clients, ip) == Held(after, ip) + lost;
    assert Held(after, ip) !! lost;
  }

  lemma HeldAlike(clients: map<nat, Client>, clients': map<nat, Client>, ip: string)
    requires clients.Keys == clients'.Keys
    requires forall id :: id in clients ==>
                            clients[id].ip == clients'[id].ip && (clients[id].phase.Gone? <==> clients'[id].phase.Gone?)
    ensures Held(clients, ip) == Held(clients', ip)
  {
  }

  lemma ReleasedCounts(counts: map<string, nat>, ip: string, other: string)
    requires Count(counts, ip) > 0
    ensures Count(Released(counts, ip), other) == Count(counts, other) - if other == ip then 1 else 0
    ensures other in Released(counts, ip) <==> other in counts && (other == ip ==> counts[ip] >= 2)
  {
  }

  lemma AddedCounts(counts: map<string, nat>, ip: string, other: string)
    ensures Count(counts[ip := Count(counts, ip) + 1], other) == Count(counts, other) + if other == ip then 1 else 0
  {
  }

  lemma ConnectBalances(h: Hub, x: string, ip: string)
    requires Balanced(h, ip)
    ensures Balanced(Next(h, Connect(x)), ip)
  {
    hide Held, Count, Next;
    ConnectStep(h, x);
    AddedCounts(h.counts, x, ip);
  }

  lemma FailureBalances(h: Hub, x: string, ip: string)
    requires x in h.pending && Balanced(h, ip) && Balanced(h, x)
    ensures Balanced(Next(h, UpgradeFails(x)), ip)
  {
    hide Held, Count, Released, Next;
    FailStep(h, x);
    ReleasedCounts(h.counts, x, ip);
  }

  lemma RegistrationBalances(h: Hub, id: nat, x: string, ip: string)
    requires Enabled(h, Register(id, x)) && Balanced(h, ip)
    ensures Balanced(Next(h, Register(id, x)), ip)
  {
    hide Held, Count, Next;
    RegisterStep(h, id, x);
    HeldByNew(h.clients, id, Next(h, Register(id, x)).clients[id], ip);
  }

  lemma UnregistrationBalances(h: Hub, id: nat, ip: string)
    requires id in h.clients && Balanced(h, ip) && Balanced(h, h.clients[id].ip)
    ensures Balanced(Next(h, Unregister(id)), ip)
  {
    hide Held, Count, Released, Next;
    UnregisterStep(h, id);
    if h.clients[id].phase.Live? {
      HeldWithoutGone(h.clients, id, ip);
      HeldWithoutGone(h.clients, id, h.clients[id].ip);
      ReleasedCounts(h.counts, h.clients[id].ip, ip);
    }
  }

  /** The remaining events change neither the counts nor who holds a place. */
  lemma OthersBalance(h: Hub, ev: Event, ip: string)
    requires Enabled(h, ev) && (ev.SendInitial? || ev.Submit? || ev.Accept? || ev.Tick? || ev.Drain?)
    ensures var h' := Next(h, ev);
            h'.counts == h.counts && h'.pending == h.pending && h'.limit == h.limit && Held(h'.clients, ip) == Held(h.clients, ip)
  {
    hide Held, Count, Next, Payload, Offered;
    match ev {
      case SendInitial(id, text) =>
        InitialStep(h, id, text);
        HeldAlike(h.clients, Next(h, ev).clients, ip);
      case Tick =>
        TickStep(h);
        TickKeepsHeld(h.clients, Payload(h.buffer), ip);
      case Drain(id) =>
        DrainStep(h, id);
        HeldAlike(h.clients, Next(h, ev).clients, ip);
      case _ => MessageStep(h, ev);
    }
  }

  lemma StepKeepsBalance(h: Hub, ev: Event, ip: string)
    requires Enabled(h, ev) && Balanced(h, ip)
    requires ev.UpgradeFails? ==> Balanced(h, ev.ip)
    requires ev.Unregister? ==> Balanced(h, h.clients[ev.id].ip)
    ensures Balanced(Next(h, ev), ip)
  {
    hide Held, Next, Count;
    match ev {
      case Connect(x) => ConnectBalances(h, x, ip);
      case UpgradeFails(x) => FailureBalances(h, x, ip);
      case Register(id, x) => RegistrationBalances(h, id, x, ip);
      case Unregister(id) => UnregistrationBalances(h, id, ip);
      case _ => OthersBalance(h, ev, ip);
    }
  }

  lemma StepKeepsLedger(h: Hub, ev: Event)
    requires Ledger(h) && Enabled(h, ev)
    ensures Ledger(Next(h, ev))
  {
    hide Balanced, Next;
    forall ip
      ensures Balanced(Next(h, ev), ip)
    {
      StepKeepsBalance(h, ev, ip);
    }
  }

  lemma TickKeepsHeld(clients: map<nat, Client>, text: string, ip: string)
    ensures Held(Offered(clients, text), ip) == Held(clients, ip)
  {
    hide Held;
    HeldAlike(clients, Offered(clients, text), ip);
  }

  // ---- messages and deliveries ----

  function Flatten(bundles: seq<seq<string>>): seq<string> {
    if bundles == [] then [] else Flatten(bundles[..|bundles| - 1]) + bundles[|bundles| - 1]
  }

  /** No message is lost, duplicated or reordered on its way into the bundles, and the recorder gets the same ones. */
  ghost predicate Conserved(h: Hub) {
    && h.recorded == Flatten(h.bundles) + h.buffer
    && h.submitted == h.recorded + h.inbox
    && forall b :: b in h.bundles ==> b != []
  }

  lemma StepConserves(h: Hub, ev: Event)
    requires Conserved(h) && Enabled(h, ev)
    ensures Conserved(Next(h, ev))
  {
    hide Offered, Payload, Released, Flatten;
    match ev {
      case Accept => AcceptConserves(h.submitted, h.recorded, h.inbox, Flatten(h.bundles), h.buffer);
      case Tick => FlattenMore(h.bundles, h.buffer);
      case Submit(m) => SubmitConserves(h.submitted, h.recorded, h.inbox, m);
      case _ =>
    }
  }

  lemma FlattenMore(bundles: seq<seq<string>>, b: seq<string>)
    ensures Flatten(bundles + [b]) == Flatten(bundles) + b
    ensures Flatten(bundles) + b + [] == Flatten(bundles) + b
  {
    assert (bundles + [b])[..|bundles|] == bundles;
  }

  lemma AcceptConserves(submitted: seq<string>, recorded: seq<string>, inbox: seq<string>, bundled: seq<string>,
                        buffer: seq<string>)
    requires submitted == recorded + inbox && inbox != [] && recorded == bundled + buffer
    ensures submitted == (recorded + [inbox[0]]) + inbox[1..] && recorded + [inbox[0]] == bundled + (buffer + [inbox[0]])
  {
    assert inbox == [inbox[0]] + inbox[1..];
  }

  lemma SubmitConserves(submitted: seq<string>, recorded: seq<string>, inbox: seq<string>, m: string)
    requires submitted == recorded + inbox
    ensures submitted + [m] == recorded + (inbox + [m])
  {
  }

  function BundlesIn(items: seq<Item>): seq<string> {
    if items == [] then []
    else
      var n := |items| - 1;
      BundlesIn(items[..n]) + if items[n].Bundled? then [items[n].text] else []
  }

  function Payloads(bundles: seq<seq<string>>): (ps: seq<string>)
    ensures |ps| == |bundles|
  {
    seq(|bundles|, i requires 0 <= i < |bundles| => Payload(bundles[i]))
  }

  /** Leaving the initial state aside, the client was sent exactly the bundles made while it was live, in order and
      without a gap: a part it has received, the rest is queued. */
  predicate Delivered(c: Client, bundles: seq<seq<string>>) {
    && c.joined <= c.left <= |bundles|
    && (c.phase.Live? ==> c.left == |bundles|)
    && |c.queue| <= 256
    && BundlesIn(c.received + c.queue) == Payloads(bundles[c.joined..c.left])
  }

  ghost predicate AllDelivered(h: Hub) {
    forall id :: id in h.clients ==> Delivered(h.clients[id], h.bundles)
  }

  lemma ItemSent(c: Client, item: Item)
    ensures BundlesIn(c.received + (c.queue + [item]))
            == BundlesIn(c.received + c.queue) + if item.Bundled? then [item.text] else []
  {
    var all := c.received + c.queue;
    assert c.received + (c.queue + [item]) == all + [item];
    assert (all + [item])[..|all|] == all;
  }

  lemma OfferDelivers(c: Client, bundles: seq<seq<string>>, b: seq<string>)
    requires Delivered(c, bundles)
    ensures Delivered(Offer(c, Payload(b)), bundles + [b])
  {
    hide Payload, BundlesIn;
    var more := bundles + [b];
    assert more[c.joined..c.left] == bundles[c.joined..c.left];
    if c.phase.Live? {
      ItemSent(c, Bundled(Payload(b)));
      assert more[c.joined..c.left + 1] == bundles[c.joined..c.left] + [b];
    }
  }

  lemma StepDelivers(h: Hub, ev: Event)
    requires AllDelivered(h) && Enabled(h, ev)
    ensures AllDelivered(Next(h, ev))
  {
    hide Payload, Payloads, BundlesIn, Released, Offer, Next, Delivered;
    match ev {
      case Connect(ip) => ConnectStep(h, ip);
      case UpgradeFails(ip) => FailStep(h, ip);
      case Register(id, ip) =>
        RegisterStep(h, id, ip);
        NewIsDelivered(h.bundles, ip);
      case SendInitial(id, text) =>
        InitialStep(h, id, text);
        InitialDelivers(h.clients[id], h.bundles, text);
      case Unregister(id) =>
        UnregisterStep(h, id);
        GoneIsDelivered(h.clients[id], h.bundles);
      case Tick =>
        TickStep(h);
        forall id | id in h.clients && h.buffer != []
          ensures Delivered(Offer(h.clients[id], Payload(h.buffer)), h.bundles + [h.buffer])
        {
          OfferDelivers(h.clients[id], h.bundles, h.buffer);
        }
      case Drain(id) =>
        DrainStep(h, id);
        DrainDelivers(h.clients[id], h.bundles);
      case Submit(_) => MessageStep(h, ev);
      case Accept => MessageStep(h, ev);
    }
  }

  lemma InitialDelivers(c: Client, bundles: seq<seq<string>>, text: string)
    requires Delivered(c, bundles) && (c.phase.Live? ==> |c.queue| < QUEUE)
    ensures c.phase.Live? ==> Delivered(c.(queue := c.queue + [Initial(text)]), bundles)
  {
    hide Payloads, BundlesIn;
    ItemSent(c, Initial(text));
  }

  lemma GoneIsDelivered(c: Client, bundles: seq<seq<string>>)
    requires Delivered(c, bundles)
    ensures Delivered(c.(phase := Gone), bundles)
  {
    hide Payloads, BundlesIn;
  }

  lemma DrainDelivers(c: Client, bundles: seq<seq<string>>)
    requires Delivered(c, bundles) && c.queue != []
    ensures Delivered(c.(queue := c.queue[1..], received := c.received + [c.queue[0]]), bundles)
  {
    hide Payloads, BundlesIn;
    assert (c.received + [c.queue[0]]) + c.queue[1..] == c.received + c.queue;
  }

  lemma NewIsDelivered(bundles: seq<seq<string>>, ip: string)
    ensures Delivered(Client(ip, Live, [], [], |bundles|, |bundles|), bundles)
  {
    assert Payloads(bundles[|bundles|..|bundles|]) == [];
  }

  /** What an event adds to the items sent to a client, received or still queued: the initial state sent to it, or the
      bundle of a tick while its queue has room for one more of 256; nothing once it was removed. Only its own pump takes
      items out of the queue, one by one from the front. */
  lemma StreamStep(h: Hub, ev: Event, id: nat)
    requires Enabled(h, ev) && id in h.clients
    ensures id in Next(h, ev).clients
    ensures var c, c' := h.clients[id], Next(h, ev).clients[id];
            && c'.received + c'.queue == c.received + c.queue + SentBy(h, ev, id)
            && c.received <= c'.received && |c'.received| == |c.received| + if ev == Drain(id) then 1 else 0
  {
    hide Next, Payload, Released, Count;
    match ev {
      case Connect(ip) => ConnectStep(h, ip);
      case UpgradeFails(ip) => FailStep(h, ip);
      case Register(i, ip) => RegisterStep(h, i, ip);
      case SendInitial(i, text) =>
        InitialStep(h, i, text);
        var c := h.clients[id];
        assert c.received + (c.queue + [Initial(text)]) == c.received + c.queue + [Initial(text)];
      case Unregister(i) => UnregisterStep(h, i);
      case Tick =>
        TickStep(h);
        var c, item := h.clients[id], Bundled(Payload(h.buffer));
        assert c.received + (c.queue + [item]) == c.received + c.queue + [item];
      case Drain(i) =>
        DrainStep(h, i);
        var c := h.clients[i];
        assert (c.received + [c.queue[0]]) + c.queue[1..] == c.received + c.queue;
      case Submit(_) => MessageStep(h, ev);
      case Accept => MessageStep(h, ev);
    }
  }

  function SentBy(h: Hub, ev: Event, id: nat): seq<Item>
    requires id in h.clients
  {
    var c := h.clients[id];
    if !c.phase.Live? then []
    else
      match ev
      case SendInitial(i, text) => if i == id then [Initial(text)] else []
      case Tick => if h.buffer != [] && |c.queue| < 256 then [Bundled(Payload(h.buffer))] else []
      case _ => []
  }

  /** A tick sends everything that was buffered, as one bundle, and nothing when nothing was. */
  lemma TickTakesAll(h: Hub)
    ensures Next(h, Tick).buffer == []
    ensures Next(h, Tick).bundles == if |h.buffer| == 0 then h.bundles else h.bundles + [h.buffer]
  {
  }

  // ---- all runs ----

  /** The messages passed to Broadcast, read off the events alone. */
  function Submitted(evs: seq<Event>): seq<string> {
    if evs == [] then []
    else
      var n := |evs| - 1;
      Submitted(evs[..n]) + if evs[n].Submit? then [evs[n].message] else []
  }

  lemma StepSubmits(h: Hub, ev: Event)
    requires Enabled(h, ev)
    ensures Next(h, ev).submitted == h.submitted + if ev.Submit? then [ev.message] else []
  {
    hide Offered, Payload, Released, Count;
  }

  ghost predicate Good(h: Hub) {
    Ledger(h) && Conserved(h) && AllDelivered(h)
  }

  /** In every reachable state the ledger balances within the limit, no message is lost or reordered, and every client
      was sent the contiguous run of bundles of its time. */
  lemma {:induction false} EveryRunIsGood(limit: nat, evs: seq<Event>)
    requires Run(Start(limit), evs).Some?
    ensures Good(Run(Start(limit), evs).value) && Run(Start(limit), evs).value.limit == limit
    ensures Run(Start(limit), evs).value.submitted == Submitted(evs)
  {
    hide Ledger, Conserved, AllDelivered;
    if evs == [] {
      StartIsGood(limit);
    } else {
      var n := |evs| - 1;
      EveryRunIsGood(limit, evs[..n]);
      var h := Run(Start(limit), evs[..n]).value;
      StepKeepsLedger(h, evs[n]);
      StepConserves(h, evs[n]);
      StepDelivers(h, evs[n]);
      StepKeepsLimit(h, evs[n]);
      StepSubmits(h, evs[n]);
    }
  }

  lemma StartIsGood(limit: nat)
    ensures Good(Start(limit))
  {
    var h := Start(limit);
    forall ip
      ensures Balanced(h, ip)
    {
      assert Held(h.clients, ip) == {};
    }
  }

  lemma StepKeepsLimit(h: Hub, ev: Event)
    requires Enabled(h, ev)
    ensures Next(h, ev).limit == h.limit
  {
  }

  lemma ReachableIsGood(h: Hub)
    requires Reachable(h)
    ensures Good(h)
  {
    var evs :| Run(Start(h.limit), evs) == Some(h);
    EveryRunIsGood(h.limit, evs);
  }

  /** The clients of an address that are live or on their way are never more than the limit allows, and the count is
      their exact number if and only if no client of the address was ever evicted. */
  lemma ConnectionsWithinLimit(h: Hub, ip: string)
    requires Reachable(h)
    ensures h.pending[ip] + |InPhase(h.clients, ip, Live)| <= Count(h.counts, ip) <= h.limit
    ensures Count(h.counts, ip) == h.pending[ip] + |InPhase(h.clients, ip, Live)| <==> InPhase(h.clients, ip, Evicted) == {}
  {
    hide Conserved, AllDelivered, Reachable;
    ReachableIsGood(h);
    assert Balanced(h, ip);
    LedgerSplits(h.clients, ip);
  }

  /** A connection is admitted exactly when fewer than the limit are on their way, live or evicted for its address; it is
      then on its way itself. */
  lemma AdmittedIff(h: Hub, ip: string)
    requires Reachable(h)
    ensures var held := set id | id in h.clients && h.clients[id].ip == ip
                                 && (h.clients[id].phase.Live? || h.clients[id].phase.Evicted?);
            var after := Next(h, Connect(ip));
            && (after == h <==> h.pending[ip] + |held| >= h.limit)
            && after.pending == if h.pending[ip] + |held| < h.limit then h.pending + multiset{ip} else h.pending
  {
    hide Conserved, AllDelivered, Reachable, Next;
    ReachableIsGood(h);
    assert Balanced(h, ip);
    ConnectStep(h, ip);
    var held := set id | id in h.clients && h.clients[id].ip == ip
                         && (h.clients[id].phase.Live? || h.clients[id].phase.Evicted?);
    assert held == Held(h.clients, ip);
    assert (h.pending + multiset{ip})[ip] == h.pending[ip] + 1;
  }

  /** Every RemoveConnection that the hub performs finds a positive count and takes one from it, from no other. */
  lemma ReleaseFindsConnection(h: Hub, ip: string, other: string)
    requires Reachable(h)
    requires ip in h.pending || exists id :: id in h.clients && h.clients[id].ip == ip && h.clients[id].phase.Live?
    ensures Count(h.counts, ip) > 0
    ensures Count(Released(h.counts, ip), other) == Count(h.counts, other) - if other == ip then 1 else 0
    ensures other in Released(h.counts, ip) <==> other in h.counts && (other == ip ==> h.counts[ip] >= 2)
  {
    hide Conserved, AllDelivered, Reachable;
    ReachableIsGood(h);
    assert Balanced(h, ip);
    if ip !in h.pending {
      var id :| id in h.clients && h.clients[id].ip == ip && h.clients[id].phase.Live?;
      assert id in Held(h.clients, ip);
    }
    ReleasedCounts(h.counts, ip, other);
  }

  /** A place that an evicted client held is never given back. */
  lemma {:induction false} EvictedStay(h: Hub, evs: seq<Event>, ip: string)
    requires Run(h, evs).Some?
    ensures InPhase(h.clients, ip, Evicted) <= InPhase(Run(h, evs).value.clients, ip, Evicted)
    ensures Run(h, evs).value.limit == h.limit
  {
    hide InPhase, Enabled, Next;
    if evs != [] {
      var n := |evs| - 1;
      EvictedStay(h, evs[..n], ip);
      StepKeepsEvicted(Run(h, evs[..n]).value, evs[n], ip);
      StepKeepsLimit(Run(h, evs[..n]).value, evs[n]);
    }
  }

  lemma StepKeepsEvicted(h: Hub, ev: Event, ip: string)
    requires Enabled(h, ev)
    ensures InPhase(h.clients, ip, Evicted) <= InPhase(Next(h, ev).clients, ip, Evicted)
  {
    hide InPhase, Next;
    forall id | id in InPhase(h.clients, ip, Evicted)
      ensures id in InPhase(Next(h, ev).clients, ip, Evicted)
    {
      PhaseMember(h.clients, ip, id);
      PhaseMember(Next(h, ev).clients, ip, id);
      EvictedStays(h, ev, id);
    }
  }

  lemma EvictedStays(h: Hub, ev: Event, id: nat)
    requires Enabled(h, ev) && id in h.clients && h.clients[id].phase == Evicted
    ensures var clients := Next(h, ev).clients;
            id in clients && clients[id].ip == h.clients[id].ip && clients[id].phase == Evicted
  {
    hide Next;
    ClientStep(h, ev, id);
  }

  /** The phase of a client after an event. */
  function PhaseAfter(h: Hub, ev: Event, id: nat): Phase
    requires id in h.clients
  {
    var c := h.clients[id];
    if !c.phase.Live? then c.phase
    else if ev == Event.Unregister(id) then Gone
    else if ev.Tick? && h.buffer != [] && |c.queue| >= QUEUE then Evicted
    else Live
  }

  lemma ClientStep(h: Hub, ev: Event, id: nat)
    requires Enabled(h, ev)
    ensures var clients := Next(h, ev).clients;
            && (id in clients <==> id in h.clients || (ev.Register? && ev.id == id))
            && (id in h.clients ==> clients[id].ip == h.clients[id].ip && clients[id].phase == PhaseAfter(h, ev, id))
            && (id in clients && id !in h.clients ==> clients[id].phase == Live)
  {
    hide Next, Payload, Released, Count;
    match ev {
      case Connect(ip) => ConnectStep(h, ip);
      case UpgradeFails(ip) => FailStep(h, ip);
      case Register(i, ip) => RegisterStep(h, i, ip);
      case SendInitial(i, text) => InitialStep(h, i, text);
      case Unregister(i) => UnregisterStep(h, i);
      case Tick => TickStep(h);
      case Drain(i) => DrainStep(h, i);
      case Submit(_) => MessageStep(h, ev);
      case Accept => MessageStep(h, ev);
    }
  }

  /** Once as many clients of an address were evicted as the limit allows, it is refused for good. */
  lemma EvictionsExhaustLimit(limit: nat, before: seq<Event>, after: seq<Event>, ip: string)
    requires Run(Start(limit), before).Some?
    requires var h := Run(Start(limit), before).value;
             |InPhase(h.clients, ip, Evicted)| == limit && Run(h, after).Some?
    ensures var h' := Run(Run(Start(limit), before).value, after).value;
            Next(h', Connect(ip)) == h' && InPhase(h'.clients, ip, Live) == {} && h'.pending[ip] == 0
  {
    hide InPhase, Conserved, AllDelivered;
    var h := Run(Start(limit), before).value;
    RunsJoin(Start(limit), before, after);
    EveryRunIsGood(limit, before);
    EveryRunIsGood(limit, before + after);
    var h' := Run(h, after).value;
    EvictedStay(h, after, ip);
    SubsetSize(InPhase(h.clients, ip, Evicted), InPhase(h'.clients, ip, Evicted));
    LedgerSplits(h'.clients, ip);
    assert Balanced(h', ip);
  }

  // ---- when a client is evicted ----

  /** The tick finds a live client of the address with a full queue: the default branch of its select. */
  predicate FindsFull(h: Hub, ev: Event, ip: string) {
    ev.Tick? && h.buffer != []
    && exists id :: id in h.clients && h.clients[id].ip == ip && h.clients[id].phase.Live? && |h.clients[id].queue| >= 256
  }

  lemma StepEvictsIff(h: Hub, ev: Event, ip: string)
    requires Enabled(h, ev)
    ensures InPhase(Next(h, ev).clients, ip, Evicted) == {} <==> InPhase(h.clients, ip, Evicted) == {} && !FindsFull(h, ev, ip)
  {
    hide InPhase, Next, Payload;
    StepKeepsEvicted(h, ev, ip);
    if FindsFull(h, ev, ip) {
      var id :| id in h.clients && h.clients[id].ip == ip && h.clients[id].phase.Live? && |h.clients[id].queue| >= QUEUE;
      FullIsEvicted(h, id);
      PhaseMember(Next(h, ev).clients, ip, id);
    } else if InPhase(h.clients, ip, Evicted) == {} {
      forall id
        ensures id !in InPhase(Next(h, ev).clients, ip, Evicted)
      {
        PhaseMember(h.clients, ip, id);
        PhaseMember(Next(h, ev).clients, ip, id);
        OthersStay(h, ev, ip, id);
      }
    }
  }

  lemma PhaseMember(clients: map<nat, Client>, ip: string, id: nat)
    ensures id in InPhase(clients, ip, Evicted) <==> id in clients && clients[id].ip == ip && clients[id].phase == Evicted
  {
  }

  lemma FullIsEvicted(h: Hub, id: nat)
    requires h.buffer != [] && id in h.clients && h.clients[id].phase.Live? && |h.clients[id].queue| >= QUEUE
    ensures var h' := Next(h, Tick);
            id in h'.clients && h'.clients[id].ip == h.clients[id].ip && h'.clients[id].phase == Evicted
  {
    hide Payload;
  }

  lemma OthersStay(h: Hub, ev: Event, ip: string, id: nat)
    requires Enabled(h, ev) && !FindsFull(h, ev, ip)
    requires !(id in h.clients && h.clients[id].ip == ip && h.clients[id].phase == Evicted)
    ensures var h' := Next(h, ev);
            !(id in h'.clients && h'.clients[id].ip == ip && h'.clients[id].phase == Evicted)
  {
    hide Next;
    ClientStep(h, ev, id);
  }

  /** Event k of the run finds a full queue of the address. */
  predicate FullAt(h: Hub, evs: seq<Event>, k: nat, ip: string)
    requires k < |evs|
  {
    var before := Run(h, evs[..k]);
    before.Some? && FindsFull(before.value, evs[k], ip)
  }

  ghost predicate NeverFull(h: Hub, evs: seq<Event>, ip: string) {
    forall k :: 0 <= k < |evs| ==> !FullAt(h, evs, k, ip)
  }

  lemma NeverFullExtends(h: Hub, evs: seq<Event>, ip: string)
    requires evs != []
    ensures NeverFull(h, evs, ip) <==> NeverFull(h, evs[..|evs| - 1], ip) && !FullAt(h, evs, |evs| - 1, ip)
  {
    hide Run, FindsFull;
    var n := |evs| - 1;
    forall k | 0 <= k < n
      ensures FullAt(h, evs[..n], k, ip) <==> FullAt(h, evs, k, ip)
    {
      assert evs[..n][..k] == evs[..k];
    }
  }

  /** No client of an address was ever evicted exactly when no tick with something to send found a live client of it
      with a full queue. */
  lemma {:induction false} NeverEvictedIff(h: Hub, evs: seq<Event>, ip: string)
    requires Run(h, evs).Some? && InPhase(h.clients, ip, Evicted) == {}
    ensures InPhase(Run(h, evs).value.clients, ip, Evicted) == {} <==> NeverFull(h, evs, ip)
  {
    hide InPhase, Enabled, Next, FindsFull, NeverFull;
    if evs != [] {
      var n := |evs| - 1;
      NeverEvictedIff(h, evs[..n], ip);
      StepEvictsIff(Run(h, evs[..n]).value, evs[n], ip);
      NeverFullExtends(h, evs, ip);
    } else {
      assert NeverFull(h, evs, ip) by { NothingIsFull(h, ip); }
    }
  }

  lemma NothingIsFull(h: Hub, ip: string)
    ensures NeverFull(h, [], ip)
  {
  }

  /** The limiter's count of an address is the number of its connections exactly when no tick of the run found one of
      its clients with a full queue. */
  lemma CountIsExactIff(limit: nat, evs: seq<Event>, ip: string)
    requires Run(Start(limit), evs).Some?
    ensures var h := Run(Start(limit), evs).value;
            Count(h.counts, ip) == h.pending[ip] + |InPhase(h.clients, ip, Live)| <==> NeverFull(Start(limit), evs, ip)
  {
    hide NeverFull, Run, Conserved, AllDelivered;
    assert InPhase(Start(limit).clients, ip, Evicted) == {};
    EveryRunIsGood(limit, evs);
    NeverEvictedIff(Start(limit), evs, ip);
    var h := Run(Start(limit), evs).value;
    assert Balanced(h, ip);
    LedgerSplits(h.clients, ip);
  }

  // ---- a client that never reads ----

  /** One message on its way into a bundle. */
  function Round(m: string): seq<Event> {
    [Submit(m), Accept, Tick]
  }

  function Rounds(m: string, n: nat): seq<Event> {
    if n == 0 then [] else Rounds(m, n - 1) + Round(m)
  }

  /** One client connects and n messages are sent to it. */
  function Ignored(ip: string, m: string, n: nat): seq<Event> {
    [Connect(ip), Register(0, ip)] + Rounds(m, n)
  }

  ghost predicate Waiting(h: Hub, ip: string, n: nat) {
    && h.clients.Keys == {0} && h.clients[0].ip == ip && h.clients[0].phase.Live? && |h.clients[0].queue| == n
    && h.inbox == [] && h.buffer == []
  }

  lemma RunOfThree(h: Hub, a: Event, b: Event, c: Event)
    requires Enabled(h, a) && Enabled(Next(h, a), b) && Enabled(Next(Next(h, a), b), c)
    ensures Run(h, [a, b, c]) == Some(Next(Next(Next(h, a), b), c))
  {
    hide Enabled, Next;
    assert [a, b, c][..2] == [a, b] && [a, b][..1] == [a] && [a][..0] == [];
    assert Run(h, [a]) == Some(Next(h, a));
    assert Run(h, [a, b]) == Some(Next(Next(h, a), b));
  }

  lemma RoundRuns(h: Hub, m: string)
    requires h.inbox == [] && h.buffer == []
    ensures Run(h, Round(m)).Some?
    ensures var h' := Run(h, Round(m)).value;
            h'.inbox == [] && h'.buffer == [] && h'.clients == Offered(h.clients, Payload([m]))
            && h'.limit == h.limit && h'.pending == h.pending
  {
    hide Payload, Offered;
    var s := Next(h, Submit(m));
    assert s.inbox == [m];
    var t := Next(s, Accept);
    assert t.buffer == [m] && t.inbox == [];
    RunOfThree(h, Submit(m), Accept, Tick);
  }

  lemma ConnectedRuns(limit: nat, ip: string)
    requires limit > 0
    ensures Run(Start(limit), [Connect(ip), Register(0, ip)]).Some?
    ensures Waiting(Run(Start(limit), [Connect(ip), Register(0, ip)]).value, ip, 0)
  {
    var evs := [Connect(ip), Register(0, ip)];
    assert evs[..1] == [Connect(ip)] && evs[..1][..0] == [];
    var h := Next(Start(limit), Connect(ip));
    assert Run(Start(limit), evs[..1]) == Some(h);
    assert h.pending == multiset{ip};
  }

  lemma {:induction false} IgnoredRuns(limit: nat, ip: string, m: string, n: nat)
    requires limit > 0 && n <= QUEUE
    ensures Run(Start(limit), Ignored(ip, m, n)).Some?
    ensures Waiting(Run(Start(limit), Ignored(ip, m, n)).value, ip, n)
  {
    hide Run, Payload;
    if n == 0 {
      ConnectedRuns(limit, ip);
      assert [Connect(ip), Register(0, ip)] + [] == [Connect(ip), Register(0, ip)];
    } else {
      IgnoredRuns(limit, ip, m, n - 1);
      var before := Ignored(ip, m, n - 1);
      assert Ignored(ip, m, n) == before + Round(m);
      var h := Run(Start(limit), before).value;
      RoundRuns(h, m);
      RunsJoin(Start(limit), before, Round(m));
    }
  }

  /** Such a client is evicted by the 257th bundle, and with a limit of one its address is then refused for good
      although none of its clients is connected. */
  lemma IgnoredClientIsEvicted(ip: string, m: string)
    ensures Run(Start(1), Ignored(ip, m, 257)).Some?
    ensures var h := Run(Start(1), Ignored(ip, m, 257)).value;
            && InPhase(h.clients, ip, Evicted) == {0} && InPhase(h.clients, ip, Live) == {}
            && Next(h, Connect(ip)) == h
  {
    hide Run, Payload, Next;
    IgnoredRuns(1, ip, m, 256);
    var before := Ignored(ip, m, 256);
    assert Ignored(ip, m, 257) == before + Round(m);
    var h := Run(Start(1), before).value;
    RoundRuns(h, m);
    RunsJoin(Start(1), before, Round(m));
    var evs := Ignored(ip, m, 257);
    var after := Run(Start(1), evs).value;
    assert InPhase(after.clients, ip, Evicted) == {0};
    NothingMore(after);
    EvictionsExhaustLimit(1, evs, [], ip);
  }

  lemma NothingMore(h: Hub)
    ensures Run(h, []) == Some(h)
  {
  }

  lemma SubsetSize(a: set<nat>, b: set<nat>)
    requires a <= b
    ensures |a| <= |b|
  {
    assert b == a + (b - a);
  }

  lemma {:induction false} RunsJoin(h: Hub, before: seq<Event>, after: seq<Event>)
    requires Run(h, before).Some?
    ensures Run(h, before + after) == Run(Run(h, before).value, after)
  {
    hide Enabled, Next;
    if after == [] {
      assert before + after == before;
    } else {
      var n := |after| - 1;
      RunsJoin(h, before, after[..n]);
      assert (before + after)[..|before| + n] == before + after[..n];
    }
  }
}
