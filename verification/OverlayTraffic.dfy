/** What flows over the processes of a set-up, while it runs and after it: the datagrams of a client and a destination,
    and the set-up's own answers, which reach a process that already relays as ordinary datagrams. */
module OverlayTraffic {
  import opened Ledgers
  import opened Route
  import opened OverlaySetup
  import opened RelayChain
  import Paths

  /** A set-up together with the two sockets that want to talk: the client's and the destination's. */
  datatype World = World(env: Env, client: Addr, destination: Addr) {
    ghost predicate Valid() {
      && env.Valid()
      && client != destination
      && (env.route[0] in env.names ==>
            destination == Addr(env.names[env.route[0]], PortOf(AsBytes(env.route[1]))))
    }
  }

  /** The destination's socket is at the port that the second name of the route spells. */
  lemma DestinationIsSpelled(w: World, p: nat)
    requires w.Valid() && w.env.route[0] in w.env.names && Spells(w.env.route[1], p)
    ensures w.destination == Addr(w.env.names[w.env.route[0]], p % 65536)
  {
    PortSpelled(w.env.route[1], p);
  }

  /** Where a payload comes from. Noise is what neither end sent to the other over the row. */
  datatype Origin = FromClient | FromDestination | Noise

  datatype Packet = Packet(d: Datagram, origin: Origin)

  /** The set-up; the client that each relaying process has learned; the packets in flight; whom the destination has
      heard from; and what happened to the payloads of the client and of the destination. */
  datatype State = State(setup: OverlaySetup.State, clients: map<Addr, Addr>, net: seq<Packet>, heard: set<Addr>,
                         up: Ledger, down: Ledger)

  ghost predicate Relays(s: State, x: Addr) {
    x in s.setup.children && s.setup.children[x].mode.Relaying?
  }

  ghost function Server(s: State, x: Addr): Addr
    requires Relays(s, x)
  {
    s.setup.children[x].mode.next
  }

  /** The relay loop that a process is in. */
  ghost function RelayOf(s: State, x: Addr): Relay
    requires Relays(s, x)
  {
    Relay(Server(s, x), if x in s.clients then Some(s.clients[x]) else None)
  }

  /** Whose datagrams a process is meant to take for its client's: the client's at the first router, its upstream's elsewhere. */
  ghost function Below(w: World, s: State, x: Addr): Addr
    requires x in s.setup.children
  {
    if s.setup.children[x].upstream == w.env.builder then w.client else s.setup.children[x].upstream
  }

  /** The row that a successful set-up leaves behind: client, one process per router, destination. */
  ghost function RowOf(w: World, s: State): (row: seq<Addr>)
    requires HasPath(w.env, s.setup)
    ensures |row| >= 3 && row[0] == w.client && row[|row| - 1] == w.destination
  {
    [w.client] + Path(w.env, s.setup) + [w.destination]
  }

  // ---- steps

  ghost predicate Init(w: World, s: State) {
    && w.Valid()
    && OverlaySetup.Init(w.env, s.setup)
    && s == State.State(s.setup, map[], [], {}, CLEAN, CLEAN)
  }

  datatype Action =
    | SetUp(a: OverlaySetup.Action)
    | Stray(reply: Reply)                        // an answer reaches a process that already relays
    | ClientSend(p: Payload)                     // to the port the builder was given
    | DestinationSend(to: Addr, p: Payload)      // to a process it has heard from
    | Deliver(i: nat)
    | Lose(i: nat)
    | Copy(i: nat)

  /** A relaying process takes a packet; it learns its client, or has one, and sends on or not. */
  ghost function Taken(s: State, p: Packet, rest: seq<Packet>): State
    requires Relays(s, p.d.dst)
  {
    var x := p.d.dst;
    var (r, to) := OnDatagram(RelayOf(s, x), p.d.src);
    s.(clients := s.clients[x := r.client.value],
       net := rest + if to.Some? then [Packet(Datagram(x, to.value, p.d.payload), p.origin)] else [])
  }

  /** Packet i reaches its address. One for a process that has left is gone. */
  ghost function Delivered(w: World, s: State, i: nat): State
    requires i < |s.net|
  {
    var p, rest := s.net[i], Without(s.net, i);
    if p.d.dst == w.client then
      s.(net := rest,
         down := if p.origin.FromDestination? then s.down.(delivered := Credit(s.down.delivered, p.d.payload)) else s.down)
    else if p.d.dst == w.destination then
      s.(net := rest, heard := s.heard + {p.d.src},
         up := if p.origin.FromClient? then s.up.(delivered := Credit(s.up.delivered, p.d.payload)) else s.up)
    else if Relays(s, p.d.dst) then Taken(s, p, rest)
    else s.(net := rest)
  }

  /** The network loses packet i. */
  ghost function Lost(s: State, i: nat): State
    requires i < |s.net|
  {
    var p := s.net[i];
    s.(net := Without(s.net, i),
       up := if p.origin.FromClient? then s.up.(lost := Credit(s.up.lost, p.d.payload)) else s.up,
       down := if p.origin.FromDestination? then s.down.(lost := Credit(s.down.lost, p.d.payload)) else s.down)
  }

  /** The network repeats packet i. */
  ghost function Copied(s: State, i: nat): State
    requires i < |s.net|
  {
    var p := s.net[i];
    s.(net := s.net + [p],
       up := if p.origin.FromClient? then s.up.(copied := Credit(s.up.copied, p.d.payload)) else s.up,
       down := if p.origin.FromDestination? then s.down.(copied := Credit(s.down.copied, p.d.payload)) else s.down)
  }

  ghost predicate ToLastHop(w: World, s: State, to: Addr) {
    HasPath(w.env, s.setup) && to == RowOf(w, s)[|RowOf(w, s)| - 2]
  }

  /** The destination sends to a process that it has heard from; to the last one of the row it answers the client. */
  ghost function DestinationSent(w: World, s: State, to: Addr, p: Payload): State {
    var d := Datagram(w.destination, to, p);
    if ToLastHop(w, s, to) then
      s.(net := s.net + [Packet(d, FromDestination)], down := s.down.(sent := Credit(s.down.sent, p)))
    else s.(net := s.net + [Packet(d, Noise)])
  }

  ghost function ClientSent(w: World, s: State, p: Payload): State
    requires HasPath(w.env, s.setup)
  {
    s.(net := s.net + [Packet(Datagram(w.client, First(w.env, s.setup), p), FromClient)],
       up := s.up.(sent := Credit(s.up.sent, p)))
  }

  ghost predicate Next(w: World, s: State, a: Action, s': State) {
    match a
    case SetUp(b) =>
      && OverlaySetup.Next(w.env, s.setup, b, s'.setup)
      && (b.Spawn? ==> Addr(b.req.dstHost, b.port) != w.client && Addr(b.req.dstHost, b.port) != w.destination)
      && s' == s.(setup := s'.setup)
    case Stray(reply) =>
      && reply in s.setup.replies && Relays(s, reply.dst)
      && s' == Taken(s, Packet(Datagram(reply.src, reply.dst, reply.text), Noise), s.net)
    case ClientSend(p) => HasPath(w.env, s.setup) && s' == ClientSent(w, s, p)
    case DestinationSend(to, p) => to in s.heard && s' == DestinationSent(w, s, to, p)
    case Deliver(i) => i < |s.net| && s' == Delivered(w, s, i)
    case Lose(i) => i < |s.net| && s' == Lost(s, i)
    case Copy(i) => i < |s.net| && s' == Copied(s, i)
  }

  ghost function Steps(w: World): (State, State) -> bool {
    (s, s') => exists a :: Next(w, s, a, s')
  }

  ghost predicate Reaches(w: World, s: State, s': State) {
    Paths.Reaches(Steps(w), s, s')
  }

  // ---- datagrams only travel between neighbours of the tree that the set-up grows

  /** A process that was forked for x and no longer waits. */
  ghost predicate IsChild(s: State, x: Addr, c: Addr) {
    c in s.setup.children && s.setup.children[c].upstream == x && s.setup.children[c].mode != Waiting
  }

  /** c is what is below x, and has a client itself if it is a process. */
  ghost predicate FromBelow(w: World, s: State, x: Addr, c: Addr)
    requires x in s.setup.children
  {
    var upstream := s.setup.children[x].upstream;
    c == Below(w, s, x) && (upstream in s.setup.children ==> upstream in s.clients)
  }

  /** Who can be the client of x: what is below it, or a process that answered it. */
  ghost predicate GoodClient(w: World, s: State, x: Addr, c: Addr)
    requires x in s.setup.children
  {
    FromBelow(w, s, x, c) || IsChild(s, x, c)
  }

  ghost predicate ClientOk(w: World, s: State, x: Addr)
    requires x in s.clients
  {
    Relays(s, x) && GoodClient(w, s, x, s.clients[x])
  }

  ghost predicate HeardOk(w: World, s: State, x: Addr) {
    x in s.clients && Relays(s, x) && Server(s, x) == w.destination
  }

  ghost predicate PacketOk(w: World, s: State, d: Datagram) {
    || (d.src in s.clients && Relays(s, d.src) && (d.dst == Server(s, d.src) || d.dst == s.clients[d.src]))
    || (d.src == w.client && Relays(s, d.dst) && s.setup.children[d.dst].upstream == w.env.builder)
    || (d.src == w.destination && HeardOk(w, s, d.dst))
  }

  ghost predicate TreeInv(w: World, s: State) {
    && w.Valid()
    && OverlaySetup.Inv(w.env, s.setup)
    && w.client !in s.setup.children && w.destination !in s.setup.children
    && (forall x {:trigger ClientOk(w, s, x)} :: x in s.clients ==> ClientOk(w, s, x))
    && (forall p {:trigger PacketOk(w, s, p.d)} :: p in s.net ==> PacketOk(w, s, p.d))
    && (forall x {:trigger HeardOk(w, s, x)} :: x in s.heard ==> HeardOk(w, s, x))
  }

  /** The next hop of a relaying process: the destination, or a relaying process forked for it. */
  lemma ServerIs(w: World, s: State, x: Addr)
    requires w.Valid() && OverlaySetup.Inv(w.env, s.setup) && Relays(s, x)
    ensures |s.setup.children[x].tokens| == 3 ==> Server(s, x) == w.destination
    ensures |s.setup.children[x].tokens| != 3 ==> Relays(s, Server(s, x)) && IsChild(s, x, Server(s, x))
  {
    assert Placed(w.env, s.setup.children, x) && Linked(w.env, s.setup.children, x);
    var ts := s.setup.children[x].tokens;
    assert ts[0] == w.env.route[0] && ts[1] == w.env.route[1];
  }

  /** A child is not what is below. */
  lemma ChildIsAbove(w: World, s: State, x: Addr, c: Addr)
    requires OverlaySetup.Inv(w.env, s.setup) && w.client !in s.setup.children
    requires x in s.setup.children && IsChild(s, x, c)
    ensures c != Below(w, s, x) && Below(w, s, c) == x && |s.setup.children[x].tokens| >= 4
    ensures |s.setup.children[c].tokens| == |s.setup.children[x].tokens| - 1
  {
    assert Placed(w.env, s.setup.children, x) && Placed(w.env, s.setup.children, c);
  }

  /** Processes are kept as Extends says, and no client is ever learned again. */
  ghost predicate Grows(s: State, s': State) {
    && Extends(s.setup.children, s'.setup.children)
    && forall x :: x in s.clients ==> x in s'.clients && s'.clients[x] == s.clients[x]
  }

  lemma GrowsOver(s: State, s1: State, s2: State)
    requires Grows(s, s1) && Grows(s1, s2)
    ensures Grows(s, s2)
  {
  }

  lemma PacketKept(w: World, s: State, s': State, d: Datagram)
    requires Grows(s, s') && PacketOk(w, s, d)
    ensures PacketOk(w, s', d)
  {
  }

  lemma GoodClientKept(w: World, s: State, s': State, x: Addr, c: Addr)
    requires OverlaySetup.Inv(w.env, s.setup) && OverlaySetup.Inv(w.env, s'.setup) && Grows(s, s')
    requires x in s.setup.children && GoodClient(w, s, x, c)
    ensures GoodClient(w, s', x, c)
  {
    assert Placed(w.env, s.setup.children, x);
  }

  /** A packet that arrives at a relaying process comes from below, or finds it with a client. */
  lemma PacketArrives(w: World, s: State, d: Datagram)
    requires TreeInv(w, s) && PacketOk(w, s, d) && Relays(s, d.dst)
    ensures d.dst in s.clients || FromBelow(w, s, d.dst, d.src)
  {
    if d.src in s.clients && d.dst !in s.clients {
      assert ClientOk(w, s, d.src);
      ServerIs(w, s, d.src);
      if d.dst == Server(s, d.src) {
        ChildIsAbove(w, s, d.src, d.dst);
      } else if IsChild(s, d.src, d.dst) {
        ChildIsAbove(w, s, d.src, d.dst);
      } else {
        assert false;
      }
    }
  }

  /** An answer comes from a child. */
  lemma StrayArrives(w: World, s: State, reply: Reply)
    requires TreeInv(w, s) && reply in s.setup.replies
    ensures IsChild(s, reply.dst, reply.src)
  {
    assert ReplyOk(s.setup.children, reply);
  }

  /** The packets of a new state are old ones, or one from a process to one of its two neighbours. */
  lemma NetKept(w: World, s: State, s': State, p: Packet)
    requires TreeInv(w, s) && Grows(s, s')
    requires forall q :: q in s'.net ==> q in s.net || q == p
    requires p in s.net || PacketOk(w, s', p.d)
    ensures forall q {:trigger PacketOk(w, s', q.d)} :: q in s'.net ==> PacketOk(w, s', q.d)
  {
    forall q | q in s'.net
      ensures PacketOk(w, s', q.d)
    {
      if q in s.net {
        assert PacketOk(w, s, q.d);
        PacketKept(w, s, s', q.d);
      }
    }
  }

  lemma ClientsKept(w: World, s: State, s': State, x: Addr)
    requires TreeInv(w, s) && OverlaySetup.Inv(w.env, s'.setup) && Grows(s, s')
    requires forall y :: y in s'.clients ==> y in s.clients || y == x
    requires x in s'.clients ==> x in s.clients || ClientOk(w, s', x)
    ensures forall y {:trigger ClientOk(w, s', y)} :: y in s'.clients ==> ClientOk(w, s', y)
  {
    forall y | y in s'.clients
      ensures ClientOk(w, s', y)
    {
      if y in s.clients {
        assert ClientOk(w, s, y);
        GoodClientKept(w, s, s', y, s.clients[y]);
      }
    }
  }

  lemma HeardKept(w: World, s: State, s': State, x: Addr)
    requires TreeInv(w, s) && Grows(s, s')
    requires forall y :: y in s'.heard ==> y in s.heard || y == x
    requires x in s'.heard ==> x in s.heard || HeardOk(w, s', x)
    ensures forall y {:trigger HeardOk(w, s', y)} :: y in s'.heard ==> HeardOk(w, s', y)
  {
    forall y | y in s'.heard
      ensures HeardOk(w, s', y)
    {
      if y in s.heard {
        assert HeardOk(w, s, y);
      }
    }
  }

  /** A relaying process takes a packet whose sender can be its client. */
  lemma TakenTree(w: World, s: State, p: Packet, rest: seq<Packet>)
    requires TreeInv(w, s) && Relays(s, p.d.dst)
    requires p.d.dst in s.clients || GoodClient(w, s, p.d.dst, p.d.src)
    requires forall q :: q in rest ==> q in s.net
    ensures Grows(s, Taken(s, p, rest)) && TreeInv(w, Taken(s, p, rest))
  {
    var x, s' := p.d.dst, Taken(s, p, rest);
    if x in s.clients {
      assert ClientOk(w, s, x);
    }
    GoodClientKept(w, s, s', x, s'.clients[x]);
    ClientsKept(w, s, s', x);
    var to := OnDatagram(RelayOf(s, x), p.d.src).1;
    if to.Some? {
      NetKept(w, s, s', Packet(Datagram(x, to.value, p.d.payload), p.origin));
    } else {
      assert s'.net == rest;
      NetShrinks(w, s, s');
    }
    HeardKept(w, s, s', x);
  }

  lemma NetShrinks(w: World, s: State, s': State)
    requires TreeInv(w, s) && Grows(s, s')
    requires forall q :: q in s'.net ==> q in s.net
    ensures forall q {:trigger PacketOk(w, s', q.d)} :: q in s'.net ==> PacketOk(w, s', q.d)
  {
    forall q | q in s'.net
      ensures PacketOk(w, s', q.d)
    {
      assert PacketOk(w, s, q.d);
      PacketKept(w, s, s', q.d);
    }
  }

  /** Only the net changed, and whom the destination has heard from. */
  lemma TrafficTree(w: World, s: State, s': State, p: Packet)
    requires TreeInv(w, s) && s'.setup == s.setup && s'.clients == s.clients
    requires forall q :: q in s'.net ==> q in s.net || q == p
    requires p in s.net || PacketOk(w, s', p.d)
    requires forall y :: y in s'.heard ==> y in s.heard || (y == p.d.src && HeardOk(w, s', y))
    ensures TreeInv(w, s')
  {
    NetKept(w, s, s', p);
    ClientsKept(w, s, s', w.client);
    HeardKept(w, s, s', p.d.src);
  }

  lemma InitTree(w: World, s: State)
    requires Init(w, s)
    ensures TreeInv(w, s)
  {
    OverlaySetup.InitInv(w.env, s.setup);
  }

  lemma SetUpTree(w: World, s: State, b: OverlaySetup.Action, s': State)
    requires TreeInv(w, s) && Next(w, s, SetUp(b), s')
    ensures TreeInv(w, s') && Grows(s, s')
  {
    OverlaySetup.NextInv(w.env, s.setup, b, s'.setup);
    NextExtends(w.env, s.setup, b, s'.setup);
    NetShrinks(w, s, s');
    ClientsKept(w, s, s', w.client);
    HeardKept(w, s, s', w.client);
  }

  lemma DeliverTree(w: World, s: State, i: nat)
    requires TreeInv(w, s) && i < |s.net|
    ensures TreeInv(w, Delivered(w, s, i)) && Grows(s, Delivered(w, s, i))
  {
    var p := s.net[i];
    ReplacedNet(s.net, i, p);
    assert PacketOk(w, s, p.d);
    if p.d.dst != w.client && p.d.dst != w.destination && Relays(s, p.d.dst) {
      PacketArrives(w, s, p.d);
      TakenTree(w, s, p, Without(s.net, i));
    } else {
      if p.d.dst == w.destination {
        DestinationHears(w, s, p.d);
      }
      TrafficTree(w, s, Delivered(w, s, i), p);
    }
  }

  lemma DestinationHears(w: World, s: State, d: Datagram)
    requires TreeInv(w, s) && PacketOk(w, s, d) && d.dst == w.destination
    ensures HeardOk(w, s, d.src)
  {
    assert ClientOk(w, s, d.src);
    assert Placed(w.env, s.setup.children, d.src);
  }

  lemma FirstRelays(w: World, s: State)
    requires TreeInv(w, s) && HasPath(w.env, s.setup)
    ensures Relays(s, First(w.env, s.setup)) && s.setup.children[First(w.env, s.setup)].upstream == w.env.builder
  {
  }

  lemma NextTree(w: World, s: State, a: Action, s': State)
    requires TreeInv(w, s) && Next(w, s, a, s')
    ensures TreeInv(w, s') && Grows(s, s')
  {
    match a
    case SetUp(b) => SetUpTree(w, s, b, s');
    case Stray(reply) =>
      StrayArrives(w, s, reply);
      TakenTree(w, s, Packet(Datagram(reply.src, reply.dst, reply.text), Noise), s.net);
    case ClientSend(p) =>
      FirstRelays(w, s);
      TrafficTree(w, s, s', Packet(Datagram(w.client, First(w.env, s.setup), p), FromClient));
    case DestinationSend(to, p) =>
      assert HeardOk(w, s, to);
      TrafficTree(w, s, s', s'.net[|s.net|]);
    case Deliver(i) => DeliverTree(w, s, i);
    case Lose(i) =>
      ReplacedNet(s.net, i, s.net[i]);
      TrafficTree(w, s, s', s.net[i]);
    case Copy(i) => TrafficTree(w, s, s', s.net[i]);
  }

  lemma ReachableTree(w: World, s0: State, s: State)
    requires Init(w, s0) && Reaches(w, s0, s)
    ensures TreeInv(w, s)
  {
    InitTree(w, s0);
    forall a, b | TreeInv(w, a) && Steps(w)(a, b)
      ensures TreeInv(w, b)
    {
      var act :| Next(w, a, act, b);
      NextTree(w, a, act, b);
    }
    Paths.KeptByReach(Steps(w), x => TreeInv(w, x), s0, s);
  }

  // ---- who is learned as the client

  /** x has taken someone else for its client. */
  ghost predicate Fouled(w: World, s: State, x: Addr) {
    x in s.clients && x in s.setup.children && s.clients[x] != Below(w, s, x)
  }

  /** This step brings x, which has no client yet, an answer. */
  ghost predicate StrayComesFirst(s: State, a: Action, x: Addr) {
    a.Stray? && a.reply.dst == x && x !in s.clients
  }

  /** One step: a process takes someone else for its client exactly when an answer is the first datagram it relays. */
  lemma FouledStep(w: World, s: State, a: Action, s': State, x: Addr)
    requires TreeInv(w, s) && Next(w, s, a, s')
    ensures Fouled(w, s', x) <==> Fouled(w, s, x) || StrayComesFirst(s, a, x)
  {
    NextTree(w, s, a, s');
    if x in s.clients {
      ClientStays(w, s, s', x);
    } else if x in s'.clients {
      LearnedFrom(w, s, a, s', x);
    }
  }

  lemma ClientStays(w: World, s: State, s': State, x: Addr)
    requires TreeInv(w, s) && Grows(s, s') && x in s.clients
    ensures Fouled(w, s', x) <==> Fouled(w, s, x)
  {
    assert ClientOk(w, s, x);
  }

  /** The step in which a process learns its client. */
  lemma LearnedFrom(w: World, s: State, a: Action, s': State, x: Addr)
    requires TreeInv(w, s) && Next(w, s, a, s') && x !in s.clients && x in s'.clients
    ensures x in s.setup.children && s'.setup == s.setup
    ensures if StrayComesFirst(s, a, x) then s'.clients[x] != Below(w, s, x) else s'.clients[x] == Below(w, s, x)
  {
    match a
    case Stray(reply) =>
      StrayArrives(w, s, reply);
      ChildIsAbove(w, s, reply.dst, reply.src);
    case Deliver(i) =>
      assert PacketOk(w, s, s.net[i].d);
      PacketArrives(w, s, s.net[i].d);
    case _ =>
  }

  /** A run with the actions that lead from each state to the next. */
  ghost predicate IsRun(w: World, run: seq<State>, acts: seq<Action>) {
    && |run| == |acts| + 1 && Init(w, run[0])
    && forall i :: 0 <= i < |acts| ==> Next(w, run[i], acts[i], run[i + 1])
  }

  lemma {:induction false} RunTree(w: World, run: seq<State>, acts: seq<Action>, i: nat)
    requires IsRun(w, run, acts) && i < |run|
    ensures TreeInv(w, run[i])
  {
    if i == 0 {
      InitTree(w, run[0]);
    } else {
      RunTree(w, run, acts, i - 1);
      NextTree(w, run[i - 1], acts[i - 1], run[i]);
    }
  }

  /** Whole runs: a process has taken someone else for its client exactly when, at some point of the run, an answer
      reached it while it already relayed and had not heard from its client yet. */
  lemma {:induction false} FouledIff(w: World, run: seq<State>, acts: seq<Action>, x: Addr, n: nat)
    requires IsRun(w, run, acts) && n <= |acts|
    ensures Fouled(w, run[n], x) <==> exists i :: 0 <= i < n && StrayComesFirst(run[i], acts[i], x)
  {
    if n > 0 {
      FouledIff(w, run, acts, x, n - 1);
      RunTree(w, run, acts, n - 1);
      FouledStep(w, run[n - 1], acts[n - 1], run[n], x);
    }
  }
}
