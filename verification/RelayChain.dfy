/** A row of relays between a client and a destination. Each relay learns its client from the
    first datagram it sees and decides the direction of every later one by the sender's port. */
module RelayChain {
  import opened Ledgers
  import opened Route
  import opened OverlaySetup
  import Paths

  // ---- one relay, on values

  /** The next hop fixed at set-up, and the client learned from the first datagram. */
  datatype Relay = Relay(server: Addr, client: Option<Addr>)

  /** The comparison the program makes. Both host texts live in one static buffer, so only ports differ. */
  predicate SameEndpoint(a: Addr, b: Addr) {
    a.port == b.port
  }

  /** The relay after a datagram from src, and where the datagram is sent on to, if anywhere. */
  function OnDatagram(r: Relay, src: Addr): (Relay, Option<Addr>) {
    match r.client
    case None =>
      (r.(client := Some(src)), if SameEndpoint(src, r.server) then None else Some(r.server))
    case Some(client) =>
      (r, Some(if SameEndpoint(src, r.server) then client else r.server))
  }

  // ---- one relay, as a program

  class RelayLoop {
    const serverAddr: Addr
    var clientAddr: Option<Addr>
    /** Datagrams handed to sendto with their destinations, oldest first. */
    var sent: seq<(Addr, Payload)>

    ghost function Abs(): Relay
      reads this
    {
      Relay(serverAddr, clientAddr)
    }

    constructor (serverAddr: Addr)
      ensures Abs() == Relay(serverAddr, None) && sent == []
    {
      this.serverAddr := serverAddr;
      clientAddr := None;
      sent := [];
    }

    /** One turn of the loop. */
    method Turn(from: Addr, buf: Payload)
      modifies this`clientAddr, this`sent
      ensures Abs() == OnDatagram(old(Abs()), from).0
      ensures var to := OnDatagram(old(Abs()), from).1;
              sent == old(sent) + if to.Some? then [(to.value, buf)] else []
    {
      var whoToSendAddr: Addr;
      if clientAddr == None {
        clientAddr := Some(from);
        if from.port == serverAddr.port {
          return;
        }
        whoToSendAddr := serverAddr;
      } else {
        if from.port == serverAddr.port {
          whoToSendAddr := clientAddr.value;
        } else {
          whoToSendAddr := serverAddr;
        }
      }
      sent := sent + [(whoToSendAddr, buf)];
    }
  }

  /** The relay after datagrams from these senders. */
  function AfterSenders(r: Relay, froms: seq<Addr>): Relay
    decreases |froms|
  {
    if froms == [] then r else AfterSenders(OnDatagram(r, froms[0]).0, froms[1..])
  }

  /** The client is whoever sent the first datagram, and is never learned again. */
  lemma {:induction false} ClientIsFirstSender(r: Relay, froms: seq<Addr>)
    ensures AfterSenders(r, froms) == if r.client.Some? || froms == [] then r else r.(client := Some(froms[0]))
    decreases |froms|
  {
    if froms != [] {
      ClientIsFirstSender(OnDatagram(r, froms[0]).0, froms[1..]);
    }
  }

  /** Where a relay sends any datagram, whoever sent it and whoever sent those before: the first one to the server, unless it
      comes from the server's port; every later one from there to the sender of the first, and all others to the server. */
  lemma SentOnTo(server: Addr, froms: seq<Addr>, src: Addr)
    ensures OnDatagram(AfterSenders(Relay(server, None), froms), src).1
         == if froms == [] then if src.port == server.port then None else Some(server)
            else Some(if src.port == server.port then froms[0] else server)
  {
    ClientIsFirstSender(Relay(server, None), froms);
  }

  /** A relay works in both directions between its server and a client. */
  ghost predicate Transparent(r: Relay, client: Addr) {
    && OnDatagram(r, client).1 == Some(r.server)
    && OnDatagram(OnDatagram(r, client).0, client).1 == Some(r.server)
    && OnDatagram(OnDatagram(r, client).0, r.server).1 == Some(client)
  }

  /** After datagrams from anyone at all, a relay works between two neighbours exactly when their ports differ and
      nobody but the client sent the first of them. */
  lemma TransparentIff(server: Addr, client: Addr, froms: seq<Addr>)
    requires client != server
    ensures Transparent(AfterSenders(Relay(server, None), froms), client)
       <==> client.port != server.port && (froms == [] || froms[0] == client)
  {
    ClientIsFirstSender(Relay(server, None), froms);
  }

  // ---- the row

  datatype Datagram = Datagram(src: Addr, dst: Addr, payload: Payload)

  /** The sockets in a row: the client, the relays, the destination. */
  ghost predicate Row(addrs: seq<Addr>) {
    |addrs| >= 3 && forall i, j :: 0 <= i < j < |addrs| ==> addrs[i] != addrs[j]
  }

  /** Every relay's two neighbours use different ports. */
  ghost predicate PortsDiffer(addrs: seq<Addr>) {
    forall j :: 1 <= j < |addrs| - 1 ==> PortsDifferAt(addrs, j)
  }

  ghost predicate PortsDifferAt(addrs: seq<Addr>, j: nat)
    requires 1 <= j < |addrs| - 1
  {
    addrs[j - 1].port != addrs[j + 1].port
  }

  /** The datagrams in flight, relay j + 1 of the row at relays[j], and the two ledgers. */
  datatype State = State(net: seq<Datagram>, relays: seq<Relay>, fwd: Ledger, bwd: Ledger)

  ghost predicate Init(addrs: seq<Addr>, s: State) {
    && Row(addrs)
    && s.net == [] && s.fwd == CLEAN && s.bwd == CLEAN
    && |s.relays| == |addrs| - 2
    && forall j :: 0 <= j < |s.relays| ==> s.relays[j] == Relay(addrs[j + 2], None)
  }

  /** A datagram from socket j of the row to the next one. */
  ghost predicate HopUp(addrs: seq<Addr>, d: Datagram, j: int) {
    0 <= j < |addrs| - 1 && d.src == addrs[j] && d.dst == addrs[j + 1]
  }

  /** A datagram from socket j + 1 of the row back to socket j. */
  ghost predicate HopDown(addrs: seq<Addr>, d: Datagram, j: int) {
    0 <= j < |addrs| - 1 && d.src == addrs[j + 1] && d.dst == addrs[j]
  }

  ghost predicate Up(addrs: seq<Addr>, d: Datagram) {
    exists j :: HopUp(addrs, d, j)
  }

  ghost predicate Down(addrs: seq<Addr>, d: Datagram) {
    exists j :: HopDown(addrs, d, j)
  }

  datatype Action =
    | ClientSend(p: Payload)
    | DestinationSend(p: Payload)   // possible once it has heard from the row
    | Deliver(i: nat)               // datagram i reaches its address
    | Lose(i: nat)
    | Copy(i: nat)                  // the network repeats datagram i

  ghost predicate Next(addrs: seq<Addr>, s: State, a: Action, s': State) {
    var n := |addrs|;
    && n >= 3 && |s.relays| == n - 2
    && match a
       case ClientSend(p) =>
         s' == s.(net := s.net + [Datagram(addrs[0], addrs[1], p)], fwd := s.fwd.(sent := Credit(s.fwd.sent, p)))
       case DestinationSend(p) =>
         && s.fwd.delivered != multiset{}
         && s' == s.(net := s.net + [Datagram(addrs[n - 1], addrs[n - 2], p)], bwd := s.bwd.(sent := Credit(s.bwd.sent, p)))
       case Deliver(i) => i < |s.net| && Arrives(addrs, s, i, s')
       case Lose(i) =>
         && i < |s.net|
         && s' == if Up(addrs, s.net[i])
                  then s.(net := Without(s.net, i), fwd := s.fwd.(lost := Credit(s.fwd.lost, s.net[i].payload)))
                  else s.(net := Without(s.net, i), bwd := s.bwd.(lost := Credit(s.bwd.lost, s.net[i].payload)))
       case Copy(i) =>
         && i < |s.net|
         && s' == if Up(addrs, s.net[i])
                  then s.(net := s.net + [s.net[i]], fwd := s.fwd.(copied := Credit(s.fwd.copied, s.net[i].payload)))
                  else s.(net := s.net + [s.net[i]], bwd := s.bwd.(copied := Credit(s.bwd.copied, s.net[i].payload)))
  }

  /** A datagram received at one of the ends. */
  ghost predicate AtEnd(addrs: seq<Addr>, s: State, i: nat, s': State)
    requires |addrs| >= 3 && i < |s.net|
  {
    var d := s.net[i];
    || (d.dst == addrs[0]
        && s' == s.(net := Without(s.net, i), bwd := s.bwd.(delivered := Credit(s.bwd.delivered, d.payload))))
    || (d.dst == addrs[|addrs| - 1]
        && s' == s.(net := Without(s.net, i), fwd := s.fwd.(delivered := Credit(s.fwd.delivered, d.payload))))
  }

  /** Datagram i is received by the end point or the relay that owns its address. */
  ghost predicate Arrives(addrs: seq<Addr>, s: State, i: nat, s': State)
    requires |addrs| >= 3 && |s.relays| == |addrs| - 2 && i < |s.net|
  {
    || AtEnd(addrs, s, i, s')
    || exists j :: 1 <= j < |addrs| - 1 && s.net[i].dst == addrs[j] && s' == Relayed(addrs, s, i, j)
  }

  /** The relay at place j of the row takes datagram i. */
  ghost function Relayed(addrs: seq<Addr>, s: State, i: nat, j: nat): State
    requires |addrs| >= 3 && |s.relays| == |addrs| - 2 && i < |s.net| && 1 <= j < |addrs| - 1
  {
    var d := s.net[i];
    var (r, to) := OnDatagram(s.relays[j - 1], d.src);
    s.(net := Without(s.net, i) + (if to.Some? then [Datagram(addrs[j], to.value, d.payload)] else []),
       relays := s.relays[j - 1 := r])
  }

  ghost function Steps(addrs: seq<Addr>): (State, State) -> bool {
    (s, s') => exists a :: Next(addrs, s, a, s')
  }

  ghost predicate Reaches(addrs: seq<Addr>, s: State, s': State) {
    Paths.Reaches(Steps(addrs), s, s')
  }

  // ---- counting payloads in flight

  /** What a datagram carries in one direction. */
  ghost function Ones(addrs: seq<Addr>, up: bool): Datagram -> multiset<Payload> {
    d => if Up(addrs, d) == up then multiset{d.payload} else multiset{}
  }

  ghost function InFlight(addrs: seq<Addr>, net: seq<Datagram>, up: bool): multiset<Payload> {
    Flying(Ones(addrs, up), net)
  }

  // ---- the invariant

  /** The first j relays have learned their clients. */
  ghost predicate LinkedUpTo(addrs: seq<Addr>, s: State, j: int)
    requires |s.relays| == |addrs| - 2
  {
    forall i :: 0 <= i < j && i < |s.relays| ==> s.relays[i].client == Some(addrs[i])
  }

  ghost predicate RelaysOk(addrs: seq<Addr>, s: State) {
    && |s.relays| == |addrs| - 2
    && forall j :: 0 <= j < |s.relays| ==>
         s.relays[j].server == addrs[j + 2] && (s.relays[j].client == None || s.relays[j].client == Some(addrs[j]))
  }

  /** Every datagram in flight goes between neighbours; one going up has passed linked relays only,
      and one going down travels a row that is linked throughout. */
  ghost predicate InPlace(addrs: seq<Addr>, s: State, d: Datagram)
    requires |s.relays| == |addrs| - 2
  {
    || (exists j :: HopUp(addrs, d, j) && LinkedUpTo(addrs, s, j))
    || (Down(addrs, d) && LinkedUpTo(addrs, s, |s.relays|))
  }

  ghost predicate Accounts(addrs: seq<Addr>, s: State) {
    Balanced(s.fwd, InFlight(addrs, s.net, true)) && Balanced(s.bwd, InFlight(addrs, s.net, false))
  }

  ghost predicate NetInPlace(addrs: seq<Addr>, s: State)
    requires |s.relays| == |addrs| - 2
  {
    forall i :: 0 <= i < |s.net| ==> InPlace(addrs, s, s.net[i])
  }

  ghost predicate Inv(addrs: seq<Addr>, s: State) {
    && Row(addrs)
    && RelaysOk(addrs, s)
    && NetInPlace(addrs, s)
    && (s.fwd.delivered != multiset{} ==> LinkedUpTo(addrs, s, |s.relays|))
    && Accounts(addrs, s)
  }

  lemma InitInv(addrs: seq<Addr>, s: State)
    requires Init(addrs, s)
    ensures Inv(addrs, s)
  {
  }

  lemma UpIsNotDown(addrs: seq<Addr>, d: Datagram)
    requires Row(addrs)
    ensures !(Up(addrs, d) && Down(addrs, d))
  {
    assert forall i, j :: !(HopUp(addrs, d, i) && HopDown(addrs, d, j));
  }

  /** A datagram enters the net and the ledger of its direction. */
  lemma AccountsPlus(addrs: seq<Addr>, s: State, d: Datagram, s': State)
    requires Accounts(addrs, s) && s'.net == s.net + [d]
    requires if Up(addrs, d) then Entered(s.fwd, s'.fwd, d.payload) && s'.bwd == s.bwd
             else Entered(s.bwd, s'.bwd, d.payload) && s'.fwd == s.fwd
    ensures Accounts(addrs, s')
  {
    LedgerPlus(Ones(addrs, true), s.net, d, d.payload, s.fwd, s'.fwd);
    LedgerPlus(Ones(addrs, false), s.net, d, d.payload, s.bwd, s'.bwd);
  }

  /** A datagram leaves the net and is booked in the ledger of its direction. */
  lemma AccountsMinus(addrs: seq<Addr>, s: State, i: nat, s': State)
    requires Accounts(addrs, s) && i < |s.net| && s'.net == Without(s.net, i)
    requires if Up(addrs, s.net[i]) then Landed(s.fwd, s'.fwd, s.net[i].payload) && s'.bwd == s.bwd
             else Landed(s.bwd, s'.bwd, s.net[i].payload) && s'.fwd == s.fwd
    ensures Accounts(addrs, s')
  {
    LedgerMinus(Ones(addrs, true), s.net, i, s.net[i].payload, s.fwd, s'.fwd);
    LedgerMinus(Ones(addrs, false), s.net, i, s.net[i].payload, s.bwd, s'.bwd);
  }

  /** A datagram is replaced by one with the same payload and direction. */
  lemma AccountsMove(addrs: seq<Addr>, s: State, i: nat, d': Datagram, s': State)
    requires Accounts(addrs, s) && i < |s.net| && s'.net == Without(s.net, i) + [d']
    requires s'.fwd == s.fwd && s'.bwd == s.bwd
    requires Up(addrs, d') == Up(addrs, s.net[i]) && d'.payload == s.net[i].payload
    ensures Accounts(addrs, s')
  {
    LedgerMove(Ones(addrs, true), s.net, i, d', s.fwd);
    LedgerMove(Ones(addrs, false), s.net, i, d', s.bwd);
  }

  /** Relays only ever learn the right client. */
  ghost predicate Learned(s: State, s': State) {
    && |s.relays| == |s'.relays|
    && forall j :: 0 <= j < |s.relays| ==> s.relays[j].client == None || s'.relays[j] == s.relays[j]
  }

  lemma InPlaceKept(addrs: seq<Addr>, s: State, s': State, d: Datagram)
    requires |s.relays| == |addrs| - 2 && Learned(s, s') && InPlace(addrs, s, d)
    ensures InPlace(addrs, s', d)
  {
    if j :| HopUp(addrs, d, j) && LinkedUpTo(addrs, s, j) {
      assert LinkedUpTo(addrs, s', j);
    }
  }

  /** The datagrams of a new state are old ones or one that is in place. */
  lemma NetKept(addrs: seq<Addr>, s: State, s': State, d: Datagram)
    requires |s.relays| == |addrs| - 2 && NetInPlace(addrs, s) && Learned(s, s')
    requires forall i :: 0 <= i < |s'.net| ==> s'.net[i] in s.net || s'.net[i] == d
    requires d in s.net || InPlace(addrs, s', d)
    ensures NetInPlace(addrs, s')
  {
    forall i | 0 <= i < |s'.net|
      ensures InPlace(addrs, s', s'.net[i])
    {
      if s'.net[i] in s.net {
        InPlaceKept(addrs, s, s', s'.net[i]);
      }
    }
  }

  lemma NextInv(addrs: seq<Addr>, s: State, a: Action, s': State)
    requires PortsDiffer(addrs) && Inv(addrs, s) && Next(addrs, s, a, s')
    ensures Inv(addrs, s')
  {
    match a
    case ClientSend(p) => ClientSendInv(addrs, s, p, s');
    case DestinationSend(p) => DestinationSendInv(addrs, s, p, s');
    case Deliver(i) => ArrivesInv(addrs, s, i, s');
    case Lose(i) => LoseInv(addrs, s, i, s');
    case Copy(i) => CopyInv(addrs, s, i, s');
  }

  lemma ClientSendInv(addrs: seq<Addr>, s: State, p: Payload, s': State)
    requires Inv(addrs, s) && Next(addrs, s, ClientSend(p), s')
    ensures Inv(addrs, s')
  {
    var d := Datagram(addrs[0], addrs[1], p);
    assert HopUp(addrs, d, 0) && LinkedUpTo(addrs, s', 0);
    AccountsPlus(addrs, s, d, s');
    NetKept(addrs, s, s', d);
  }

  /** The destination's datagrams go down. */
  lemma DownFromTheTop(addrs: seq<Addr>, p: Payload)
    requires Row(addrs)
    ensures var d := Datagram(addrs[|addrs| - 1], addrs[|addrs| - 2], p);
            Down(addrs, d) && !Up(addrs, d)
  {
    var d := Datagram(addrs[|addrs| - 1], addrs[|addrs| - 2], p);
    assert HopDown(addrs, d, |addrs| - 2);
    UpIsNotDown(addrs, d);
  }

  lemma DestinationSendInv(addrs: seq<Addr>, s: State, p: Payload, s': State)
    requires Inv(addrs, s) && Next(addrs, s, DestinationSend(p), s')
    ensures Inv(addrs, s')
  {
    var d := Datagram(addrs[|addrs| - 1], addrs[|addrs| - 2], p);
    DownFromTheTop(addrs, p);
    AccountsPlus(addrs, s, d, s');
    NetKept(addrs, s, s', d);
  }

  lemma LoseInv(addrs: seq<Addr>, s: State, i: nat, s': State)
    requires Inv(addrs, s) && Next(addrs, s, Lose(i), s')
    ensures Inv(addrs, s')
  {
    AccountsMinus(addrs, s, i, s');
    ReplacedNet(s.net, i, s.net[i]);
    NetKept(addrs, s, s', s.net[i]);
  }

  lemma CopyInv(addrs: seq<Addr>, s: State, i: nat, s': State)
    requires Inv(addrs, s) && Next(addrs, s, Copy(i), s')
    ensures Inv(addrs, s')
  {
    AccountsPlus(addrs, s, s.net[i], s');
    NetKept(addrs, s, s', s.net[i]);
  }

  lemma ArrivesInv(addrs: seq<Addr>, s: State, i: nat, s': State)
    requires PortsDiffer(addrs) && Inv(addrs, s) && Next(addrs, s, Deliver(i), s')
    ensures Inv(addrs, s')
  {
    assert InPlace(addrs, s, s.net[i]);
    if j :| 1 <= j < |addrs| - 1 && s.net[i].dst == addrs[j] && s' == Relayed(addrs, s, i, j) {
      RelayedInv(addrs, s, i, j);
    } else {
      EndPointInv(addrs, s, i, s');
    }
  }

  lemma EndPointInv(addrs: seq<Addr>, s: State, i: nat, s': State)
    requires Inv(addrs, s) && i < |s.net| && AtEnd(addrs, s, i, s')
    ensures Inv(addrs, s')
  {
    var d := s.net[i];
    assert InPlace(addrs, s, d);
    EndPointReached(addrs, s, d);
    UpIsNotDown(addrs, d);
    AccountsMinus(addrs, s, i, s');
    ReplacedNet(s.net, i, d);
    NetKept(addrs, s, s', d);
  }

  /** What reaches the client comes down the row, what reaches the destination has come up a linked one. */
  lemma EndPointReached(addrs: seq<Addr>, s: State, d: Datagram)
    requires Inv(addrs, s) && InPlace(addrs, s, d)
    ensures d.dst == addrs[0] ==> Down(addrs, d)
    ensures d.dst == addrs[|addrs| - 1] ==> Up(addrs, d) && LinkedUpTo(addrs, s, |s.relays|)
  {
  }

  /** No relay misroutes or reflects: what came from below goes up one hop, what came from above goes down one hop. */
  lemma RelayKeepsDirection(addrs: seq<Addr>, s: State, d: Datagram, j: nat)
    requires PortsDiffer(addrs) && Inv(addrs, s) && InPlace(addrs, s, d) && 1 <= j < |addrs| - 1 && d.dst == addrs[j]
    ensures var (r, to) := OnDatagram(s.relays[j - 1], d.src);
            && r == Relay(addrs[j + 1], Some(addrs[j - 1]))
            && to.Some?
            && var d' := Datagram(addrs[j], to.value, d.payload);
               if Up(addrs, d) then HopUp(addrs, d', j) && LinkedUpTo(addrs, s, j - 1)
               else HopDown(addrs, d', j - 1) && LinkedUpTo(addrs, s, |s.relays|)
  {
    assert PortsDifferAt(addrs, j);
    UpIsNotDown(addrs, d);
    if Up(addrs, d) {
      var i :| HopUp(addrs, d, i) && LinkedUpTo(addrs, s, i);
      assert i == j - 1;
    } else {
      var i :| HopDown(addrs, d, i);
      assert i == j;
    }
  }

  /** A relay replaces a datagram by one with the same payload and direction, one hop further. */
  lemma RelayedShape(addrs: seq<Addr>, s: State, i: nat, j: nat) returns (d': Datagram)
    requires PortsDiffer(addrs) && Inv(addrs, s) && i < |s.net| && 1 <= j < |addrs| - 1 && s.net[i].dst == addrs[j]
    ensures var s' := Relayed(addrs, s, i, j);
            && s' == s.(net := Without(s.net, i) + [d'], relays := s'.relays)
            && Learned(s, s') && RelaysOk(addrs, s')
            && InPlace(addrs, s', d')
    ensures d'.payload == s.net[i].payload && Up(addrs, d') == Up(addrs, s.net[i])
  {
    var d := s.net[i];
    var s' := Relayed(addrs, s, i, j);
    assert InPlace(addrs, s, d);
    RelayKeepsDirection(addrs, s, d, j);
    d' := Datagram(addrs[j], OnDatagram(s.relays[j - 1], d.src).1.value, d.payload);
    RelayedRelays(addrs, s, i, j);
    if Up(addrs, d) {
      assert HopUp(addrs, d', j) && LinkedUpTo(addrs, s', j);
    } else {
      HopDownIsDown(addrs, d', j - 1);
      assert LinkedUpTo(addrs, s', |s'.relays|);
    }
  }

  lemma HopDownIsDown(addrs: seq<Addr>, d: Datagram, j: nat)
    requires Row(addrs) && HopDown(addrs, d, j)
    ensures Down(addrs, d) && !Up(addrs, d)
  {
    UpIsNotDown(addrs, d);
  }

  /** The relay that took the datagram now knows its client; the others are as they were. */
  lemma RelayedRelays(addrs: seq<Addr>, s: State, i: nat, j: nat)
    requires PortsDiffer(addrs) && Inv(addrs, s) && i < |s.net| && 1 <= j < |addrs| - 1 && s.net[i].dst == addrs[j]
    ensures var s' := Relayed(addrs, s, i, j);
            && s'.relays == s.relays[j - 1 := Relay(addrs[j + 1], Some(addrs[j - 1]))]
            && Learned(s, s') && RelaysOk(addrs, s')
  {
    assert InPlace(addrs, s, s.net[i]);
    RelayKeepsDirection(addrs, s, s.net[i], j);
    NeighbourLearned(addrs, s, Relayed(addrs, s, i, j), j);
  }

  lemma NeighbourLearned(addrs: seq<Addr>, s: State, s': State, j: nat)
    requires RelaysOk(addrs, s) && 1 <= j < |addrs| - 1
    requires s'.relays == s.relays[j - 1 := Relay(addrs[j + 1], Some(addrs[j - 1]))]
    ensures Learned(s, s') && RelaysOk(addrs, s')
  {
  }

  lemma RelayedInv(addrs: seq<Addr>, s: State, i: nat, j: nat)
    requires PortsDiffer(addrs) && Inv(addrs, s) && i < |s.net| && 1 <= j < |addrs| - 1 && s.net[i].dst == addrs[j]
    ensures Inv(addrs, Relayed(addrs, s, i, j))
  {
    var d' := RelayedShape(addrs, s, i, j);
    AccountsMove(addrs, s, i, d', Relayed(addrs, s, i, j));
    ReplacedNet(s.net, i, d');
    NetKept(addrs, s, Relayed(addrs, s, i, j), d');
  }

  lemma ReachableInv(addrs: seq<Addr>, s0: State, s: State)
    requires PortsDiffer(addrs) && Init(addrs, s0) && Reaches(addrs, s0, s)
    ensures Inv(addrs, s)
  {
    InitInv(addrs, s0);
    forall a, b | Inv(addrs, a) && Steps(addrs)(a, b)
      ensures Inv(addrs, b)
    {
      var act :| Next(addrs, a, act, b);
      NextInv(addrs, a, act, b);
    }
    Paths.KeptByReach(Steps(addrs), x => Inv(addrs, x), s0, s);
  }

  /** Transparency of a row of any length: in every reachable state, in both directions, the payloads sent
      (and repeated by the network) are exactly those delivered at the other end, in flight, or lost by the network;
      every datagram in flight goes between neighbours and the relays hold no other client than their neighbour. */
  lemma RowIsTransparent(addrs: seq<Addr>, s0: State, s: State)
    requires PortsDiffer(addrs) && Init(addrs, s0) && Reaches(addrs, s0, s)
    ensures s.fwd.sent + s.fwd.copied == s.fwd.delivered + InFlight(addrs, s.net, true) + s.fwd.lost
    ensures s.bwd.sent + s.bwd.copied == s.bwd.delivered + InFlight(addrs, s.net, false) + s.bwd.lost
    ensures forall i :: 0 <= i < |s.net| ==> Up(addrs, s.net[i]) || Down(addrs, s.net[i])
    ensures RelaysOk(addrs, s)
  {
    ReachableInv(addrs, s0, s);
    forall i | 0 <= i < |s.net|
      ensures Up(addrs, s.net[i]) || Down(addrs, s.net[i])
    {
      assert InPlace(addrs, s, s.net[i]);
    }
  }
}
