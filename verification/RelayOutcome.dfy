/** For which rows anything ever arrives at the destination. */
module RelayOutcome {
  import opened Ledgers
  import opened Route
  import opened OverlaySetup
  import opened RelayChain
  import Paths

  // ---- ports that differ let payloads through

  /** A lone datagram below the destination is taken one place further up. */
  lemma OneRelayedUp(addrs: seq<Addr>, s: RelayChain.State, j: nat, p: Payload)
    requires PortsDiffer(addrs) && RelayChain.Inv(addrs, s) && j < |addrs| - 2
    requires s.net == [Datagram(addrs[j], addrs[j + 1], p)]
    ensures RelayChain.Inv(addrs, Relayed(addrs, s, 0, j + 1))
    ensures Relayed(addrs, s, 0, j + 1).net == [Datagram(addrs[j + 1], addrs[j + 2], p)]
  {
    var d := s.net[0];
    RelayedInv(addrs, s, 0, j + 1);
    assert InPlace(addrs, s, d) && HopUp(addrs, d, j);
    RelayKeepsDirection(addrs, s, d, j + 1);
    assert PortsDifferAt(addrs, j + 1);
    assert Without(s.net, 0) == [];
  }

  lemma OneDeliveredUp(addrs: seq<Addr>, s: RelayChain.State, p: Payload) returns (s': RelayChain.State)
    requires |addrs| >= 3 && |s.relays| == |addrs| - 2
    requires s.net == [Datagram(addrs[|addrs| - 2], addrs[|addrs| - 1], p)]
    ensures RelayChain.Steps(addrs)(s, s') && p in s'.fwd.delivered
  {
    s' := s.(net := Without(s.net, 0), fwd := s.fwd.(delivered := Credit(s.fwd.delivered, p)));
    assert AtEnd(addrs, s, 0, s');
    assert RelayChain.Next(addrs, s, Deliver(0), s');
  }

  /** A lone datagram on its way up can be brought to the destination. */
  lemma {:induction false} CanBeBroughtUp(addrs: seq<Addr>, s: RelayChain.State, j: nat, p: Payload)
    returns (s': RelayChain.State)
    requires PortsDiffer(addrs) && RelayChain.Inv(addrs, s) && j < |addrs| - 1
    requires s.net == [Datagram(addrs[j], addrs[j + 1], p)]
    ensures RelayChain.Reaches(addrs, s, s') && p in s'.fwd.delivered
    decreases |addrs| - j
  {
    var steps := RelayChain.Steps(addrs);
    if j + 1 == |addrs| - 1 {
      s' := OneDeliveredUp(addrs, s, p);
      Paths.ReachesSelf(steps, s');
      Paths.StepThenReach(steps, s, s', s');
    } else {
      var s1 := Relayed(addrs, s, 0, j + 1);
      assert RelayChain.Next(addrs, s, Deliver(0), s1);
      OneRelayedUp(addrs, s, j, p);
      s' := CanBeBroughtUp(addrs, s1, j + 1, p);
      Paths.StepThenReach(steps, s, s1, s');
    }
  }

  // ---- equal ports block the row

  /** Two neighbours of relay j share a port, and nothing has come past that relay. */
  ghost predicate StuckAt(addrs: seq<Addr>, s: RelayChain.State, j: nat) {
    && Row(addrs) && |s.relays| == |addrs| - 2
    && 1 <= j < |addrs| - 1 && !PortsDifferAt(addrs, j)
    && s.fwd.delivered == multiset{}
    && (forall i :: 0 <= i < |s.net| ==> Below(addrs, s.net[i], j))
    && (forall p :: 1 <= p <= j ==> NeighbourClient(addrs, s, p, j))
  }

  /** A datagram between neighbours no further than place j. */
  ghost predicate Below(addrs: seq<Addr>, d: Datagram, j: nat) {
    exists a :: a < j && (HopUp(addrs, d, a) || HopDown(addrs, d, a))
  }

  /** The relay at place p sends only to its neighbours; the one at place j only down. */
  ghost predicate NeighbourClient(addrs: seq<Addr>, s: RelayChain.State, p: nat, j: nat)
    requires |s.relays| == |addrs| - 2 && 1 <= p <= j < |addrs| - 1
  {
    var r := s.relays[p - 1];
    && r.server == addrs[p + 1]
    && (r.client == None || r.client == Some(addrs[p - 1]) || (p < j && r.client == Some(addrs[p + 1])))
  }

  lemma StuckStep(addrs: seq<Addr>, s: RelayChain.State, a: RelayChain.Action, s': RelayChain.State, j: nat)
    requires StuckAt(addrs, s, j) && RelayChain.Next(addrs, s, a, s')
    ensures StuckAt(addrs, s', j)
  {
    match a
    case ClientSend(p) =>
      var d := Datagram(addrs[0], addrs[1], p);
      assert HopUp(addrs, d, 0);
      StuckNet(addrs, s, s', d, j);
    case DestinationSend(p) =>
    case Lose(i) => StuckNet(addrs, s, s', s.net[i], j);
    case Copy(i) => StuckNet(addrs, s, s', s.net[i], j);
    case Deliver(i) =>
      assert Below(addrs, s.net[i], j);
      if q :| 1 <= q < |addrs| - 1 && s.net[i].dst == addrs[q] && s' == Relayed(addrs, s, i, q) {
        StuckRelay(addrs, s, i, q, j);
      } else {
        StuckNet(addrs, s, s', s.net[i], j);
      }
  }

  /** Only the net changed, by datagrams that are below. */
  lemma StuckNet(addrs: seq<Addr>, s: RelayChain.State, s': RelayChain.State, d: Datagram, j: nat)
    requires StuckAt(addrs, s, j) && s'.relays == s.relays && s'.fwd.delivered == multiset{} && Below(addrs, d, j)
    requires forall i :: 0 <= i < |s'.net| ==> s'.net[i] in s.net || s'.net[i] == d
    ensures StuckAt(addrs, s', j)
  {
    forall p | 1 <= p <= j
      ensures NeighbourClient(addrs, s', p, j)
    {
      assert NeighbourClient(addrs, s, p, j);
    }
  }

  lemma StuckRelay(addrs: seq<Addr>, s: RelayChain.State, i: nat, q: nat, j: nat)
    requires StuckAt(addrs, s, j) && i < |s.net| && 1 <= q < |addrs| - 1 && s.net[i].dst == addrs[q]
    ensures StuckAt(addrs, Relayed(addrs, s, i, q), j)
  {
    var d := s.net[i];
    var s' := Relayed(addrs, s, i, q);
    assert Below(addrs, d, j);
    var a :| a < j && (HopUp(addrs, d, a) || HopDown(addrs, d, a));
    assert q <= j && d.src in {addrs[q - 1], addrs[q + 1]} && (q == j ==> d.src == addrs[j - 1]);
    assert NeighbourClient(addrs, s, q, j);
    forall p | 1 <= p <= j
      ensures NeighbourClient(addrs, s', p, j)
    {
      assert NeighbourClient(addrs, s, p, j);
    }
    var to := OnDatagram(s.relays[q - 1], d.src).1;
    if to.Some? {
      RelayStaysBelow(addrs, s, d, q, j);
      ReplacedNet(s.net, i, Datagram(addrs[q], to.value, d.payload));
    } else {
      ReplacedNet(s.net, i, d);
      assert s'.net == Without(s.net, i);
    }
  }

  lemma RelayStaysBelow(addrs: seq<Addr>, s: RelayChain.State, d: Datagram, q: nat, j: nat)
    requires StuckAt(addrs, s, j) && 1 <= q <= j && NeighbourClient(addrs, s, q, j)
    requires d.src == addrs[q - 1] || (q < j && d.src == addrs[q + 1])
    ensures var to := OnDatagram(s.relays[q - 1], d.src).1;
            to.Some? ==> Below(addrs, Datagram(addrs[q], to.value, d.payload), j)
  {
    var to := OnDatagram(s.relays[q - 1], d.src).1;
    if to.Some? {
      var d' := Datagram(addrs[q], to.value, d.payload);
      if to.value == addrs[q - 1] {
        assert HopDown(addrs, d', q - 1);
      } else {
        assert HopUp(addrs, d', q);
      }
    }
  }

  lemma StuckForEver(addrs: seq<Addr>, s0: RelayChain.State, s: RelayChain.State, j: nat)
    requires RelayChain.Init(addrs, s0) && RelayChain.Reaches(addrs, s0, s)
    requires 1 <= j < |addrs| - 1 && !PortsDifferAt(addrs, j)
    ensures s.fwd.delivered == multiset{}
  {
    forall a, b | StuckAt(addrs, a, j) && RelayChain.Steps(addrs)(a, b)
      ensures StuckAt(addrs, b, j)
    {
      var act :| RelayChain.Next(addrs, a, act, b);
      StuckStep(addrs, a, act, b, j);
    }
    Paths.KeptByReach(RelayChain.Steps(addrs), x => StuckAt(addrs, x, j), s0, s);
  }

  // ---- main result

  /** Some run delivers something at the destination. */
  ghost predicate CanDeliver(addrs: seq<Addr>, s0: RelayChain.State) {
    exists s :: RelayChain.Reaches(addrs, s0, s) && s.fwd.delivered != multiset{}
  }

  /** A row delivers exactly when the two neighbours of each of its relays use different ports. */
  lemma RowDeliversIff(addrs: seq<Addr>, s0: RelayChain.State)
    requires RelayChain.Init(addrs, s0)
    ensures CanDeliver(addrs, s0) <==> PortsDiffer(addrs)
  {
    if PortsDiffer(addrs) {
      RelayChain.InitInv(addrs, s0);
      var p: Payload := [];
      var s1 := s0.(net := s0.net + [Datagram(addrs[0], addrs[1], p)], fwd := s0.fwd.(sent := Credit(s0.fwd.sent, p)));
      assert RelayChain.Next(addrs, s0, ClientSend(p), s1);
      ClientSendInv(addrs, s0, p, s1);
      var s2 := CanBeBroughtUp(addrs, s1, 0, p);
      Paths.StepThenReach(RelayChain.Steps(addrs), s0, s1, s2);
    } else {
      var j :| 1 <= j < |addrs| - 1 && !PortsDifferAt(addrs, j);
      forall s | RelayChain.Reaches(addrs, s0, s)
        ensures s.fwd.delivered == multiset{}
      {
        StuckForEver(addrs, s0, s, j);
      }
    }
  }
}
