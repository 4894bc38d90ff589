/** The row that a successful set-up leaves behind, and what happens on it to the payloads of both ends while strays,
    further processes and the network go on as they please. */
module OverlayRow {
  import opened Ledgers
  import opened Route
  import opened OverlaySetup
  import opened RelayChain
  import opened OverlayTraffic
  import RelayOutcome
  import Paths

  type State = OverlayTraffic.State

  // ---- the row

  /** Place j of the row relays to the next place and has the place before it below. */
  ghost predicate SpineAt(w: World, s: State, row: seq<Addr>, j: nat)
    requires 1 <= j < |row| - 1
  {
    Relays(s, row[j]) && Server(s, row[j]) == row[j + 1] && Below(w, s, row[j]) == row[j - 1]
  }

  ghost predicate Spine(w: World, s: State, row: seq<Addr>) {
    && Row(row) && row[0] == w.client && row[|row| - 1] == w.destination
    && forall j {:trigger SpineAt(w, s, row, j)} :: 1 <= j < |row| - 1 ==> SpineAt(w, s, row, j)
  }

  /** This is the row of a set-up that has succeeded. */
  ghost predicate OnRow(w: World, s: State, row: seq<Addr>) {
    && HasPath(w.env, s.setup) && row == RowOf(w, s) && row[1] == First(w.env, s.setup)
    && |row| == |w.env.route| && Spine(w, s, row)
  }

  lemma RowIsSpine(w: World, s: State)
    requires TreeInv(w, s) && s.setup.outcome.Success?
    ensures HasPath(w.env, s.setup) && OnRow(w, s, RowOf(w, s))
  {
    PathIsChain(w.env, s.setup);
    var hops, row := Path(w.env, s.setup), RowOf(w, s);
    forall i, j | 0 <= i < j < |row|
      ensures row[i] != row[j]
    {
      assert 1 <= i <= |hops| ==> row[i] == hops[i - 1];
      assert 1 <= j <= |hops| ==> row[j] == hops[j - 1];
    }
    forall j | 1 <= j < |row| - 1
      ensures SpineAt(w, s, row, j)
    {
      HopOfRow(w, s, hops, j);
    }
  }

  lemma HopOfRow(w: World, s: State, hops: seq<Addr>, j: nat)
    requires TreeInv(w, s) && IsChain(w.env, s.setup.children, w.env.route, hops)
    requires s.setup.children[hops[0]].upstream == w.env.builder
    requires 1 <= j <= |hops|
    ensures SpineAt(w, s, [w.client] + hops + [w.destination], j)
  {
    var row := [w.client] + hops + [w.destination];
    assert row[j] == hops[j - 1];
    if j > 1 {
      assert row[j - 1] == hops[j - 2] && hops[j - 2] in s.setup.children;
    }
    if j < |hops| {
      assert row[j + 1] == hops[j];
    }
  }

  /** From its success on, no step changes the row. */
  lemma RowKept(w: World, s: State, a: OverlayTraffic.Action, s': State)
    requires TreeInv(w, s) && OverlayTraffic.Next(w, s, a, s') && HasPath(w.env, s.setup)
    ensures HasPath(w.env, s'.setup) && RowOf(w, s') == RowOf(w, s)
    ensures First(w.env, s'.setup) == First(w.env, s.setup)
  {
    if a.SetUp? {
      PathKept(w.env, s.setup, a.a, s'.setup);
    }
  }

  lemma OnRowKept(w: World, s: State, row: seq<Addr>, a: OverlayTraffic.Action, s': State)
    requires TreeInv(w, s) && OnRow(w, s, row) && OverlayTraffic.Next(w, s, a, s') && TreeInv(w, s')
    ensures OnRow(w, s', row)
  {
    RowKept(w, s, a, s');
    RowIsSpine(w, s');
  }

  /** Place j has no client, or what is below it. */
  ghost predicate ClearAt(s: State, row: seq<Addr>, j: nat)
    requires 1 <= j < |row| - 1
  {
    row[j] in s.clients ==> s.clients[row[j]] == row[j - 1]
  }

  ghost predicate Clear(s: State, row: seq<Addr>) {
    forall j {:trigger ClearAt(s, row, j)} :: 1 <= j < |row| - 1 ==> ClearAt(s, row, j)
  }

  /** Place j has what is below it for its client. */
  ghost predicate LinkedAt(s: State, row: seq<Addr>, j: nat)
    requires 1 <= j < |row| - 1
  {
    row[j] in s.clients && s.clients[row[j]] == row[j - 1]
  }

  // ---- what each direction keeps

  ghost function Carries(o: Origin): Packet -> multiset<Payload> {
    (p: Packet) => if p.origin == o then multiset{p.d.payload} else multiset{}
  }

  /** What the client sends is on its way up the row, and every payload is accounted for. */
  ghost predicate UpInv(s: State, row: seq<Addr>) {
    && (forall p :: p in s.net && p.origin.FromClient? ==> Up(row, p.d))
    && Balanced(s.up, Flying(Carries(FromClient), s.net))
  }

  /** The same for what the destination sends. */
  ghost predicate DownInv(s: State, row: seq<Addr>) {
    && (forall p :: p in s.net && p.origin.FromDestination? ==> Down(row, p.d))
    && Balanced(s.down, Flying(Carries(FromDestination), s.net))
  }

  /** x was forked, over k processes, for y, or is y. */
  ghost predicate DescendsIn(s: State, x: Addr, y: Addr, k: nat)
    decreases k
  {
    if k == 0 then x == y else x in s.setup.children && DescendsIn(s, s.setup.children[x].upstream, y, k - 1)
  }

  ghost predicate Descends(s: State, x: Addr, y: Addr) {
    exists k: nat :: DescendsIn(s, x, y, k)
  }

  /** What the destination sends stays with place j and the processes forked for it; nothing comes past it. */
  ghost predicate CutAt(w: World, s: State, row: seq<Addr>, j: nat)
    requires 1 <= j < |row| - 1
  {
    && (forall p :: p in s.net && p.origin.FromDestination? ==> p.d.dst == w.destination || Descends(s, p.d.dst, row[j]))
    && s.down.delivered == multiset{}
  }

  /** What the client sends stays below place j. */
  ghost predicate StuckAt(s: State, row: seq<Addr>, j: nat)
    requires 1 <= j < |row| - 1
  {
    && (forall p :: p in s.net && p.origin.FromClient? ==> RelayOutcome.Below(row, p.d, j))
    && s.up.delivered == multiset{}
  }

  /** Before the set-up has succeeded neither end has sent anything over a row. */
  ghost predicate Unused(s: State) {
    && (forall p :: p in s.net ==> p.origin.Noise?)
    && s.up == CLEAN && s.down == CLEAN
  }

  ghost predicate RowInv(w: World, s: State, row: seq<Addr>) {
    && (PortsDiffer(row) ==> UpInv(s, row))
    && (Clear(s, row) ==> DownInv(s, row))
    && (forall j {:trigger CutAt(w, s, row, j)} :: 1 <= j < |row| - 1 && !LinkedAt(s, row, j) ==> CutAt(w, s, row, j))
    && (forall j {:trigger StuckAt(s, row, j)} ::
          1 <= j < |row| - 1 && !PortsDifferAt(row, j) && Clear(s, row) ==> StuckAt(s, row, j))
  }

  ghost predicate Inv(w: World, s: State) {
    TreeInv(w, s) && if HasPath(w.env, s.setup) then RowInv(w, s, RowOf(w, s)) else Unused(s)
  }

  lemma {:induction false} NoiseCarriesNothing(net: seq<Packet>, o: Origin)
    requires o != Noise && forall p :: p in net ==> p.origin.Noise?
    ensures Flying(Carries(o), net) == multiset{}
  {
    if net != [] {
      NoiseCarriesNothing(net[1..], o);
    }
  }

  /** When the set-up succeeds, the row starts unused. */
  lemma RowStarts(w: World, s: State, row: seq<Addr>)
    requires Unused(s)
    ensures RowInv(w, s, row)
  {
    NoiseCarriesNothing(s.net, FromClient);
    NoiseCarriesNothing(s.net, FromDestination);
  }

  // ---- ledgers

  /** What happens to the net and the ledger of an origin in steps that deliver nothing. */
  lemma EntersOrIsLost(w: World, s: State, a: OverlayTraffic.Action, s': State)
    requires OverlayTraffic.Next(w, s, a, s') && !a.Deliver?
    ensures Balanced(s.up, Flying(Carries(FromClient), s.net)) ==> Balanced(s'.up, Flying(Carries(FromClient), s'.net))
    ensures Balanced(s.down, Flying(Carries(FromDestination), s.net)) ==>
              Balanced(s'.down, Flying(Carries(FromDestination), s'.net))
    ensures s'.up.delivered == s.up.delivered && s'.down.delivered == s.down.delivered
  {
    if Balanced(s.up, Flying(Carries(FromClient), s.net)) {
      OneLedger(w, s, a, s', FromClient, s.up, s'.up);
    }
    if Balanced(s.down, Flying(Carries(FromDestination), s.net)) {
      OneLedger(w, s, a, s', FromDestination, s.down, s'.down);
    }
  }

  /** Steps that neither deliver nor lose add at most one packet, and book it. */
  lemma GrownNet(w: World, s: State, a: OverlayTraffic.Action, s': State) returns (grown: bool, q: Packet)
    requires OverlayTraffic.Next(w, s, a, s') && !a.Deliver? && !a.Lose?
    ensures s'.net == s.net + if grown then [q] else []
    ensures if grown && q.origin.FromClient? then Entered(s.up, s'.up, q.d.payload) else s'.up == s.up
    ensures if grown && q.origin.FromDestination? then Entered(s.down, s'.down, q.d.payload) else s'.down == s.down
  {
    grown := |s'.net| > |s.net|;
    q := if grown then s'.net[|s.net|] else Packet(Datagram(w.client, w.client, []), Noise);
    assert !grown ==> s'.net == s.net + [];
  }

  lemma OneLedger(w: World, s: State, a: OverlayTraffic.Action, s': State, o: Origin, l: Ledger, l': Ledger)
    requires OverlayTraffic.Next(w, s, a, s') && !a.Deliver?
    requires (o == FromClient && l == s.up && l' == s'.up) || (o == FromDestination && l == s.down && l' == s'.down)
    requires Balanced(l, Flying(Carries(o), s.net))
    ensures Balanced(l', Flying(Carries(o), s'.net))
  {
    if a.Lose? {
      LedgerMinus(Carries(o), s.net, a.i, s.net[a.i].d.payload, l, l');
    } else {
      var grown, q := GrownNet(w, s, a, s');
      if grown {
        LedgerPlus(Carries(o), s.net, q, q.d.payload, l, l');
      } else {
        assert s'.net == s.net;
      }
    }
  }

  /** The relaying process that p goes to sends its payload on as q. */
  ghost predicate MovedOn(w: World, s: State, p: Packet, q: Packet) {
    && Relays(s, p.d.dst) && p.d.dst != w.client && p.d.dst != w.destination
    && q.origin == p.origin && q.d.payload == p.d.payload && q.d.src == p.d.dst
    && OnDatagram(RelayOf(s, p.d.dst), p.d.src).1 == Some(q.d.dst)
  }

  /** A delivered packet is gone from the net, or replaced by one with the same origin and payload that its receiver sends. */
  lemma DeliveredNet(w: World, s: State, i: nat) returns (moved: bool, q: Packet)
    requires i < |s.net|
    ensures var s', p := Delivered(w, s, i), s.net[i];
            && s'.net == Without(s.net, i) + (if moved then [q] else [])
            && s'.setup == s.setup
            && (moved ==> MovedOn(w, s, p, q))
  {
    var s' := Delivered(w, s, i);
    moved := |s'.net| == |s.net|;
    q := if moved then s'.net[|s.net| - 1] else s.net[i];
    assert !moved ==> s'.net == Without(s.net, i) + [];
  }

  lemma DeliveredLedger(w: World, s: State, i: nat, o: Origin, l: Ledger, l': Ledger)
    requires i < |s.net| && Balanced(l, Flying(Carries(o), s.net))
    requires var p, s' := s.net[i], Delivered(w, s, i);
             if p.origin != o then l' == l
             else (Landed(l, l', p.d.payload) && |s'.net| < |s.net|) || (l' == l && |s'.net| == |s.net|)
    ensures Balanced(l', Flying(Carries(o), Delivered(w, s, i).net))
  {
    var moved, q := DeliveredNet(w, s, i);
    if moved {
      LedgerMove(Carries(o), s.net, i, q, l);
    } else {
      assert Delivered(w, s, i).net == Without(s.net, i);
      LedgerMinus(Carries(o), s.net, i, s.net[i].d.payload, l, l');
    }
  }

  /** New packets of the two ends start at the ends of the row. */
  ghost predicate StartsAtAnEnd(row: seq<Addr>, p: Packet)
    requires |row| >= 3
  {
    match p.origin
    case FromClient => HopUp(row, p.d, 0)
    case FromDestination => HopDown(row, p.d, |row| - 2)
    case Noise => true
  }

  lemma NewPackets(w: World, s: State, a: OverlayTraffic.Action, s': State, row: seq<Addr>)
    requires OnRow(w, s, row) && OverlayTraffic.Next(w, s, a, s') && !a.Deliver?
    ensures forall p :: p in s'.net ==> p in s.net || StartsAtAnEnd(row, p)
  {
    if a.Lose? {
      ReplacedNet(s.net, a.i, s.net[a.i]);
    }
  }

  // ---- up

  /** With different ports a relay of the row passes what comes from below on, whoever its client is. */
  lemma PassesUp(w: World, s: State, row: seq<Addr>, j: nat)
    requires Spine(w, s, row) && 1 <= j < |row| - 1 && PortsDifferAt(row, j)
    ensures Relays(s, row[j]) && OnDatagram(RelayOf(s, row[j]), row[j - 1]).1 == Some(row[j + 1])
  {
    assert SpineAt(w, s, row, j);
  }

  /** The last packet on the network. */
  ghost predicate LastIs(s: State, p: Packet) {
    s.net != [] && s.net[|s.net| - 1] == p
  }

  /** The last packet, when it reaches a place of the row, is the last packet again, one place further up. */
  lemma DeliveredUp(w: World, s: State, row: seq<Addr>, j: nat, p: Payload)
    requires Spine(w, s, row) && j < |row| - 2 && PortsDifferAt(row, j + 1)
    requires LastIs(s, Packet(Datagram(row[j], row[j + 1], p), FromClient))
    ensures var s' := Delivered(w, s, |s.net| - 1);
            && s'.up == s.up && s'.down == s.down
            && LastIs(s', Packet(Datagram(row[j + 1], row[j + 2], p), FromClient))
  {
    PassesUp(w, s, row, j + 1);
    var moved, q := DeliveredNet(w, s, |s.net| - 1);
  }

  lemma UpDeliver(w: World, s: State, i: nat, row: seq<Addr>)
    requires OnRow(w, s, row) && PortsDiffer(row) && UpInv(s, row) && i < |s.net|
    ensures UpInv(Delivered(w, s, i), row)
  {
    var s', p := Delivered(w, s, i), s.net[i];
    var moved, q := DeliveredNet(w, s, i);
    ReplacedNet(s.net, i, q);
    if p.origin.FromClient? {
      var j :| HopUp(row, p.d, j);
      if j + 1 < |row| - 1 {
        assert PortsDifferAt(row, j + 1);
        PassesUp(w, s, row, j + 1);
        assert HopUp(row, q.d, j + 1);
      }
    }
    DeliveredLedger(w, s, i, FromClient, s.up, s'.up);
  }

  lemma UpStep(w: World, s: State, a: OverlayTraffic.Action, s': State, row: seq<Addr>)
    requires OnRow(w, s, row) && PortsDiffer(row) && UpInv(s, row) && OverlayTraffic.Next(w, s, a, s')
    ensures UpInv(s', row)
  {
    if a.Deliver? {
      UpDeliver(w, s, a.i, row);
    } else {
      NewPackets(w, s, a, s', row);
      EntersOrIsLost(w, s, a, s');
    }
  }

  // ---- down

  /** A linked relay of the row passes what comes from above on. */
  lemma PassesDown(w: World, s: State, row: seq<Addr>, j: nat)
    requires Spine(w, s, row) && 1 <= j < |row| - 1 && LinkedAt(s, row, j)
    ensures Relays(s, row[j]) && OnDatagram(RelayOf(s, row[j]), row[j + 1]).1 == Some(row[j - 1])
  {
    assert SpineAt(w, s, row, j);
  }

  /** The last packet is the last packet again, one place further down. */
  lemma DeliveredDown(w: World, s: State, row: seq<Addr>, j: nat, p: Payload)
    requires Spine(w, s, row) && 1 <= j < |row| - 1 && LinkedAt(s, row, j)
    requires LastIs(s, Packet(Datagram(row[j + 1], row[j], p), FromDestination))
    ensures var s' := Delivered(w, s, |s.net| - 1);
            && s'.up == s.up && s'.down == s.down
            && LastIs(s', Packet(Datagram(row[j], row[j - 1], p), FromDestination))
  {
    PassesDown(w, s, row, j);
    var moved, q := DeliveredNet(w, s, |s.net| - 1);
  }

  /** What comes from above finds a relay that has a client. */
  lemma DownFindsClient(w: World, s: State, row: seq<Addr>, d: Datagram, j: nat)
    requires TreeInv(w, s) && OnRow(w, s, row) && PacketOk(w, s, d)
    requires 1 <= j < |row| - 1 && HopDown(row, d, j)
    ensures row[j] in s.clients
  {
    if d.src in s.clients {
      assert ClientOk(w, s, d.src);
      assert j + 1 < |row| - 1;
      assert SpineAt(w, s, row, j) && SpineAt(w, s, row, j + 1);
      if IsChild(s, d.src, row[j]) {
        ChildIsAbove(w, s, d.src, row[j]);
      }
    }
  }

  lemma DownDeliver(w: World, s: State, i: nat, row: seq<Addr>)
    requires TreeInv(w, s) && OnRow(w, s, row) && Clear(s, row) && DownInv(s, row) && i < |s.net|
    ensures DownInv(Delivered(w, s, i), row)
  {
    var s', p := Delivered(w, s, i), s.net[i];
    var moved, q := DeliveredNet(w, s, i);
    ReplacedNet(s.net, i, q);
    if p.origin.FromDestination? {
      var j :| HopDown(row, p.d, j);
      if j > 0 {
        assert PacketOk(w, s, p.d);
        DownFindsClient(w, s, row, p.d, j);
        assert ClearAt(s, row, j);
        PassesDown(w, s, row, j);
        assert HopDown(row, q.d, j - 1);
      }
    }
    DeliveredLedger(w, s, i, FromDestination, s.down, s'.down);
  }

  lemma DownStep(w: World, s: State, a: OverlayTraffic.Action, s': State, row: seq<Addr>)
    requires TreeInv(w, s) && OnRow(w, s, row) && Clear(s, row) && DownInv(s, row) && OverlayTraffic.Next(w, s, a, s')
    ensures DownInv(s', row)
  {
    if a.Deliver? {
      DownDeliver(w, s, a.i, row);
    } else {
      NewPackets(w, s, a, s', row);
      EntersOrIsLost(w, s, a, s');
    }
  }

  // ---- a place that is not linked cuts the way down

  lemma {:induction false} DescendsKept(s: State, s': State, x: Addr, y: Addr, k: nat)
    requires Extends(s.setup.children, s'.setup.children) && DescendsIn(s, x, y, k)
    ensures DescendsIn(s', x, y, k)
    decreases k
  {
    if k > 0 {
      DescendsKept(s, s', s.setup.children[x].upstream, y, k - 1);
    }
  }

  /** Higher places of the row were forked for lower ones. */
  lemma {:induction false} RowDescends(w: World, s: State, row: seq<Addr>, i: nat, j: nat)
    requires Spine(w, s, row) && 1 <= j <= i < |row| - 1
    ensures DescendsIn(s, row[i], row[j], i - j)
    decreases i
  {
    if j < i {
      assert SpineAt(w, s, row, i);
      RowDescends(w, s, row, i - 1, j);
    }
  }

  /** Where a process forked for place j sends, if that place is not linked. */
  lemma SendsWithin(w: World, s: State, row: seq<Addr>, j: nat, x: Addr, to: Addr)
    requires TreeInv(w, s) && Spine(w, s, row) && 1 <= j < |row| - 1 && !LinkedAt(s, row, j)
    requires Relays(s, x) && Descends(s, x, row[j])
    requires to == Server(s, x) || (x in s.clients && to == s.clients[x])
    ensures to == w.destination || Descends(s, to, row[j])
  {
    assert SpineAt(w, s, row, j);
    var k: nat :| DescendsIn(s, x, row[j], k);
    ServerIs(w, s, x);
    if x in s.clients {
      assert ClientOk(w, s, x);
    }
    if IsChild(s, x, to) {
      assert DescendsIn(s, to, row[j], k + 1);
    } else if to != w.destination {
      assert to == Below(w, s, x) && k > 0;
      assert DescendsIn(s, s.setup.children[x].upstream, row[j], k - 1);
    }
  }

  lemma ClientDoesNotDescend(w: World, s: State, row: seq<Addr>, j: nat)
    requires TreeInv(w, s) && Spine(w, s, row) && 1 <= j < |row| - 1
    ensures !Descends(s, w.client, row[j])
  {
  }

  /** A packet that is within the cut stays there as the tree grows. */
  ghost predicate Within(w: World, s: State, row: seq<Addr>, j: nat, p: Packet)
    requires 1 <= j < |row| - 1
  {
    p.origin.FromDestination? ==> p.d.dst == w.destination || Descends(s, p.d.dst, row[j])
  }

  lemma WithinKept(w: World, s: State, s': State, row: seq<Addr>, j: nat, p: Packet)
    requires 1 <= j < |row| - 1 && Extends(s.setup.children, s'.setup.children) && Within(w, s, row, j, p)
    ensures Within(w, s', row, j, p)
  {
    if p.origin.FromDestination? && p.d.dst != w.destination {
      var k: nat :| DescendsIn(s, p.d.dst, row[j], k);
      DescendsKept(s, s', p.d.dst, row[j], k);
    }
  }

  lemma NetWithin(w: World, s: State, s': State, row: seq<Addr>, j: nat, q: Packet)
    requires 1 <= j < |row| - 1 && Extends(s.setup.children, s'.setup.children)
    requires CutAt(w, s, row, j) && s'.down.delivered == multiset{}
    requires forall p :: p in s'.net ==> p in s.net || p == q
    requires q in s.net || Within(w, s', row, j, q)
    ensures CutAt(w, s', row, j)
  {
    forall p | p in s'.net
      ensures Within(w, s', row, j, p)
    {
      if p in s.net {
        WithinKept(w, s, s', row, j, p);
      }
    }
    assert forall p :: p in s'.net && p.origin.FromDestination? ==> Within(w, s', row, j, p);
  }

  lemma CutDeliver(w: World, s: State, i: nat, row: seq<Addr>, j: nat)
    requires TreeInv(w, s) && Spine(w, s, row) && 1 <= j < |row| - 1 && CutAt(w, s, row, j) && i < |s.net|
    requires var s' := Delivered(w, s, i);
             TreeInv(w, s') && Spine(w, s', row) && Grows(s, s') && !LinkedAt(s', row, j)
    ensures CutAt(w, Delivered(w, s, i), row, j)
  {
    var s', p := Delivered(w, s, i), s.net[i];
    var moved, q := DeliveredNet(w, s, i);
    ReplacedNet(s.net, i, q);
    ClientDoesNotDescend(w, s, row, j);
    assert Within(w, s, row, j, p);
    if moved {
      if p.origin.FromDestination? {
        WithinKept(w, s, s', row, j, p);
        SendsWithin(w, s', row, j, p.d.dst, q.d.dst);
      }
      NetWithin(w, s, s', row, j, q);
    } else {
      assert s'.net == Without(s.net, i);
      NetWithin(w, s, s', row, j, p);
    }
  }

  /** The destination answers within the cut. */
  lemma AnswersWithin(w: World, s: State, s': State, row: seq<Addr>, j: nat, p: Packet)
    requires OnRow(w, s, row) && 1 <= j < |row| - 1 && Extends(s.setup.children, s'.setup.children)
    requires StartsAtAnEnd(row, p)
    ensures Within(w, s', row, j, p)
  {
    RowDescends(w, s, row, |row| - 2, j);
    DescendsKept(s, s', row[|row| - 2], row[j], |row| - 2 - j);
  }

  lemma CutStep(w: World, s: State, a: OverlayTraffic.Action, s': State, row: seq<Addr>, j: nat)
    requires TreeInv(w, s) && OnRow(w, s, row) && OverlayTraffic.Next(w, s, a, s') && TreeInv(w, s') && Spine(w, s', row)
    requires Grows(s, s') && 1 <= j < |row| - 1 && CutAt(w, s, row, j) && !LinkedAt(s', row, j)
    ensures CutAt(w, s', row, j)
  {
    if a.Deliver? {
      CutDeliver(w, s, a.i, row, j);
    } else {
      NewPackets(w, s, a, s', row);
      EntersOrIsLost(w, s, a, s');
      forall p | p in s'.net
        ensures Within(w, s', row, j, p)
      {
        if p in s.net {
          WithinKept(w, s, s', row, j, p);
        } else {
          AnswersWithin(w, s, s', row, j, p);
        }
      }
      assert forall p :: p in s'.net && p.origin.FromDestination? ==> Within(w, s', row, j, p);
    }
  }

  // ---- equal ports stop the way up

  /** Place q of a clear row, no higher than place j, sends what it gets from its neighbours to a neighbour below place j. */
  lemma StaysBelow(w: World, s: State, row: seq<Addr>, j: nat, d: Datagram, q: nat, to: Addr)
    requires Spine(w, s, row) && Clear(s, row) && 1 <= q <= j < |row| - 1 && !PortsDifferAt(row, j)
    requires RelayOutcome.Below(row, d, j) && d.dst == row[q] && Relays(s, row[q])
    requires OnDatagram(RelayOf(s, row[q]), d.src).1 == Some(to)
    ensures RelayOutcome.Below(row, Datagram(row[q], to, d.payload), j)
  {
    assert SpineAt(w, s, row, q) && ClearAt(s, row, q);
    var d' := Datagram(row[q], to, d.payload);
    if to == row[q - 1] {
      assert HopDown(row, d', q - 1);
    } else {
      assert HopUp(row, d', q);
    }
  }

  lemma StuckDeliver(w: World, s: State, i: nat, row: seq<Addr>, j: nat)
    requires OnRow(w, s, row) && Clear(s, row) && i < |s.net|
    requires 1 <= j < |row| - 1 && !PortsDifferAt(row, j) && StuckAt(s, row, j)
    ensures StuckAt(Delivered(w, s, i), row, j)
  {
    var s', p := Delivered(w, s, i), s.net[i];
    var moved, q := DeliveredNet(w, s, i);
    ReplacedNet(s.net, i, q);
    if p.origin.FromClient? {
      var a :| a < j && (HopUp(row, p.d, a) || HopDown(row, p.d, a));
      var at := if HopUp(row, p.d, a) then a + 1 else a;
      assert p.d.dst == row[at] && at <= j;
      if moved {
        StaysBelow(w, s, row, j, p.d, at, q.d.dst);
        assert q.d == Datagram(row[at], q.d.dst, p.d.payload);
      }
    }
  }

  lemma StuckStep(w: World, s: State, a: OverlayTraffic.Action, s': State, row: seq<Addr>, j: nat)
    requires OnRow(w, s, row) && OverlayTraffic.Next(w, s, a, s') && Clear(s, row)
    requires 1 <= j < |row| - 1 && !PortsDifferAt(row, j) && StuckAt(s, row, j)
    ensures StuckAt(s', row, j)
  {
    if a.Deliver? {
      StuckDeliver(w, s, a.i, row, j);
    } else {
      NewPackets(w, s, a, s', row);
      EntersOrIsLost(w, s, a, s');
    }
  }

  // ---- all together

  lemma InitInv(w: World, s: State)
    requires OverlayTraffic.Init(w, s)
    ensures Inv(w, s)
  {
    InitTree(w, s);
  }

  lemma UnusedStep(w: World, s: State, a: OverlayTraffic.Action, s': State)
    requires !HasPath(w.env, s.setup) && Unused(s) && OverlayTraffic.Next(w, s, a, s')
    ensures Unused(s')
  {
    if a.Deliver? {
      var moved, q := DeliveredNet(w, s, a.i);
      ReplacedNet(s.net, a.i, q);
    } else if a.Lose? {
      ReplacedNet(s.net, a.i, s.net[a.i]);
    }
  }

  lemma RowStep(w: World, s: State, a: OverlayTraffic.Action, s': State, row: seq<Addr>)
    requires TreeInv(w, s) && OnRow(w, s, row) && OverlayTraffic.Next(w, s, a, s') && TreeInv(w, s') && Spine(w, s', row)
    requires Grows(s, s') && RowInv(w, s, row)
    ensures RowInv(w, s', row)
  {
    if PortsDiffer(row) {
      UpStep(w, s, a, s', row);
    }
    if Clear(s', row) {
      ClearBefore(s, s', row);
      DownStep(w, s, a, s', row);
    }
    forall j | 1 <= j < |row| - 1 && !LinkedAt(s', row, j)
      ensures CutAt(w, s', row, j)
    {
      assert CutAt(w, s, row, j);
      CutStep(w, s, a, s', row, j);
    }
    forall j | 1 <= j < |row| - 1 && !PortsDifferAt(row, j) && Clear(s', row)
      ensures StuckAt(s', row, j)
    {
      assert StuckAt(s, row, j);
      StuckStep(w, s, a, s', row, j);
    }
  }

  lemma ClearBefore(s: State, s': State, row: seq<Addr>)
    requires Grows(s, s') && Clear(s', row)
    ensures Clear(s, row)
  {
    forall j | 1 <= j < |row| - 1
      ensures ClearAt(s, row, j)
    {
      assert ClearAt(s', row, j);
    }
  }

  lemma NextInv(w: World, s: State, a: OverlayTraffic.Action, s': State)
    requires Inv(w, s) && OverlayTraffic.Next(w, s, a, s')
    ensures Inv(w, s')
  {
    NextTree(w, s, a, s');
    if HasPath(w.env, s.setup) {
      RowIsSpine(w, s);
      OnRowKept(w, s, RowOf(w, s), a, s');
      RowStep(w, s, a, s', RowOf(w, s));
    } else {
      UnusedStep(w, s, a, s');
      if HasPath(w.env, s'.setup) {
        RowStarts(w, s', RowOf(w, s'));
      }
    }
  }

  lemma ReachableInv(w: World, s0: State, s: State)
    requires OverlayTraffic.Init(w, s0) && OverlayTraffic.Reaches(w, s0, s)
    ensures Inv(w, s)
  {
    InitInv(w, s0);
    forall a, b | Inv(w, a) && OverlayTraffic.Steps(w)(a, b)
      ensures Inv(w, b)
    {
      var act :| OverlayTraffic.Next(w, a, act, b);
      NextInv(w, a, act, b);
    }
    Paths.KeptByReach(OverlayTraffic.Steps(w), x => Inv(w, x), s0, s);
  }
}
