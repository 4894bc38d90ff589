/** Which rows of which set-ups work: transparency over every run of a set-up with its traffic, and exactly when the
    client and the destination can talk. Texts are read as they were sent; OverlayNetwork carries the results over. */
module OverlayOutcome {
  import opened Ledgers
  import opened OverlaySetup
  import opened RelayChain
  import opened OverlayTraffic
  import opened OverlayRow
  import Paths

  type State = OverlayTraffic.State

  // ---- what every run keeps

  /** What a success leaves behind, whatever answers were lost or came again: distinct processes in a row from the client to
      the destination, each with the next one for its server and, if it has a client, the one before it or a process
      forked for it; the last has none but the one before. */
  lemma WhatIsLeft(w: World, s0: State, s: State) returns (row: seq<Addr>)
    requires OverlayTraffic.Init(w, s0) && OverlayTraffic.Reaches(w, s0, s) && s.setup.outcome.Success?
    ensures HasPath(w.env, s.setup) && row == RowOf(w, s) && |row| == |w.env.route|
    ensures Row(row) && row[0] == w.client && row[|row| - 1] == w.destination
    ensures forall j :: 1 <= j < |row| - 1 ==>
              && Relays(s, row[j]) && Server(s, row[j]) == row[j + 1]
              && (row[j] in s.clients ==>
                    s.clients[row[j]] == row[j - 1] || (j < |row| - 2 && IsChild(s, row[j], s.clients[row[j]])))
  {
    OverlayRow.ReachableInv(w, s0, s);
    RowIsSpine(w, s);
    row := RowOf(w, s);
    forall j | 1 <= j < |row| - 1
      ensures Relays(s, row[j]) && Server(s, row[j]) == row[j + 1]
      ensures row[j] in s.clients ==>
                s.clients[row[j]] == row[j - 1] || (j < |row| - 2 && IsChild(s, row[j], s.clients[row[j]]))
    {
      assert SpineAt(w, s, row, j);
      if row[j] in s.clients {
        assert ClientOk(w, s, row[j]);
        if IsChild(s, row[j], s.clients[row[j]]) {
          ChildIsAbove(w, s, row[j], s.clients[row[j]]);
          ServerIs(w, s, row[j]);
        }
      }
    }
  }

  /** Traffic is never taken for an answer: every packet on its way is for one of the two ends, for a process that relays,
      or for one that has left. */
  lemma TrafficFindsNoWaitingProcess(w: World, s0: State, s: State, p: Packet)
    requires OverlayTraffic.Init(w, s0) && OverlayTraffic.Reaches(w, s0, s) && p in s.net
    ensures || p.d.dst == w.client || p.d.dst == w.destination
            || (p.d.dst in s.setup.children && s.setup.children[p.d.dst].mode != Waiting)
  {
    ReachableTree(w, s0, s);
    assert PacketOk(w, s, p.d);
    if p.d.src in s.clients && Relays(s, p.d.src) {
      assert ClientOk(w, s, p.d.src);
      ServerIs(w, s, p.d.src);
      var upstream := s.setup.children[p.d.src].upstream;
      assert Placed(w.env, s.setup.children, p.d.src);
      assert upstream in s.clients ==> ClientOk(w, s, upstream);
    }
  }

  /** Transparency. In every reachable state after a success: with differing ports everything the client sent is on its
      way up the row, delivered to the destination or lost by the network, whatever else goes on; and while no process of the
      row has taken someone else for its client, the same holds for what the destination sends down. */
  lemma SetUpRowIsTransparent(w: World, s0: State, s: State)
    requires OverlayTraffic.Init(w, s0) && OverlayTraffic.Reaches(w, s0, s) && s.setup.outcome.Success?
    ensures HasPath(w.env, s.setup)
    ensures PortsDiffer(RowOf(w, s)) ==>
              && s.up.sent + s.up.copied == s.up.delivered + Flying(Carries(FromClient), s.net) + s.up.lost
              && forall p :: p in s.net && p.origin.FromClient? ==> Up(RowOf(w, s), p.d)
    ensures Clear(s, RowOf(w, s)) ==>
              && s.down.sent + s.down.copied == s.down.delivered + Flying(Carries(FromDestination), s.net) + s.down.lost
              && forall p :: p in s.net && p.origin.FromDestination? ==> Down(RowOf(w, s), p.d)
  {
    OverlayRow.ReachableInv(w, s0, s);
    RowIsSpine(w, s);
  }

  /** On the row, to have taken someone else for the client is to have a client that is not the place before. */
  lemma FouledOnRow(w: World, s: State, row: seq<Addr>, j: nat)
    requires Spine(w, s, row) && 1 <= j < |row| - 1
    ensures Fouled(w, s, row[j]) <==> !ClearAt(s, row, j)
  {
    assert SpineAt(w, s, row, j);
  }

  // ---- when both ends can be heard

  /** Some run from here on delivers one payload p of the client's to the destination and one payload q back. */
  ghost predicate CanConverse(w: World, s: State, p: Payload, q: Payload) {
    exists s' :: OverlayTraffic.Reaches(w, s, s')
      && s'.up.delivered == Credit(s.up.delivered, p) && s'.down.delivered == Credit(s.down.delivered, q)
  }

  /** What holds along a run from a state with a row. */
  ghost predicate Later(w: World, s: State, row: seq<Addr>, s': State) {
    OverlayRow.Inv(w, s') && Grows(s, s') && OnRow(w, s', row)
  }

  lemma LaterStep(w: World, s: State, row: seq<Addr>, s1: State, a: OverlayTraffic.Action, s2: State)
    requires Later(w, s, row, s1) && OverlayTraffic.Next(w, s1, a, s2)
    ensures Later(w, s, row, s2) && Grows(s1, s2)
  {
    OverlayRow.NextInv(w, s1, a, s2);
    NextTree(w, s1, a, s2);
    OnRowKept(w, s1, row, a, s2);
    GrowsOver(s, s1, s2);
  }

  lemma LaterReach(w: World, s: State, row: seq<Addr>, s': State)
    requires OverlayRow.Inv(w, s) && OnRow(w, s, row) && OverlayTraffic.Reaches(w, s, s')
    ensures Later(w, s, row, s')
  {
    forall a, b | Later(w, s, row, a) && OverlayTraffic.Steps(w)(a, b)
      ensures Later(w, s, row, b)
    {
      var act :| OverlayTraffic.Next(w, a, act, b);
      LaterStep(w, s, row, a, act, b);
    }
    Paths.KeptByReach(OverlayTraffic.Steps(w), x => Later(w, s, row, x), s, s');
  }

  /** Deliveries at both ends are possible only on a clear row with differing ports. */
  lemma HeardAtBothEnds(w: World, s: State, row: seq<Addr>)
    requires OverlayRow.Inv(w, s) && OnRow(w, s, row)
    requires s.up.delivered != multiset{} && s.down.delivered != multiset{}
    ensures PortsDiffer(row) && Clear(s, row)
  {
    forall j | 1 <= j < |row| - 1
      ensures ClearAt(s, row, j)
    {
      assert LinkedAt(s, row, j) || CutAt(w, s, row, j);
    }
    forall j | 1 <= j < |row| - 1
      ensures PortsDifferAt(row, j)
    {
      assert PortsDifferAt(row, j) || StuckAt(s, row, j);
    }
  }

  /** A delivery keeps the row clear. */
  lemma ClearKept(w: World, s: State, row: seq<Addr>, a: OverlayTraffic.Action, s': State)
    requires OverlayRow.Inv(w, s) && OnRow(w, s, row) && OnRow(w, s', row)
    requires OverlayTraffic.Next(w, s, a, s') && !a.Stray? && Clear(s, row)
    ensures Clear(s', row)
  {
    forall j | 1 <= j < |row| - 1
      ensures ClearAt(s', row, j)
    {
      assert ClearAt(s, row, j);
      FouledOnRow(w, s, row, j);
      FouledOnRow(w, s', row, j);
      FouledStep(w, s, a, s', row[j]);
    }
  }

  ghost predicate Usable(w: World, s: State, row: seq<Addr>) {
    OverlayRow.Inv(w, s) && OnRow(w, s, row) && PortsDiffer(row) && Clear(s, row)
  }

  lemma UsableStep(w: World, s: State, row: seq<Addr>, a: OverlayTraffic.Action, s': State)
    requires Usable(w, s, row) && OverlayTraffic.Next(w, s, a, s') && !a.Stray?
    ensures Usable(w, s', row)
  {
    LaterStep(w, s, row, s, a, s');
    ClearKept(w, s, row, a, s');
  }

  lemma OneUp(w: World, s: State, row: seq<Addr>, j: nat, p: Payload) returns (s': State)
    requires Usable(w, s, row) && j < |row| - 2
    requires LastIs(s, Packet(Datagram(row[j], row[j + 1], p), FromClient))
    ensures OverlayTraffic.Steps(w)(s, s') && Usable(w, s', row) && s'.up == s.up && s'.down == s.down
    ensures LastIs(s', Packet(Datagram(row[j + 1], row[j + 2], p), FromClient))
  {
    s' := Delivered(w, s, |s.net| - 1);
    assert OverlayTraffic.Next(w, s, OverlayTraffic.Deliver(|s.net| - 1), s');
    UsableStep(w, s, row, OverlayTraffic.Deliver(|s.net| - 1), s');
    assert PortsDifferAt(row, j + 1);
    DeliveredUp(w, s, row, j, p);
  }

  lemma {:induction false} BringUp(w: World, s: State, row: seq<Addr>, j: nat, p: Payload) returns (s': State)
    requires Usable(w, s, row) && j < |row| - 1
    requires LastIs(s, Packet(Datagram(row[j], row[j + 1], p), FromClient))
    ensures OverlayTraffic.Reaches(w, s, s') && Usable(w, s', row)
    ensures s'.up.delivered == Credit(s.up.delivered, p) && s'.down == s.down && row[|row| - 2] in s'.heard
    decreases |row| - j
  {
    if j < |row| - 2 {
      var s1 := OneUp(w, s, row, j, p);
      s' := BringUp(w, s1, row, j + 1, p);
      Paths.StepThenReach(OverlayTraffic.Steps(w), s, s1, s');
    } else {
      s' := Delivered(w, s, |s.net| - 1);
      assert OverlayTraffic.Next(w, s, OverlayTraffic.Deliver(|s.net| - 1), s');
      UsableStep(w, s, row, OverlayTraffic.Deliver(|s.net| - 1), s');
      Paths.ReachesSelf(OverlayTraffic.Steps(w), s');
      Paths.StepThenReach(OverlayTraffic.Steps(w), s, s', s');
    }
  }

  lemma OneDown(w: World, s: State, row: seq<Addr>, j: nat, p: Payload) returns (s': State)
    requires Usable(w, s, row) && 1 <= j < |row| - 1
    requires LastIs(s, Packet(Datagram(row[j + 1], row[j], p), FromDestination))
    ensures OverlayTraffic.Steps(w)(s, s') && Usable(w, s', row) && s'.up == s.up && s'.down == s.down
    ensures LastIs(s', Packet(Datagram(row[j], row[j - 1], p), FromDestination))
  {
    s' := Delivered(w, s, |s.net| - 1);
    assert OverlayTraffic.Next(w, s, OverlayTraffic.Deliver(|s.net| - 1), s');
    UsableStep(w, s, row, OverlayTraffic.Deliver(|s.net| - 1), s');
    var d := s.net[|s.net| - 1].d;
    assert PacketOk(w, s, d);
    DownFindsClient(w, s, row, d, j);
    assert ClearAt(s, row, j);
    DeliveredDown(w, s, row, j, p);
  }

  lemma {:induction false} BringDown(w: World, s: State, row: seq<Addr>, j: nat, p: Payload) returns (s': State)
    requires Usable(w, s, row) && j < |row| - 1
    requires LastIs(s, Packet(Datagram(row[j + 1], row[j], p), FromDestination))
    ensures OverlayTraffic.Reaches(w, s, s') && s'.up == s.up && s'.down.delivered == Credit(s.down.delivered, p)
    decreases j
  {
    if j > 0 {
      var s1 := OneDown(w, s, row, j, p);
      s' := BringDown(w, s1, row, j - 1, p);
      Paths.StepThenReach(OverlayTraffic.Steps(w), s, s1, s');
    } else {
      s' := Delivered(w, s, |s.net| - 1);
      assert OverlayTraffic.Next(w, s, OverlayTraffic.Deliver(|s.net| - 1), s');
      Paths.ReachesSelf(OverlayTraffic.Steps(w), s');
      Paths.StepThenReach(OverlayTraffic.Steps(w), s, s', s');
    }
  }

  /** Once the destination has heard from the row, its answer can come down. */
  lemma SendDown(w: World, s: State, row: seq<Addr>, p: Payload) returns (s': State)
    requires Usable(w, s, row) && row[|row| - 2] in s.heard
    ensures OverlayTraffic.Reaches(w, s, s') && s'.up == s.up && s'.down.delivered == Credit(s.down.delivered, p)
  {
    var act := OverlayTraffic.DestinationSend(row[|row| - 2], p);
    var s1 := DestinationSent(w, s, row[|row| - 2], p);
    assert OverlayTraffic.Next(w, s, act, s1);
    UsableStep(w, s, row, act, s1);
    s' := BringDown(w, s1, row, |row| - 2, p);
    Paths.StepThenReach(OverlayTraffic.Steps(w), s, s1, s');
  }

  /** On a clear row with differing ports any payload can go up and any answer come down. */
  lemma UsableConverses(w: World, s: State, row: seq<Addr>, p: Payload, q: Payload)
    requires Usable(w, s, row)
    ensures CanConverse(w, s, p, q)
  {
    var steps := OverlayTraffic.Steps(w);
    var s1 := ClientSent(w, s, p);
    assert OverlayTraffic.Next(w, s, OverlayTraffic.ClientSend(p), s1);
    UsableStep(w, s, row, OverlayTraffic.ClientSend(p), s1);
    var s2 := BringUp(w, s1, row, 0, p);
    var s3 := SendDown(w, s2, row, q);
    Paths.ReachTrans(steps, s1, s2, s3);
    Paths.StepThenReach(steps, s, s1, s3);
  }

  /** After a success the two ends can talk, whatever they have to say, exactly when the neighbours of every process in
      the row use different ports and none of these processes has taken someone else for its client. */
  lemma CanConverseIff(w: World, s0: State, s: State, p: Payload, q: Payload)
    requires OverlayTraffic.Init(w, s0) && OverlayTraffic.Reaches(w, s0, s) && s.setup.outcome.Success?
    ensures HasPath(w.env, s.setup)
    ensures CanConverse(w, s, p, q) <==> PortsDiffer(RowOf(w, s)) && Clear(s, RowOf(w, s))
  {
    OverlayRow.ReachableInv(w, s0, s);
    RowIsSpine(w, s);
    var row := RowOf(w, s);
    if CanConverse(w, s, p, q) {
      var s' :| OverlayTraffic.Reaches(w, s, s')
        && s'.up.delivered == Credit(s.up.delivered, p) && s'.down.delivered == Credit(s.down.delivered, q);
      LaterReach(w, s, row, s');
      assert p in s'.up.delivered && q in s'.down.delivered;
      HeardAtBothEnds(w, s', row);
      ClearBefore(s, s', row);
    }
    if PortsDiffer(row) && Clear(s, row) {
      UsableConverses(w, s, row, p, q);
    }
  }

  // ---- answers that come too late

  lemma RunReaches(w: World, run: seq<State>, acts: seq<OverlayTraffic.Action>)
    requires IsRun(w, run, acts)
    ensures OverlayTraffic.Reaches(w, run[0], run[|acts|])
  {
    forall i | 0 <= i < |run| - 1
      ensures OverlayTraffic.Steps(w)(run[i], run[i + 1])
    {
      assert OverlayTraffic.Next(w, run[i], acts[i], run[i + 1]);
    }
    assert Paths.IsPath(OverlayTraffic.Steps(w), run);
  }

  /** No answer reached a process of the final row while that already relayed and had not heard from its client yet. */
  ghost predicate NoStrayCameFirst(w: World, run: seq<State>, acts: seq<OverlayTraffic.Action>)
    requires |run| == |acts| + 1 && HasPath(w.env, run[|acts|].setup)
  {
    var row := RowOf(w, run[|acts|]);
    forall i, j :: 0 <= i < |acts| && 1 <= j < |row| - 1 ==> !StrayComesFirst(run[i], acts[i], row[j])
  }

  /** In terms of what happened: at the end of a run with a successful set-up the two ends can talk exactly when the
      neighbours of every process in the row use different ports, and no answer has ever reached one of these
      processes while it already relayed and had not heard from its client yet. */
  lemma CanConverseIffNoStrayCameFirst(w: World, run: seq<State>, acts: seq<OverlayTraffic.Action>, p: Payload, q: Payload)
    requires IsRun(w, run, acts) && run[|acts|].setup.outcome.Success?
    ensures HasPath(w.env, run[|acts|].setup)
    ensures CanConverse(w, run[|acts|], p, q) <==> PortsDiffer(RowOf(w, run[|acts|])) && NoStrayCameFirst(w, run, acts)
  {
    var s := run[|acts|];
    RunReaches(w, run, acts);
    OverlayRow.ReachableInv(w, run[0], s);
    RowIsSpine(w, s);
    CanConverseIff(w, run[0], s, p, q);
    var row := RowOf(w, s);
    forall j | 1 <= j < |row| - 1
      ensures ClearAt(s, row, j) <==> forall i :: 0 <= i < |acts| ==> !StrayComesFirst(run[i], acts[i], row[j])
    {
      FouledOnRow(w, s, row, j);
      FouledIff(w, run, acts, row[j], |acts|);
    }
  }

  /** It can always happen: as long as a process of the row before the last has not heard from its client, a repeat of the
      answer that made it a relay is enough to end the conversation before it begins. */
  lemma OneRepeatIsEnough(w: World, s0: State, s: State, j: nat) returns (reply: Reply, s': State)
    requires OverlayTraffic.Init(w, s0) && OverlayTraffic.Reaches(w, s0, s) && s.setup.outcome.Success?
    requires 1 <= j < |w.env.route| - 2
    requires HasPath(w.env, s.setup) && |RowOf(w, s)| == |w.env.route| && RowOf(w, s)[j] !in s.clients
    ensures reply.src == RowOf(w, s)[j + 1] && OverlayTraffic.Next(w, s, OverlayTraffic.Stray(reply), s')
    ensures Fouled(w, s', RowOf(w, s)[j]) && forall p, q :: !CanConverse(w, s', p, q)
  {
    OverlayRow.ReachableInv(w, s0, s);
    RowIsSpine(w, s);
    var row := RowOf(w, s);
    var x, y := row[j], row[j + 1];
    assert SpineAt(w, s, row, j) && SpineAt(w, s, row, j + 1);
    assert Answered(s.setup.children, s.setup.replies, y);
    reply := Reply(y, x, PortText(y.port));
    s' := Taken(s, Packet(Datagram(y, x, reply.text), Noise), s.net);
    var act := OverlayTraffic.Stray(reply);
    assert OverlayTraffic.Next(w, s, act, s');
    FouledStep(w, s, act, s', x);
    Paths.ReachThenStep(OverlayTraffic.Steps(w), s0, s, s');
    RowKept(w, s, act, s');
    OverlayRow.ReachableInv(w, s0, s');
    RowIsSpine(w, s');
    FouledOnRow(w, s', row, j);
    forall p, q
      ensures !CanConverse(w, s', p, q)
    {
      CanConverseIff(w, s0, s', p, q);
    }
  }

  /** Once every process of the row has heard from its client, no answer can do any harm. */
  lemma LinkedStaysClear(w: World, s0: State, s: State, s': State, p: Payload, q: Payload)
    requires OverlayTraffic.Init(w, s0) && OverlayTraffic.Reaches(w, s0, s) && OverlayTraffic.Reaches(w, s, s')
    requires HasPath(w.env, s.setup) && PortsDiffer(RowOf(w, s))
    requires forall j :: 1 <= j < |RowOf(w, s)| - 1 ==> LinkedAt(s, RowOf(w, s), j)
    ensures CanConverse(w, s', p, q)
  {
    OverlayRow.ReachableInv(w, s0, s);
    RowIsSpine(w, s);
    var row := RowOf(w, s);
    LaterReach(w, s, row, s');
    forall j | 1 <= j < |row| - 1
      ensures ClearAt(s', row, j)
    {
      assert LinkedAt(s, row, j);
    }
    UsableConverses(w, s', row, p, q);
  }

  // ---- from the very start

  /** A state of the set-up before any traffic. */
  ghost function BeforeTraffic(s: OverlaySetup.State): State {
    State.State(s, map[], [], {}, CLEAN, CLEAN)
  }

  /** No process sits on a socket of the two ends. */
  ghost predicate EndsAreFree(w: World, s: OverlaySetup.State) {
    w.client !in s.children && w.destination !in s.children
  }

  lemma SetUpStepLifts(w: World, a: OverlaySetup.State, b: OverlaySetup.State)
    requires OverlaySetup.Steps(w.env)(a, b) && EndsAreFree(w, b)
    ensures EndsAreFree(w, a) && OverlayTraffic.Steps(w)(BeforeTraffic(a), BeforeTraffic(b))
  {
    var act :| OverlaySetup.Next(w.env, a, act, b);
    NextExtends(w.env, a, act, b);
    assert OverlayTraffic.Next(w, BeforeTraffic(a), SetUp(act), BeforeTraffic(b));
  }

  /** A run of the set-up whose processes do not sit on the two ends' sockets is a run of the set-up with its traffic. */
  lemma SetUpRunLifts(w: World, s: OverlaySetup.State, s': OverlaySetup.State)
    requires OverlaySetup.Reaches(w.env, s, s') && EndsAreFree(w, s')
    ensures OverlayTraffic.Reaches(w, BeforeTraffic(s), BeforeTraffic(s'))
  {
    forall a, b | OverlaySetup.Steps(w.env)(a, b) && EndsAreFree(w, b)
      ensures EndsAreFree(w, a) && OverlayTraffic.Steps(w)(BeforeTraffic(a), BeforeTraffic(b))
    {
      SetUpStepLifts(w, a, b);
    }
    Paths.SimulatedReach(OverlaySetup.Steps(w.env), OverlayTraffic.Steps(w),
                         x => BeforeTraffic(x), x => EndsAreFree(w, x), s, s');
  }

  /** Ports that no process has: the builder's and the two ends'. */
  function Taboo(w: World): set<nat> {
    {w.env.builder.port, w.client.port, w.destination.port}
  }

  /** If each process has the port for the number of its names, then so do the places of the row. */
  lemma PortOfPlace(w: World, s: State, row: seq<Addr>, j: nat)
    requires TreeInv(w, s) && OnRow(w, s, row) && ByLength(s.setup, Taboo(w)) && 1 <= j < |row| - 1
    ensures row[j].port == PortFor(Taboo(w), |row| - j + 1)
  {
    PathIsChain(w.env, s.setup);
    assert row[j] == Path(w.env, s.setup)[j - 1];
    assert |s.setup.children[row[j]].tokens| == |w.env.route| - (j - 1);
  }

  /** In that case all neighbours in the row use different ports. */
  lemma ByLengthPortsDiffer(w: World, s: State, row: seq<Addr>)
    requires TreeInv(w, s) && OnRow(w, s, row) && ByLength(s.setup, Taboo(w))
    requires |row| == 3 ==> w.client.port != w.destination.port
    ensures PortsDiffer(row)
  {
    forall j | 1 <= j < |row| - 1
      ensures PortsDifferAt(row, j)
    {
      if j > 1 {
        PortOfPlace(w, s, row, j - 1);
      }
      if j < |row| - 2 {
        PortOfPlace(w, s, row, j + 1);
      }
      if 1 < j < |row| - 2 {
        PortForRises(Taboo(w), |row| - j, |row| - j + 2);
      }
    }
  }

  /** If everything resolves, some run sets the row up on ports that all differ, before any traffic. */
  lemma CanBeSetUp(w: World, s0: State) returns (s: State)
    requires OverlayTraffic.Init(w, s0) && |w.env.route| + 3 < PORTS && Resolves(w.env.names, w.env.route)
    ensures OverlayTraffic.Reaches(w, s0, s) && s == BeforeTraffic(s.setup)
    ensures s.setup.outcome.Success? && ByLength(s.setup, Taboo(w))
  {
    var t := CanGetAPort(w.env, s0.setup, Taboo(w));
    SetUpRunLifts(w, s0.setup, t);
    s := BeforeTraffic(t);
  }

  /** Some run delivers something at both ends. */
  ghost predicate CanConnect(w: World, s0: State) {
    exists s :: OverlayTraffic.Reaches(w, s0, s) && s.up.delivered != multiset{} && s.down.delivered != multiset{}
  }

  lemma ConnectedMeans(w: World, s0: State)
    requires OverlayTraffic.Init(w, s0) && CanConnect(w, s0)
    ensures Resolves(w.env.names, w.env.route) && (|w.env.route| == 3 ==> w.client.port != w.destination.port)
  {
    var s :| OverlayTraffic.Reaches(w, s0, s) && s.up.delivered != multiset{} && s.down.delivered != multiset{};
    OverlayRow.ReachableInv(w, s0, s);
    assert s.setup.outcome.Success?;
    RowIsSpine(w, s);
    PathIsChain(w.env, s.setup);
    ChainResolves(w.env, s.setup.children, Path(w.env, s.setup));
    HeardAtBothEnds(w, s, RowOf(w, s));
    assert PortsDifferAt(RowOf(w, s), 1);
  }

  lemma ConnectedWhen(w: World, s0: State)
    requires OverlayTraffic.Init(w, s0) && |w.env.route| + 3 < PORTS
    requires Resolves(w.env.names, w.env.route) && (|w.env.route| == 3 ==> w.client.port != w.destination.port)
    ensures CanConnect(w, s0)
  {
    var s := CanBeSetUp(w, s0);
    OverlayRow.ReachableInv(w, s0, s);
    RowIsSpine(w, s);
    ByLengthPortsDiffer(w, s, RowOf(w, s));
    UsableConverses(w, s, RowOf(w, s), [], []);
    ConverseConnects(w, s0, s, [], []);
  }

  lemma ConverseConnects(w: World, s0: State, s: State, p: Payload, q: Payload)
    requires OverlayTraffic.Reaches(w, s0, s) && CanConverse(w, s, p, q)
    ensures CanConnect(w, s0)
  {
    var s' :| OverlayTraffic.Reaches(w, s, s')
      && s'.up.delivered == Credit(s.up.delivered, p) && s'.down.delivered == Credit(s.down.delivered, q);
    Paths.ReachTrans(OverlayTraffic.Steps(w), s0, s, s');
    assert p in s'.up.delivered && q in s'.down.delivered;
  }

  /** From the builder's request to the answer of the destination: a client and a destination can be connected exactly when
      the destination and every router resolve and, if there is but one router, the two ends use different ports. */
  lemma CanConnectIff(w: World, s0: State)
    requires OverlayTraffic.Init(w, s0) && |w.env.route| + 3 < PORTS
    ensures CanConnect(w, s0)
       <==> Resolves(w.env.names, w.env.route) && (|w.env.route| == 3 ==> w.client.port != w.destination.port)
  {
    if CanConnect(w, s0) {
      ConnectedMeans(w, s0);
    }
    if Resolves(w.env.names, w.env.route) && (|w.env.route| == 3 ==> w.client.port != w.destination.port) {
      ConnectedWhen(w, s0);
    }
  }
}
