/** The whole overlay: the set-up with the routers' buffers, and the traffic over the processes it forks. What is proved
    of the row that a success leaves behind carries over, because a success needs a route on which every text is read as
    it was sent. */
module OverlayNetwork {
  import opened Ledgers
  import opened OverlaySetup
  import opened RelayChain
  import opened OverlayTraffic
  import opened OverlayRow
  import Buffers = OverlayBuffers
  import Outcome = OverlayOutcome
  import Paths

  datatype State = Network(t: OverlayTraffic.State, buffers: Buffers.Buffers)

  ghost predicate Init(w: World, n: State) {
    OverlayTraffic.Init(w, n.t)
  }

  ghost predicate Next(w: World, n: State, a: OverlayTraffic.Action, n': State) {
    if a.SetUp? then
      && Buffers.SetUpNext(w.env, n.t.setup, n.buffers, a.a, n'.t.setup, n'.buffers)
      && (a.a.Spawn? ==> Addr(a.a.req.dstHost, a.a.port) != w.client && Addr(a.a.req.dstHost, a.a.port) != w.destination)
      && n'.t == n.t.(setup := n'.t.setup)
    else OverlayTraffic.Next(w, n.t, a, n'.t) && n'.buffers == n.buffers
  }

  ghost function Steps(w: World): (State, State) -> bool {
    (n, n') => exists a :: Next(w, n, a, n')
  }

  ghost predicate Reaches(w: World, n: State, n': State) {
    Paths.Reaches(Steps(w), n, n')
  }

  // ---- a success needs distinct hosts and harmless buffers

  /** The set-up within a state. */
  function SetUpOf(n: State): Buffers.State {
    Buffers.Buffered(n.t.setup, n.buffers)
  }

  /** The set-up within a run is a run of the set-up. */
  lemma SetUpReaches(w: World, n0: State, n: State)
    requires Reaches(w, n0, n)
    ensures Buffers.Reaches(w.env, SetUpOf(n0), SetUpOf(n))
  {
    Paths.ReachesSelf(Buffers.Steps(w.env), SetUpOf(n0));
    forall x, y | Buffers.Reaches(w.env, SetUpOf(n0), SetUpOf(x)) && Steps(w)(x, y)
      ensures Buffers.Reaches(w.env, SetUpOf(n0), SetUpOf(y))
    {
      var act :| Next(w, x, act, y);
      if act.SetUp? {
        assert Buffers.Next(w.env, SetUpOf(x), act.a, SetUpOf(y));
        Paths.ReachThenStep(Buffers.Steps(w.env), SetUpOf(n0), SetUpOf(x), SetUpOf(y));
      } else {
        assert SetUpOf(y) == SetUpOf(x);
      }
    }
    Paths.KeptByReach(Steps(w), x => Buffers.Reaches(w.env, SetUpOf(n0), SetUpOf(x)), n0, n);
  }

  lemma SuccessMeansDistinctHosts(w: World, n0: State, n: State)
    requires Init(w, n0) && Reaches(w, n0, n) && n.t.setup.outcome.Success?
    ensures Resolves(w.env.names, w.env.route) && Buffers.DistinctHosts(w.env)
    ensures Buffers.HarmlessBuffers(w.env, n0.buffers)
  {
    SetUpReaches(w, n0, n);
    Buffers.SuccessMeansDistinctHosts(w.env, SetUpOf(n0), SetUpOf(n));
  }

  // ---- then the network is the one in which texts are read as sent

  ghost predicate AsSent(w: World, n: State) {
    TreeInv(w, n.t) && Buffers.DistinctHosts(w.env) && Buffers.HarmlessBuffers(w.env, n.buffers)
  }

  function After(n: State, a: OverlayTraffic.Action, t': OverlayTraffic.State): State {
    Network(t', if a.SetUp? then Buffers.BuffersAfter(n.buffers, a.a) else n.buffers)
  }

  lemma StepsAgree(w: World, n: State, a: OverlayTraffic.Action, n': State)
    requires AsSent(w, n)
    ensures Next(w, n, a, n') <==> OverlayTraffic.Next(w, n.t, a, n'.t) && n' == After(n, a, n'.t)
    ensures Next(w, n, a, n') ==> AsSent(w, n')
  {
    if a.SetUp? {
      Buffers.StepsAgree(w.env, n.t.setup, n.buffers, a.a, n'.t.setup, n'.buffers);
    }
    if OverlayTraffic.Next(w, n.t, a, n'.t) {
      NextTree(w, n.t, a, n'.t);
    }
  }

  /** Runs forget their buffers. */
  lemma ForgetBuffers(w: World, n0: State, n: State)
    requires AsSent(w, n0) && Reaches(w, n0, n)
    ensures AsSent(w, n) && OverlayTraffic.Reaches(w, n0.t, n.t)
  {
    Paths.ReachesSelf(OverlayTraffic.Steps(w), n0.t);
    forall x, y | AsSent(w, x) && OverlayTraffic.Reaches(w, n0.t, x.t) && Steps(w)(x, y)
      ensures AsSent(w, y) && OverlayTraffic.Reaches(w, n0.t, y.t)
    {
      var act :| Next(w, x, act, y);
      StepsAgree(w, x, act, y);
      assert OverlayTraffic.Next(w, x.t, act, y.t);
      Paths.ReachThenStep(OverlayTraffic.Steps(w), n0.t, x.t, y.t);
    }
    Paths.KeptByReach(Steps(w), x => AsSent(w, x) && OverlayTraffic.Reaches(w, n0.t, x.t), n0, n);
  }

  /** Some run from n0 leads to t. */
  ghost predicate Lifted(w: World, n0: State, t: OverlayTraffic.State) {
    exists n :: Reaches(w, n0, n) && n.t == t && AsSent(w, n)
  }

  lemma LiftedStep(w: World, n0: State, t: OverlayTraffic.State, a: OverlayTraffic.Action, t': OverlayTraffic.State)
    requires Lifted(w, n0, t) && OverlayTraffic.Next(w, t, a, t')
    ensures Lifted(w, n0, t')
  {
    var n :| Reaches(w, n0, n) && n.t == t && AsSent(w, n);
    var n' := After(n, a, t');
    StepsAgree(w, n, a, n');
    Paths.ReachThenStep(Steps(w), n0, n, n');
  }

  /** And every run without them can be run with them. */
  lemma RecallBuffers(w: World, n0: State, t: OverlayTraffic.State)
    requires AsSent(w, n0) && OverlayTraffic.Reaches(w, n0.t, t)
    ensures Lifted(w, n0, t)
  {
    Paths.ReachesSelf(Steps(w), n0);
    forall x, y | Lifted(w, n0, x) && OverlayTraffic.Steps(w)(x, y)
      ensures Lifted(w, n0, y)
    {
      var act :| OverlayTraffic.Next(w, x, act, y);
      LiftedStep(w, n0, x, act, y);
    }
    Paths.KeptByReach(OverlayTraffic.Steps(w), x => Lifted(w, n0, x), n0.t, t);
  }

  lemma InitAsSent(w: World, n0: State)
    requires Init(w, n0) && Buffers.DistinctHosts(w.env) && Buffers.HarmlessBuffers(w.env, n0.buffers)
    ensures AsSent(w, n0)
  {
    InitTree(w, n0.t);
  }

  /** A state after a success is one of the network that reads every text as sent, so all that holds there holds here. */
  lemma SuccessIsAsSent(w: World, n0: State, n: State)
    requires Init(w, n0) && Reaches(w, n0, n) && n.t.setup.outcome.Success?
    ensures Resolves(w.env.names, w.env.route) && AsSent(w, n)
    ensures OverlayTraffic.Init(w, n0.t) && OverlayTraffic.Reaches(w, n0.t, n.t)
  {
    SuccessMeansDistinctHosts(w, n0, n);
    InitAsSent(w, n0);
    ForgetBuffers(w, n0, n);
  }

  // ---- main results

  /** What a success leaves behind, and transparency: see OverlayOutcome for what the parts say. */
  lemma RowIsTransparent(w: World, n0: State, n: State) returns (row: seq<Addr>)
    requires Init(w, n0) && Reaches(w, n0, n) && n.t.setup.outcome.Success?
    ensures Buffers.DistinctHosts(w.env) && HasPath(w.env, n.t.setup) && row == RowOf(w, n.t) && |row| == |w.env.route|
    ensures Row(row) && row[0] == w.client && row[|row| - 1] == w.destination
    ensures forall j :: 1 <= j < |row| - 1 ==>
              && Relays(n.t, row[j]) && Server(n.t, row[j]) == row[j + 1]
              && (row[j] in n.t.clients ==>
                    n.t.clients[row[j]] == row[j - 1] || (j < |row| - 2 && IsChild(n.t, row[j], n.t.clients[row[j]])))
    ensures PortsDiffer(row) ==>
              && n.t.up.sent + n.t.up.copied == n.t.up.delivered + Flying(Carries(FromClient), n.t.net) + n.t.up.lost
              && forall p :: p in n.t.net && p.origin.FromClient? ==> Up(row, p.d)
    ensures Clear(n.t, row) ==>
              && n.t.down.sent + n.t.down.copied == n.t.down.delivered + Flying(Carries(FromDestination), n.t.net) + n.t.down.lost
              && forall p :: p in n.t.net && p.origin.FromDestination? ==> Down(row, p.d)
  {
    SuccessIsAsSent(w, n0, n);
    row := Outcome.WhatIsLeft(w, n0.t, n.t);
    Outcome.SetUpRowIsTransparent(w, n0.t, n.t);
  }

  /** Some run from here on delivers one payload p of the client's to the destination and one payload q back. */
  ghost predicate CanConverse(w: World, n: State, p: Payload, q: Payload) {
    exists n' :: Reaches(w, n, n')
      && n'.t.up.delivered == Credit(n.t.up.delivered, p) && n'.t.down.delivered == Credit(n.t.down.delivered, q)
  }

  lemma ConverseAgrees(w: World, n: State, p: Payload, q: Payload)
    requires AsSent(w, n)
    ensures CanConverse(w, n, p, q) <==> Outcome.CanConverse(w, n.t, p, q)
  {
    if CanConverse(w, n, p, q) {
      var n' :| Reaches(w, n, n')
        && n'.t.up.delivered == Credit(n.t.up.delivered, p) && n'.t.down.delivered == Credit(n.t.down.delivered, q);
      ForgetBuffers(w, n, n');
    }
    if Outcome.CanConverse(w, n.t, p, q) {
      var t' :| OverlayTraffic.Reaches(w, n.t, t')
        && t'.up.delivered == Credit(n.t.up.delivered, p) && t'.down.delivered == Credit(n.t.down.delivered, q);
      RecallBuffers(w, n, t');
      var n' :| Reaches(w, n, n') && n'.t == t' && AsSent(w, n');
    }
  }

  /** After a success the two ends can talk, whatever they have to say, exactly when the neighbours of every process in
      the row use different ports and none of these processes has taken someone else for its client. */
  lemma CanConverseIff(w: World, n0: State, n: State, p: Payload, q: Payload)
    requires Init(w, n0) && Reaches(w, n0, n) && n.t.setup.outcome.Success?
    ensures HasPath(w.env, n.t.setup)
    ensures CanConverse(w, n, p, q) <==> PortsDiffer(RowOf(w, n.t)) && Clear(n.t, RowOf(w, n.t))
  {
    SuccessIsAsSent(w, n0, n);
    ConverseAgrees(w, n, p, q);
    Outcome.CanConverseIff(w, n0.t, n.t, p, q);
  }

  /** A run with the actions that lead from each state to the next. */
  ghost predicate IsRun(w: World, run: seq<State>, acts: seq<OverlayTraffic.Action>) {
    && |run| == |acts| + 1 && Init(w, run[0])
    && forall i :: 0 <= i < |acts| ==> Next(w, run[i], acts[i], run[i + 1])
  }

  function Traffic(run: seq<State>): (ts: seq<OverlayTraffic.State>)
    ensures |ts| == |run| && forall i :: 0 <= i < |run| ==> ts[i] == run[i].t
  {
    seq(|run|, i requires 0 <= i < |run| => run[i].t)
  }

  lemma {:induction false} RunAsSent(w: World, run: seq<State>, acts: seq<OverlayTraffic.Action>, i: nat)
    requires IsRun(w, run, acts) && i < |run|
    requires Buffers.DistinctHosts(w.env) && Buffers.HarmlessBuffers(w.env, run[0].buffers)
    ensures AsSent(w, run[i])
  {
    if i == 0 {
      InitAsSent(w, run[0]);
    } else {
      RunAsSent(w, run, acts, i - 1);
      StepsAgree(w, run[i - 1], acts[i - 1], run[i]);
    }
  }

  lemma RunForgets(w: World, run: seq<State>, acts: seq<OverlayTraffic.Action>)
    requires IsRun(w, run, acts) && Buffers.DistinctHosts(w.env) && Buffers.HarmlessBuffers(w.env, run[0].buffers)
    ensures OverlayTraffic.IsRun(w, Traffic(run), acts)
  {
    forall i | 0 <= i < |acts|
      ensures OverlayTraffic.Next(w, run[i].t, acts[i], run[i + 1].t)
    {
      RunAsSent(w, run, acts, i);
      StepsAgree(w, run[i], acts[i], run[i + 1]);
    }
  }

  lemma RunReaches(w: World, run: seq<State>, acts: seq<OverlayTraffic.Action>)
    requires IsRun(w, run, acts)
    ensures Reaches(w, run[0], run[|acts|])
  {
    forall i | 0 <= i < |run| - 1
      ensures Steps(w)(run[i], run[i + 1])
    {
      assert Next(w, run[i], acts[i], run[i + 1]);
    }
    assert Paths.IsPath(Steps(w), run);
  }

  /** In terms of what happened: at the end of a run with a successful set-up the two ends can talk exactly when the
      neighbours of every process in the row use different ports, and no answer has ever reached one of these
      processes while it already relayed and had not heard from its client yet. */
  lemma CanConverseIffNoStrayCameFirst(w: World, run: seq<State>, acts: seq<OverlayTraffic.Action>, p: Payload, q: Payload)
    requires IsRun(w, run, acts) && run[|acts|].t.setup.outcome.Success?
    ensures HasPath(w.env, run[|acts|].t.setup)
    ensures CanConverse(w, run[|acts|], p, q)
       <==> PortsDiffer(RowOf(w, run[|acts|].t)) && Outcome.NoStrayCameFirst(w, Traffic(run), acts)
  {
    RunReaches(w, run, acts);
    SuccessMeansDistinctHosts(w, run[0], run[|acts|]);
    SuccessIsAsSent(w, run[0], run[|acts|]);
    RunForgets(w, run, acts);
    ConverseAgrees(w, run[|acts|], p, q);
    Outcome.CanConverseIffNoStrayCameFirst(w, Traffic(run), acts, p, q);
  }

  /** As long as a process of the row before the last has not heard from its client, a repeat of the answer that made it a
      relay is enough to end the conversation before it begins. */
  lemma OneRepeatIsEnough(w: World, n0: State, n: State, j: nat) returns (reply: Reply, n': State)
    requires Init(w, n0) && Reaches(w, n0, n) && n.t.setup.outcome.Success?
    requires 1 <= j < |w.env.route| - 2
    requires HasPath(w.env, n.t.setup) && |RowOf(w, n.t)| == |w.env.route| && RowOf(w, n.t)[j] !in n.t.clients
    ensures reply.src == RowOf(w, n.t)[j + 1] && Next(w, n, OverlayTraffic.Stray(reply), n')
    ensures Fouled(w, n'.t, RowOf(w, n.t)[j]) && forall p, q :: !CanConverse(w, n', p, q)
  {
    SuccessIsAsSent(w, n0, n);
    var t': OverlayTraffic.State;
    reply, t' := Outcome.OneRepeatIsEnough(w, n0.t, n.t, j);
    n' := Network(t', n.buffers);
    StepsAgree(w, n, OverlayTraffic.Stray(reply), n');
    forall p, q
      ensures !CanConverse(w, n', p, q)
    {
      ConverseAgrees(w, n', p, q);
    }
  }

  /** Once every process of the row has heard from its client, no answer can do any harm. */
  lemma LinkedStaysClear(w: World, n0: State, n: State, n': State, p: Payload, q: Payload)
    requires Init(w, n0) && Reaches(w, n0, n) && n.t.setup.outcome.Success? && Reaches(w, n, n')
    requires HasPath(w.env, n.t.setup) && PortsDiffer(RowOf(w, n.t))
    requires forall j :: 1 <= j < |RowOf(w, n.t)| - 1 ==> LinkedAt(n.t, RowOf(w, n.t), j)
    ensures CanConverse(w, n', p, q)
  {
    SuccessIsAsSent(w, n0, n);
    ForgetBuffers(w, n, n');
    Outcome.LinkedStaysClear(w, n0.t, n.t, n'.t, p, q);
    ConverseAgrees(w, n', p, q);
  }

  /** Some run delivers something at both ends. */
  ghost predicate CanConnect(w: World, n0: State) {
    exists n :: Reaches(w, n0, n) && n.t.up.delivered != multiset{} && n.t.down.delivered != multiset{}
  }

  /** Nothing is sent over a row before a success. */
  ghost predicate UsedAfterSuccess(n: State) {
    n.t.setup.outcome.Success? || Unused(n.t)
  }

  lemma UsedStep(w: World, n: State, a: OverlayTraffic.Action, n': State)
    requires Next(w, n, a, n') && UsedAfterSuccess(n)
    ensures UsedAfterSuccess(n')
  {
    if !a.SetUp? && !n.t.setup.outcome.Success? {
      UnusedStep(w, n.t, a, n'.t);
    }
  }

  lemma DeliveredMeansSuccess(w: World, n0: State, n: State)
    requires Init(w, n0) && Reaches(w, n0, n) && n.t.up.delivered != multiset{}
    ensures n.t.setup.outcome.Success?
  {
    forall x, y | UsedAfterSuccess(x) && Steps(w)(x, y)
      ensures UsedAfterSuccess(y)
    {
      var act :| Next(w, x, act, y);
      UsedStep(w, x, act, y);
    }
    Paths.KeptByReach(Steps(w), x => UsedAfterSuccess(x), n0, n);
  }

  /** From the builder's request to the answer of the destination, whatever the routers' buffers hold from before: a client
      and a destination can be connected exactly when the destination and every router resolve, no two routers are on one
      host, no buffer holds anything that its router's list could run on into and, if there is but one router, the two ends
      use different ports. */
  lemma CanConnectIff(w: World, n0: State)
    requires Init(w, n0) && |w.env.route| + 3 < PORTS
    ensures CanConnect(w, n0)
       <==> && Resolves(w.env.names, w.env.route) && Buffers.DistinctHosts(w.env)
            && Buffers.HarmlessBuffers(w.env, n0.buffers)
            && (|w.env.route| == 3 ==> w.client.port != w.destination.port)
  {
    if CanConnect(w, n0) {
      var n :| Reaches(w, n0, n) && n.t.up.delivered != multiset{} && n.t.down.delivered != multiset{};
      DeliveredMeansSuccess(w, n0, n);
      SuccessMeansDistinctHosts(w, n0, n);
      SuccessIsAsSent(w, n0, n);
      assert Outcome.CanConnect(w, n0.t);
      Outcome.CanConnectIff(w, n0.t);
    }
    if && Resolves(w.env.names, w.env.route) && Buffers.DistinctHosts(w.env)
       && Buffers.HarmlessBuffers(w.env, n0.buffers)
       && (|w.env.route| == 3 ==> w.client.port != w.destination.port) {
      InitAsSent(w, n0);
      Outcome.CanConnectIff(w, n0.t);
      var t :| OverlayTraffic.Reaches(w, n0.t, t) && t.up.delivered != multiset{} && t.down.delivered != multiset{};
      RecallBuffers(w, n0, t);
    }
  }
}
