/** What holds of a set-up and its traffic whatever the routes and whatever the routers' buffers held before: no message is
    stuck for its receiver, and traffic is never taken for an answer. */
module OverlayMessages {
  import opened Ledgers
  import opened Route
  import opened OverlaySetup
  import opened RelayChain
  import opened OverlayTraffic
  import Paths
  import Buffers = OverlayBuffers
  import Network = OverlayNetwork

  // ---- the set-up

  /** Who sends a request to this host: the builder, or a process with its next router there. */
  ghost predicate Asks(env: Env, children: map<Addr, Child>, src: Addr, host: int)
    requires env.Valid()
  {
    if src == env.builder then Last(env.route) in env.names && host == env.names[Last(env.route)]
    else
      && src in children
      && var ts := children[src].tokens;
         |ts| >= 4 && ts[|ts| - 2] in env.names && host == env.names[ts[|ts| - 2]]
  }

  /** A list names the destination of the route and a router at least. */
  predicate Names3(env: Env, ts: seq<string>)
    requires env.Valid()
  {
    |ts| >= 3 && env.route[..2] <= ts
  }

  /** The address of the destination, or of a process that does not wait. */
  ghost predicate NextHop(env: Env, children: map<Addr, Child>, next: Addr)
    requires env.Valid()
  {
    || (next in children && children[next].mode != Waiting)
    || (env.route[0] in env.names && next == Addr(env.names[env.route[0]], PortOf(AsBytes(env.route[1]))))
  }

  ghost predicate ChildOk(env: Env, children: map<Addr, Child>, a: Addr)
    requires env.Valid() && a in children
  {
    var c := children[a];
    && Names3(env, c.tokens) && Asks(env, children, c.upstream, a.host) && 1 <= a.port < PORTS
    && (c.mode == Waiting ==> |c.tokens| >= 4)
    && (c.mode.Relaying? ==> NextHop(env, children, c.mode.next))
  }

  ghost predicate RequestOk(env: Env, children: map<Addr, Child>, r: Request)
    requires env.Valid()
  {
    Names3(env, Tokens(r.text)) && r.text == Encode(Tokens(r.text)) && Asks(env, children, r.src, r.dstHost)
  }

  ghost predicate ChildrenOk(env: Env, children: map<Addr, Child>)
    requires env.Valid()
  {
    forall a {:trigger ChildOk(env, children, a)} :: a in children ==> ChildOk(env, children, a)
  }

  ghost predicate RequestsOk(env: Env, children: map<Addr, Child>, requests: set<Request>)
    requires env.Valid()
  {
    forall r {:trigger RequestOk(env, children, r)} :: r in requests ==> RequestOk(env, children, r)
  }

  ghost predicate RepliesOk(children: map<Addr, Child>, replies: set<Reply>) {
    forall r {:trigger ReplyOk(children, r)} :: r in replies ==> ReplyOk(children, r)
  }

  ghost predicate Inv(env: Env, s: OverlaySetup.State) {
    && env.Valid() && env.builder !in s.children
    && ChildrenOk(env, s.children) && RequestsOk(env, s.children, s.requests) && RepliesOk(s.children, s.replies)
    && (HasPath(env, s) ==> First(env, s) in s.children && s.children[First(env, s)].mode != Waiting)
  }

  lemma InitInv(env: Env, s: OverlaySetup.State)
    requires OverlaySetup.Init(env, s)
    ensures Inv(env, s)
  {
    forall r | r in s.requests
      ensures RequestOk(env, s.children, r)
    {
      RouteRoundTripIff(env.route);
      assert Tokens(r.text) == env.route;
    }
  }

  lemma ChildKept(env: Env, m: map<Addr, Child>, m': map<Addr, Child>, a: Addr)
    requires env.Valid() && Extends(m, m') && a in m && ChildOk(env, m, a)
    requires m'[a].mode == m[a].mode || m'[a].mode == Gone || (m'[a].mode.Relaying? && NextHop(env, m', m'[a].mode.next))
    ensures ChildOk(env, m', a)
  {
  }

  lemma ChildrenKept(env: Env, m: map<Addr, Child>, at: Addr, c: Child)
    requires env.Valid() && ChildrenOk(env, m) && Extends(m, m[at := c]) && ChildOk(env, m[at := c], at)
    ensures ChildrenOk(env, m[at := c])
  {
    var m' := m[at := c];
    forall a | a in m'
      ensures ChildOk(env, m', a)
    {
      if a != at {
        assert ChildOk(env, m, a);
        ChildKept(env, m, m', a);
      }
    }
  }

  lemma RequestsKept(env: Env, m: map<Addr, Child>, m': map<Addr, Child>, requests: set<Request>, forward: Option<Request>)
    requires env.Valid() && RequestsOk(env, m, requests) && Extends(m, m')
    requires forward.Some? ==> RequestOk(env, m', forward.value)
    ensures RequestsOk(env, m', requests + AsSet(forward))
  {
    forall r | r in requests + AsSet(forward)
      ensures RequestOk(env, m', r)
    {
      assert r in requests ==> RequestOk(env, m, r);
    }
  }

  lemma RepliesKept(m: map<Addr, Child>, m': map<Addr, Child>, replies: set<Reply>, answer: Option<Reply>)
    requires RepliesOk(m, replies) && Extends(m, m') && (answer.Some? ==> ReplyOk(m', answer.value))
    ensures RepliesOk(m', replies + AsSet(answer))
  {
    forall r | r in replies + AsSet(answer)
      ensures ReplyOk(m', r)
    {
      assert r in replies ==> ReplyOk(m, r);
    }
  }

  /** A step that sets one process and sends at most one message of each kind. */
  lemma UpdateInv(env: Env, s: OverlaySetup.State, at: Addr, c: Child, forward: Option<Request>, answer: Option<Reply>,
                  s': OverlaySetup.State)
    requires Inv(env, s) && at != env.builder
    requires s' == s.(children := s.children[at := c],
                      requests := s.requests + AsSet(forward), replies := s.replies + AsSet(answer))
    requires Extends(s.children, s'.children) && ChildOk(env, s'.children, at)
    requires forward.Some? ==> RequestOk(env, s'.children, forward.value)
    requires answer.Some? ==> ReplyOk(s'.children, answer.value)
    ensures Inv(env, s')
  {
    ChildrenKept(env, s.children, at, c);
    RequestsKept(env, s.children, s'.children, s.requests, forward);
    RepliesKept(s.children, s'.children, s.replies, answer);
  }

  /** Whatever is in the buffer, the names sent are read, and more perhaps. */
  lemma ReadNames(env: Env, children: map<Addr, Child>, buffers: Buffers.Buffers, req: Request)
    requires env.Valid() && RequestOk(env, children, req)
    ensures Names3(env, Tokens(Buffers.AsRead(buffers, req).text))
  {
    ReadsOn(Buffers.Buffer(buffers, req.dstHost), Tokens(req.text));
  }

  /** The process forked for three names and more is in order. */
  lemma OpenedOk(env: Env, children: map<Addr, Child>, read: Request, self: Addr)
    requires env.Valid() && Names3(env, Tokens(read.text)) && Asks(env, children, read.src, self.host)
    requires self !in children && self != env.builder && 1 <= self.port < PORTS
    ensures var o := Open(env.names, read, self);
            var m := children[self := o.child];
            ChildOk(env, m, self) && (o.answer.Some? ==> ReplyOk(m, o.answer.value))
  {
    var ts := Tokens(read.text);
    assert ts[0] == env.route[..2][0] && ts[1] == env.route[..2][1];
  }

  /** So is what it sends. */
  lemma ForwardedOk(env: Env, m: map<Addr, Child>, read: Request, self: Addr)
    requires env.Valid() && Names3(env, Tokens(read.text)) && self in m && self != env.builder
    requires m[self].tokens == Tokens(read.text)
    ensures var o := Open(env.names, read, self); o.forward.Some? ==> RequestOk(env, m, o.forward.value)
  {
    var ts := Tokens(read.text);
    ForwardedNames(env.names, read, self);
    assert Front(ts)[..2] == ts[..2];
  }

  lemma SpawnInv(env: Env, b: Buffers.State, req: Request, port: nat, b': Buffers.State)
    requires Inv(env, b.s) && Buffers.Next(env, b, Spawn(req, port), b')
    ensures Inv(env, b'.s)
  {
    assert RequestOk(env, b.s.children, req);
    ReadNames(env, b.s.children, b.buffers, req);
    var read, self := Buffers.AsRead(b.buffers, req), Addr(req.dstHost, port);
    OpenedOk(env, b.s.children, read, self);
    OpenShape(env.names, read, self);
    ForwardedOk(env, b'.s.children, read, self);
    var o := Open(env.names, read, self);
    UpdateInv(env, b.s, self, o.child, o.forward, o.answer, b'.s);
  }

  /** An answer to a process is from one that it has asked, and has a relay listen on the port that it carries. */
  lemma AnswerIsExpected(env: Env, s: OverlaySetup.State, reply: Reply)
    requires Inv(env, s) && reply in s.replies && reply.dst in s.children
    ensures var ts := s.children[reply.dst].tokens;
            && |ts| >= 4 && ts[|ts| - 2] in env.names
            && (reply.text != FAILED ==>
                  NextHop(env, s.children, Addr(env.names[ts[|ts| - 2]], PortOf(reply.text))))
  {
    assert ReplyOk(s.children, reply) && ChildOk(env, s.children, reply.src);
    if reply.text != FAILED {
      PortReadsBack(reply.src.port);
    }
  }

  lemma PortReadsBack(p: nat)
    requires p < PORTS
    ensures PortOf(PortText(p)) == p
  {
    PortRoundTrip(p);
  }

  lemma ResponseInv(env: Env, s: OverlaySetup.State, at: Addr, reply: Reply, s': OverlaySetup.State)
    requires Inv(env, s) && OverlaySetup.Next(env, s, Response(at, reply), s')
    ensures Inv(env, s')
  {
    AnswerIsExpected(env, s, reply);
    HearShape(env.names, s.children[at], at, reply.text);
    var (c, out) := Hear(env.names, s.children[at], at, reply.text);
    assert ChildOk(env, s.children, at);
    HeardOk(env, s, at, reply);
    assert s'.requests == s.requests + AsSet(None);
    UpdateInv(env, s, at, c, None, out, s');
  }

  lemma HeardOk(env: Env, s: OverlaySetup.State, at: Addr, reply: Reply)
    requires Inv(env, s) && at in s.children && s.children[at].mode == Waiting && reply in s.replies && reply.dst == at
    requires |s.children[at].tokens| >= 2 && s.children[at].tokens[|s.children[at].tokens| - 2] in env.names
    ensures var (c, out) := Hear(env.names, s.children[at], at, reply.text);
            ChildOk(env, s.children[at := c], at) && (out.Some? ==> ReplyOk(s.children[at := c], out.value))
  {
    AnswerIsExpected(env, s, reply);
    HearShape(env.names, s.children[at], at, reply.text);
    assert ChildOk(env, s.children, at);
    ChildKept(env, s.children, s.children[at := Hear(env.names, s.children[at], at, reply.text).0], at);
  }

  lemma NextInv(env: Env, b: Buffers.State, a: OverlaySetup.Action, b': Buffers.State)
    requires Inv(env, b.s) && Buffers.Next(env, b, a, b')
    ensures Inv(env, b'.s)
  {
    match a {
      case Spawn(req, port) =>
        SpawnInv(env, b, req, port, b');
      case Response(at, reply) =>
        ResponseInv(env, b.s, at, reply, b'.s);
      case Timeout(at) =>
        var (c, out) := GiveUp(b.s.children[at], at);
        ChildKept(env, b.s.children, b'.s.children, at);
        assert b'.s.requests == b.s.requests + AsSet(None);
        UpdateInv(env, b.s, at, c, None, out, b'.s);
      case BuilderHears(reply) =>
        BuilderHearsInv(env, b.s, reply, b'.s);
    }
  }

  lemma PortIsNoFailure(p: nat)
    requires p < PORTS
    ensures PortText(p) != FAILED
  {
    PortRoundTrip(p);
    FailureIsNoNumber();
  }

  /** Nobody passes a failure on: whatever the buffers hold, each is reported by a process that has timed out, and each
      such process reports one. */
  lemma FailuresAreTimeouts(env: Env, b: Buffers.State, a: OverlaySetup.Action, b': Buffers.State)
    requires Inv(env, b.s) && Buffers.Next(env, b, a, b')
    ensures forall r :: r in b'.s.replies && r !in b.s.replies && r.text == ['A' as int] ==> a == Timeout(r.src)
    ensures a.Timeout? ==> Reply(a.at, b.s.children[a.at].upstream, ['A' as int]) in b'.s.replies
  {
    match a {
      case Spawn(req, port) =>
        var read, self := Buffers.AsRead(b.buffers, req), Addr(req.dstHost, port);
        OpenShape(env.names, read, self);
        PortIsNoFailure(port);
      case Response(at, reply) =>
        AnswerIsNoFailure(env, b.s, at, reply);
      case _ =>
    }
  }

  lemma AnswerIsNoFailure(env: Env, s: OverlaySetup.State, at: Addr, reply: Reply)
    requires Inv(env, s) && at in s.children && s.children[at].mode == Waiting && reply in s.replies && reply.dst == at
    requires |s.children[at].tokens| >= 2 && s.children[at].tokens[|s.children[at].tokens| - 2] in env.names
    ensures var out := Hear(env.names, s.children[at], at, reply.text).1; out.Some? ==> out.value.text != FAILED
  {
    assert ReplyOk(s.children, reply) && ChildOk(env, s.children, at) && ChildOk(env, s.children, reply.src);
    FailureIsNoNumber();
    HearPort(env.names, s.children[at], at, reply.src.port);
    PortIsNoFailure(at.port);
  }

  lemma BuilderHearsInv(env: Env, s: OverlaySetup.State, reply: Reply, s': OverlaySetup.State)
    requires Inv(env, s) && OverlaySetup.Next(env, s, BuilderHears(reply), s')
    ensures Inv(env, s')
  {
    FailureIsNoNumber();
    if HasPath(env, s') {
      assert ReplyOk(s.children, reply) && ChildOk(env, s.children, reply.src);
      PortRoundTrip(reply.src.port);
    }
  }

  lemma ReachableInv(env: Env, b0: Buffers.State, b: Buffers.State)
    requires Buffers.Init(env, b0) && Buffers.Reaches(env, b0, b)
    ensures Inv(env, b.s)
  {
    InitInv(env, b0.s);
    forall x: Buffers.State, y | Inv(env, x.s) && Buffers.Steps(env)(x, y)
      ensures Inv(env, y.s)
    {
      var act :| Buffers.Next(env, x, act, y);
      NextInv(env, x, act, y);
    }
    Paths.KeptByReach(Buffers.Steps(env), (x: Buffers.State) => Inv(env, x.s), b0, b);
  }

  /** No message is ever stuck for its receiver, whatever the buffers hold: every request reads as a destination and a router
      at least, and an answer to a process finds its next router resolved. */
  lemma MessagesCanBeTaken(env: Env, b0: Buffers.State, b: Buffers.State)
    requires Buffers.Init(env, b0) && Buffers.Reaches(env, b0, b)
    ensures forall r :: r in b.s.requests ==> |Tokens(Buffers.AsRead(b.buffers, r).text)| >= 3
    ensures forall r :: r in b.s.replies && r.dst in b.s.children ==>
              var ts := b.s.children[r.dst].tokens; |ts| >= 4 && ts[|ts| - 2] in env.names
  {
    ReachableInv(env, b0, b);
    forall r | r in b.s.requests
      ensures |Tokens(Buffers.AsRead(b.buffers, r).text)| >= 3
    {
      assert RequestOk(env, b.s.children, r);
      ReadNames(env, b.s.children, b.buffers, r);
    }
    forall r | r in b.s.replies && r.dst in b.s.children
      ensures var ts := b.s.children[r.dst].tokens; |ts| >= 4 && ts[|ts| - 2] in env.names
    {
      AnswerIsExpected(env, b.s, r);
    }
  }

  // ---- the traffic

  /** One of the two ends, or a process that does not wait. */
  ghost predicate Hears(w: World, children: map<Addr, Child>, a: Addr) {
    a == w.client || a == w.destination || (a in children && children[a].mode != Waiting)
  }

  ghost predicate TrafficInv(w: World, t: OverlayTraffic.State) {
    && w.Valid() && Inv(w.env, t.setup)
    && (forall x :: x in t.clients ==> Hears(w, t.setup.children, t.clients[x]))
    && (forall x :: x in t.heard ==> Hears(w, t.setup.children, x))
    && (forall p :: p in t.net ==> Hears(w, t.setup.children, p.d.src) && Hears(w, t.setup.children, p.d.dst))
  }

  lemma ServerHears(w: World, t: OverlayTraffic.State, x: Addr)
    requires TrafficInv(w, t) && Relays(t, x)
    ensures Hears(w, t.setup.children, Server(t, x))
  {
    assert ChildOk(w.env, t.setup.children, x);
  }

  /** A relaying process that takes a packet from one who hears learns and sends to such only. */
  lemma TakenInv(w: World, t: OverlayTraffic.State, p: Packet, rest: seq<Packet>)
    requires TrafficInv(w, t) && Relays(t, p.d.dst) && Hears(w, t.setup.children, p.d.src)
    requires forall q :: q in rest ==> q in t.net
    ensures TrafficInv(w, Taken(t, p, rest))
  {
    ServerHears(w, t, p.d.dst);
    var x := p.d.dst;
    var (r, to) := OnDatagram(RelayOf(t, x), p.d.src);
    assert r.client.Some? && Hears(w, t.setup.children, r.client.value);
    assert to.Some? ==> Hears(w, t.setup.children, to.value);
  }

  lemma SetUpStep(w: World, t: OverlayTraffic.State, t': OverlayTraffic.State)
    requires TrafficInv(w, t) && Inv(w.env, t'.setup) && Extends(t.setup.children, t'.setup.children)
    requires t' == t.(setup := t'.setup)
    ensures TrafficInv(w, t')
  {
    forall a | Hears(w, t.setup.children, a)
      ensures Hears(w, t'.setup.children, a)
    {
    }
  }

  lemma TrafficStep(w: World, t: OverlayTraffic.State, a: OverlayTraffic.Action, t': OverlayTraffic.State)
    requires TrafficInv(w, t) && !a.SetUp? && OverlayTraffic.Next(w, t, a, t')
    ensures TrafficInv(w, t')
  {
    match a {
      case Stray(reply) =>
        assert ReplyOk(t.setup.children, reply);
        TakenInv(w, t, Packet(Datagram(reply.src, reply.dst, reply.text), Noise), t.net);
      case Deliver(i) =>
        DeliverStep(w, t, i);
      case _ =>
    }
  }

  lemma DeliverStep(w: World, t: OverlayTraffic.State, i: nat)
    requires TrafficInv(w, t) && i < |t.net|
    ensures TrafficInv(w, Delivered(w, t, i))
  {
    var p := t.net[i];
    assert p in t.net;
    if p.d.dst != w.client && p.d.dst != w.destination && Relays(t, p.d.dst) {
      TakenInv(w, t, p, Without(t.net, i));
    }
  }

  lemma NetworkStep(w: World, n: Network.State, a: OverlayTraffic.Action, n': Network.State)
    requires TrafficInv(w, n.t) && Network.Next(w, n, a, n')
    ensures TrafficInv(w, n'.t)
  {
    if a.SetUp? {
      var b, b' := Network.SetUpOf(n), Network.SetUpOf(n');
      NextInv(w.env, b, a.a, b');
      SetUpExtends(w.env, b, a.a, b');
      SetUpStep(w, n.t, n'.t);
    } else {
      TrafficStep(w, n.t, a, n'.t);
    }
  }

  lemma SetUpExtends(env: Env, b: Buffers.State, a: OverlaySetup.Action, b': Buffers.State)
    requires Buffers.Next(env, b, a, b')
    ensures Extends(b.s.children, b'.s.children)
  {
  }

  /** Traffic is never taken for an answer: whatever the buffers hold, every packet on its way is for one of the two ends,
      for a process that relays, or for one that has left. */
  lemma TrafficFindsNoWaitingProcess(w: World, n0: Network.State, n: Network.State, p: Packet)
    requires Network.Init(w, n0) && Network.Reaches(w, n0, n) && p in n.t.net
    ensures || p.d.dst == w.client || p.d.dst == w.destination
            || (p.d.dst in n.t.setup.children && n.t.setup.children[p.d.dst].mode != Waiting)
  {
    InitInv(w.env, n0.t.setup);
    forall x: Network.State, y | TrafficInv(w, x.t) && Network.Steps(w)(x, y)
      ensures TrafficInv(w, y.t)
    {
      var act :| Network.Next(w, x, act, y);
      NetworkStep(w, x, act, y);
    }
    Paths.KeptByReach(Network.Steps(w), (x: Network.State) => TrafficInv(w, x.t), n0, n);
    assert Hears(w, n.t.setup.children, p.d.dst);
  }
}
