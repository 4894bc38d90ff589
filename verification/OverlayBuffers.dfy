/** The set-up with the routers' receive buffers: a router reads what a request leaves in its buffer, which need not be
    what was sent. Which routes can be set up then. */
module OverlayBuffers {
  import opened Route
  import opened OverlaySetup
  import Paths

  /** What the overlay router of each host has in its buffer; before its first request that is empty or left from before. */
  type Buffers = map<int, string>

  datatype State = Buffered(s: OverlaySetup.State, buffers: Buffers)

  function Buffer(buffers: Buffers, host: int): string {
    if host in buffers then buffers[host] else ""
  }

  /** A request as the router reads it. */
  function AsRead(buffers: Buffers, req: Request): Request {
    req.(text := Received(Buffer(buffers, req.dstHost), req.text))
  }

  ghost predicate Init(env: Env, b: State) {
    OverlaySetup.Init(env, b.s)
  }

  ghost predicate SetUpNext(env: Env, s: OverlaySetup.State, buffers: Buffers, a: OverlaySetup.Action,
                            s': OverlaySetup.State, buffers': Buffers)
  {
    if a.Spawn? then
      && a.req in s.requests && Forked(env, s, AsRead(buffers, a.req), a.port, s')
      && buffers' == buffers[a.req.dstHost := AsRead(buffers, a.req).text]
    else OverlaySetup.Next(env, s, a, s') && buffers' == buffers
  }

  ghost predicate Next(env: Env, b: State, a: OverlaySetup.Action, b': State) {
    SetUpNext(env, b.s, b.buffers, a, b'.s, b'.buffers)
  }

  ghost function Steps(env: Env): (State, State) -> bool {
    (b, b') => exists a :: Next(env, b, a, b')
  }

  ghost predicate Reaches(env: Env, b: State, b': State) {
    Paths.Reaches(Steps(env), b, b')
  }

  // ---- lists and hosts

  /** The first m names of the route end with a router that resolves. */
  predicate Leads(env: Env, m: int) {
    3 <= m <= |env.route| && env.route[m - 1] in env.names
  }

  /** The host of that router. */
  function HostOf(env: Env, m: nat): int
    requires Leads(env, m)
  {
    env.names[env.route[m - 1]]
  }

  /** The length, at most m, of the longest list whose last router is on this host; 0 if there is none. */
  function LongestUpTo(env: Env, host: int, m: nat): (n: nat)
    requires m <= |env.route|
    ensures n <= m
  {
    if m == 0 then 0
    else if Leads(env, m) && HostOf(env, m) == host then m
    else LongestUpTo(env, host, m - 1)
  }

  function Longest(env: Env, host: int): nat {
    LongestUpTo(env, host, |env.route|)
  }

  lemma {:induction false} LongestAtLeast(env: Env, host: int, m: nat, k: nat)
    requires k <= m <= |env.route| && Leads(env, k) && HostOf(env, k) == host
    ensures var n := LongestUpTo(env, host, m);
            k <= n && Leads(env, n) && HostOf(env, n) == host
  {
    if k < m {
      LongestAtLeast(env, host, m - 1, k);
    }
  }

  /** A list that ends on a host is no longer than the longest one. */
  lemma LongestIs(env: Env, m: nat)
    requires Leads(env, m)
    ensures m <= Longest(env, HostOf(env, m)) <= |env.route|
    ensures Leads(env, Longest(env, HostOf(env, m))) && HostOf(env, Longest(env, HostOf(env, m))) == HostOf(env, m)
  {
    LongestAtLeast(env, HostOf(env, m), |env.route|, m);
  }

  /** No two routers of the route are on one host. */
  ghost predicate DistinctHosts(env: Env) {
    forall i, j :: 2 <= i < j < |env.route| && env.route[i] in env.names && env.route[j] in env.names ==>
      env.names[env.route[i]] != env.names[env.route[j]]
  }

  lemma DistinctLongest(env: Env, m: nat)
    requires DistinctHosts(env) && Leads(env, m)
    ensures Longest(env, HostOf(env, m)) == m
  {
    LongestIs(env, m);
  }

  // ---- buffers

  /** No router's buffer holds anything that its first list could run on into. */
  ghost predicate HarmlessBuffers(env: Env, buffers: Buffers) {
    forall m {:trigger HarmlessAt(env, buffers, m)} :: Leads(env, m) && Longest(env, HostOf(env, m)) == m ==>
      HarmlessAt(env, buffers, m)
  }

  predicate HarmlessAt(env: Env, buffers: Buffers, m: nat)
    requires Leads(env, m)
  {
    Harmless(Buffer(buffers, HostOf(env, m)), Encode(env.route[..m]))
  }

  /** Buffers that are empty are harmless. */
  lemma EmptyIsHarmless(env: Env)
    ensures HarmlessBuffers(env, map[])
  {
  }

  /** The router that the first m names lead to holds the longest list for its host. */
  ghost predicate Filled(env: Env, buffers: Buffers, m: nat)
    requires Leads(env, m)
  {
    LongestIs(env, m);
    Holds(Buffer(buffers, HostOf(env, m)), env.route[..Longest(env, HostOf(env, m))])
  }

  /** So do all that longer lists lead to. */
  ghost predicate FilledAbove(env: Env, buffers: Buffers, m: nat) {
    forall k {:trigger Leads(env, k)} :: m < k <= |env.route| ==> Leads(env, k) && Filled(env, buffers, k)
  }

  /** Buffers that were filled stay so. */
  ghost predicate StayFilled(env: Env, buffers: Buffers, buffers': Buffers) {
    forall k {:trigger Leads(env, k)} :: Leads(env, k) && Filled(env, buffers, k) ==> Filled(env, buffers', k)
  }

  /** What a request for the first m names reads as: the longest list for the host. */
  lemma ReadsTheLongest(env: Env, buffers: Buffers, m: nat)
    requires env.Valid() && HarmlessBuffers(env, buffers) && Leads(env, m) && FilledAbove(env, buffers, m)
    ensures var read := Received(Buffer(buffers, HostOf(env, m)), Encode(env.route[..m]));
            Longest(env, HostOf(env, m)) <= |env.route| && Holds(read, env.route[..Longest(env, HostOf(env, m))])
  {
    LongestIs(env, m);
    var n, buffer := Longest(env, HostOf(env, m)), Buffer(buffers, HostOf(env, m));
    if n == m {
      assert HarmlessAt(env, buffers, m);
      FirstVisitHolds(buffer, env.route[..m]);
    } else {
      assert Leads(env, n) && Filled(env, buffers, n);
      assert env.route[..n][..m] == env.route[..m];
      SecondVisitReadsTheFirstList(buffer, env.route[..n], m);
    }
  }

  /** A buffer that holds the longest list for its host takes the place of the one before. */
  lemma HoldingIsHarmless(env: Env, buffers: Buffers, m: nat, read: string)
    requires env.Valid() && HarmlessBuffers(env, buffers) && Leads(env, m)
    requires Longest(env, HostOf(env, m)) <= |env.route| && Holds(read, env.route[..Longest(env, HostOf(env, m))])
    ensures HarmlessBuffers(env, buffers[HostOf(env, m) := read])
    ensures StayFilled(env, buffers, buffers[HostOf(env, m) := read])
    ensures Filled(env, buffers[HostOf(env, m) := read], m)
  {
    var h, buffers' := HostOf(env, m), buffers[HostOf(env, m) := read];
    LongestIs(env, m);
    forall k | Leads(env, k) && Longest(env, HostOf(env, k)) == k
      ensures HarmlessAt(env, buffers', k)
    {
      if HostOf(env, k) == h {
        HoldsIsHarmless(read, env.route[..k]);
      } else {
        assert HarmlessAt(env, buffers, k);
      }
    }
  }

  /** After a request is read the buffers are as full as before, and this one is filled. */
  lemma ReadingFills(env: Env, buffers: Buffers, m: nat, read: string)
    requires env.Valid() && HarmlessBuffers(env, buffers) && Leads(env, m) && FilledAbove(env, buffers, m)
    requires read == Received(Buffer(buffers, HostOf(env, m)), Encode(env.route[..m]))
    ensures var buffers' := buffers[HostOf(env, m) := read];
            HarmlessBuffers(env, buffers') && StayFilled(env, buffers, buffers') && FilledAbove(env, buffers', m - 1)
  {
    ReadsTheLongest(env, buffers, m);
    HoldingIsHarmless(env, buffers, m, read);
    FilledOneMore(env, buffers, buffers[HostOf(env, m) := read], m);
  }

  lemma FilledOneMore(env: Env, buffers: Buffers, buffers': Buffers, m: nat)
    requires Leads(env, m) && FilledAbove(env, buffers, m) && StayFilled(env, buffers, buffers') && Filled(env, buffers', m)
    ensures FilledAbove(env, buffers', m - 1)
  {
    forall k | m - 1 < k <= |env.route|
      ensures Leads(env, k) && Filled(env, buffers', k)
    {
      assert k > m ==> Leads(env, k) && Filled(env, buffers, k);
    }
  }

  lemma HoldsIsHarmless(buffer: string, ts: seq<string>)
    requires AllClean(ts) && Holds(buffer, ts)
    ensures Harmless(buffer, Encode(ts))
  {
    ReadsAsSentIff(buffer, ts);
    assert Received(buffer, Encode(ts)) == buffer;
  }

  // ---- what every run keeps

  /** The way from the router of a list of m names leads, host by host, to a list of three in n hops. */
  ghost predicate Grounded(env: Env, m: int, n: nat)
    decreases n
  {
    if n == 0 then m == 3 && |env.route| >= 3 && env.route[0] in env.names
    else m >= 4 && Leads(env, m - 1) && Grounded(env, Longest(env, HostOf(env, m - 1)), n - 1)
  }

  ghost predicate IsGrounded(env: Env, m: int) {
    exists n: nat :: Grounded(env, m, n)
  }

  /** The host that a process sends its request to, or the builder its own. */
  ghost predicate SentTo(env: Env, children: map<Addr, Child>, src: Addr, host: int) {
    if src == env.builder then Leads(env, |env.route|) && host == HostOf(env, |env.route|)
    else && src in children && |children[src].tokens| >= 4
         && Leads(env, |children[src].tokens| - 1) && host == HostOf(env, |children[src].tokens| - 1)
  }

  /** A process holds as many names as the longest list for its host, and a relaying one is grounded. */
  ghost predicate ChildOk(env: Env, children: map<Addr, Child>, a: Addr)
    requires a in children
  {
    var m := |children[a].tokens|;
    && Leads(env, m)
    && a.host == HostOf(env, m) && m == Longest(env, a.host)
    && SentTo(env, children, children[a].upstream, a.host)
    && (children[a].mode.Relaying? ==> IsGrounded(env, m))
  }

  ghost predicate RequestIs(env: Env, b: State, r: Request)
    requires env.Valid()
  {
    var m := |Tokens(r.text)|;
    && Leads(env, m) && r.text == Encode(env.route[..m]) && r.dstHost == HostOf(env, m)
    && FilledAbove(env, b.buffers, m) && SentTo(env, b.s.children, r.src, r.dstHost)
  }

  ghost predicate ReplyIs(children: map<Addr, Child>, r: Reply) {
    && r.src in children && children[r.src].upstream == r.dst
    && (r.text == FAILED || children[r.src].mode.Relaying?)
  }

  ghost predicate ChildrenOk(env: Env, children: map<Addr, Child>, buffers: Buffers) {
    forall a {:trigger ChildOk(env, children, a)} :: a in children ==>
      ChildOk(env, children, a) && FilledAbove(env, buffers, |children[a].tokens| - 1)
  }

  ghost predicate RequestsAre(env: Env, b: State, requests: set<Request>)
    requires env.Valid()
  {
    forall r {:trigger RequestIs(env, b, r)} :: r in requests ==> RequestIs(env, b, r)
  }

  ghost predicate RepliesAre(children: map<Addr, Child>, replies: set<Reply>) {
    forall r {:trigger ReplyIs(children, r)} :: r in replies ==> ReplyIs(children, r)
  }

  ghost predicate Inv(env: Env, b: State) {
    && env.Valid()
    && HarmlessBuffers(env, b.buffers)
    && env.builder !in b.s.children
    && ChildrenOk(env, b.s.children, b.buffers)
    && RequestsAre(env, b, b.s.requests)
    && RepliesAre(b.s.children, b.s.replies)
    && (b.s.outcome.Success? ==> Leads(env, |env.route|) && IsGrounded(env, |env.route|))
  }

  lemma InitInv(env: Env, b: State)
    requires Init(env, b) && HarmlessBuffers(env, b.buffers)
    ensures Inv(env, b)
  {
    RouteRoundTripIff(env.route);
    assert env.route[..|env.route|] == env.route;
  }

  lemma FilledAboveKept(env: Env, buffers: Buffers, buffers': Buffers, m: int)
    requires StayFilled(env, buffers, buffers') && m >= 0 && FilledAbove(env, buffers, m)
    ensures FilledAbove(env, buffers', m)
  {
    forall k | m < k <= |env.route|
      ensures Leads(env, k) && Filled(env, buffers', k)
    {
      assert Leads(env, k) && Filled(env, buffers, k);
    }
  }

  lemma ChildKept(env: Env, m: map<Addr, Child>, m': map<Addr, Child>, a: Addr)
    requires Extends(m, m') && a in m && ChildOk(env, m, a) && (m'[a].mode.Relaying? ==> m[a].mode.Relaying?)
    ensures ChildOk(env, m', a)
  {
  }

  lemma ChildrenKept(env: Env, b: State, at: Addr, c: Child, buffers': Buffers)
    requires ChildrenOk(env, b.s.children, b.buffers) && Extends(b.s.children, b.s.children[at := c])
    requires StayFilled(env, b.buffers, buffers')
    requires ChildOk(env, b.s.children[at := c], at) && FilledAbove(env, buffers', |c.tokens| - 1)
    ensures ChildrenOk(env, b.s.children[at := c], buffers')
  {
    var m := b.s.children[at := c];
    forall a | a in m && a != at
      ensures ChildOk(env, m, a) && FilledAbove(env, buffers', |m[a].tokens| - 1)
    {
      OneChildKept(env, b, m, a, buffers');
    }
    assert m[at] == c;
  }

  lemma OneChildKept(env: Env, b: State, m: map<Addr, Child>, a: Addr, buffers': Buffers)
    requires ChildrenOk(env, b.s.children, b.buffers) && Extends(b.s.children, m) && StayFilled(env, b.buffers, buffers')
    requires a in b.s.children && m[a] == b.s.children[a]
    ensures ChildOk(env, m, a) && FilledAbove(env, buffers', |m[a].tokens| - 1)
  {
    assert ChildOk(env, b.s.children, a);
    ChildKept(env, b.s.children, m, a);
    FilledAboveKept(env, b.buffers, buffers', |m[a].tokens| - 1);
  }

  lemma RequestsKept(env: Env, b: State, forward: Option<Request>, b': State)
    requires env.Valid() && RequestsAre(env, b, b.s.requests)
    requires Extends(b.s.children, b'.s.children) && StayFilled(env, b.buffers, b'.buffers)
    requires forward.Some? ==> RequestIs(env, b', forward.value)
    ensures RequestsAre(env, b', b.s.requests + AsSet(forward))
  {
    forall r | r in b.s.requests + AsSet(forward)
      ensures RequestIs(env, b', r)
    {
      if r in b.s.requests {
        OneRequestKept(env, b, r, b');
      }
    }
  }

  lemma OneRequestKept(env: Env, b: State, r: Request, b': State)
    requires env.Valid() && RequestsAre(env, b, b.s.requests) && r in b.s.requests
    requires Extends(b.s.children, b'.s.children) && StayFilled(env, b.buffers, b'.buffers)
    ensures RequestIs(env, b', r)
  {
    assert RequestIs(env, b, r);
    FilledAboveKept(env, b.buffers, b'.buffers, |Tokens(r.text)|);
  }

  lemma RepliesKept(b: State, m': map<Addr, Child>, answer: Option<Reply>)
    requires RepliesAre(b.s.children, b.s.replies) && Extends(b.s.children, m')
    requires answer.Some? ==> ReplyIs(m', answer.value)
    ensures RepliesAre(m', b.s.replies + AsSet(answer))
  {
    forall r | r in b.s.replies + AsSet(answer)
      ensures ReplyIs(m', r)
    {
      if r in b.s.replies {
        assert ReplyIs(b.s.children, r);
      }
    }
  }

  /** A step that sets one process, fills buffers and sends at most one message of each kind. */
  lemma UpdateInv(env: Env, b: State, at: Addr, c: Child, forward: Option<Request>, answer: Option<Reply>, b': State)
    requires Inv(env, b) && at != env.builder
    requires b'.s == b.s.(children := b.s.children[at := c],
                          requests := b.s.requests + AsSet(forward), replies := b.s.replies + AsSet(answer))
    requires Extends(b.s.children, b'.s.children)
    requires HarmlessBuffers(env, b'.buffers) && StayFilled(env, b.buffers, b'.buffers)
    requires ChildOk(env, b'.s.children, at) && FilledAbove(env, b'.buffers, |c.tokens| - 1)
    requires forward.Some? ==> RequestIs(env, b', forward.value)
    requires answer.Some? ==> ReplyIs(b'.s.children, answer.value)
    ensures Inv(env, b')
  {
    ChildrenKept(env, b, at, c, b'.buffers);
    RequestsKept(env, b, forward, b');
    RepliesKept(b, b'.s.children, answer);
  }

  /** The process forked for what is read holds the longest list. */
  lemma OpenedIsOk(env: Env, children: map<Addr, Child>, read: Request, n: nat, self: Addr)
    requires env.Valid() && self !in children && self != env.builder && Leads(env, n)
    requires Tokens(read.text) == env.route[..n] && self.host == HostOf(env, n) && n == Longest(env, self.host)
    requires SentTo(env, children, read.src, self.host)
    ensures var o := Open(env.names, read, self);
            var m := children[self := o.child];
            && |o.child.tokens| == n && ChildOk(env, m, self)
            && (o.answer.Some? ==> ReplyIs(m, o.answer.value))
  {
    OpenShape(env.names, read, self);
    var c := Open(env.names, read, self).child;
    if c.mode.Relaying? {
      ThreeAreGrounded(env);
    }
    SetIsOk(env, children, self, c);
  }

  lemma ThreeAreGrounded(env: Env)
    requires env.Valid() && env.route[..3][0] in env.names
    ensures IsGrounded(env, 3)
  {
    assert Grounded(env, 3, 0);
  }

  lemma SetIsOk(env: Env, children: map<Addr, Child>, self: Addr, c: Child)
    requires self !in children && Leads(env, |c.tokens|) && self.host == HostOf(env, |c.tokens|)
    requires |c.tokens| == Longest(env, self.host) && SentTo(env, children, c.upstream, self.host)
    requires c.mode.Relaying? ==> IsGrounded(env, |c.tokens|)
    ensures ChildOk(env, children[self := c], self)
  {
  }

  lemma ShorterText(env: Env, n: nat)
    requires env.Valid() && 3 < n <= |env.route|
    ensures Front(env.route[..n]) == env.route[..n - 1] && env.route[..n][n - 2] == env.route[n - 2]
  {
  }

  /** What it forwards is that list less the last name, to the router before. */
  lemma ForwardText(env: Env, read: Request, n: nat, self: Addr)
    requires env.Valid() && Leads(env, n) && Tokens(read.text) == env.route[..n]
    ensures var o := Open(env.names, read, self);
            o.forward.Some? ==>
              n > 3 && Leads(env, n - 1) && o.forward.value == Request(self, HostOf(env, n - 1), Encode(env.route[..n - 1]))
  {
    if n > 3 {
      ShorterText(env, n);
    }
  }

  lemma RequestForPrefix(env: Env, b: State, src: Addr, m: nat)
    requires env.Valid() && Leads(env, m) && FilledAbove(env, b.buffers, m) && SentTo(env, b.s.children, src, HostOf(env, m))
    ensures RequestIs(env, b, Request(src, HostOf(env, m), Encode(env.route[..m])))
  {
    RouteRoundTripIff(env.route[..m]);
  }

  /** A request in order reads as the longest list for its host, and leaves the buffers in order. */
  lemma RequestRead(env: Env, b: State, req: Request)
    requires Inv(env, b) && req in b.s.requests
    ensures var read := AsRead(b.buffers, req);
            var n := Longest(env, req.dstHost);
            var buffers' := b.buffers[req.dstHost := read.text];
            && Leads(env, n) && HostOf(env, n) == req.dstHost && Tokens(read.text) == env.route[..n]
            && SentTo(env, b.s.children, req.src, req.dstHost)
            && HarmlessBuffers(env, buffers') && StayFilled(env, b.buffers, buffers') && FilledAbove(env, buffers', n - 1)
  {
    assert RequestIs(env, b, req);
    var m := |Tokens(req.text)|;
    var read := AsRead(b.buffers, req);
    ReadsTheLongest(env, b.buffers, m);
    ReadingFills(env, b.buffers, m, read.text);
    LongestIs(env, m);
    FilledLess(env, b.buffers[req.dstHost := read.text], m - 1, Longest(env, req.dstHost) - 1);
  }

  lemma ForwardedIs(env: Env, b': State, read: Request, n: nat, self: Addr)
    requires env.Valid() && Leads(env, n) && Tokens(read.text) == env.route[..n] && self != env.builder
    requires FilledAbove(env, b'.buffers, n - 1)
    requires self in b'.s.children && |b'.s.children[self].tokens| == n
    ensures var o := Open(env.names, read, self); o.forward.Some? ==> RequestIs(env, b', o.forward.value)
  {
    ForwardText(env, read, n, self);
    if n > 3 && Leads(env, n - 1) {
      RequestForPrefix(env, b', self, n - 1);
    }
  }

  /** What is forked for a request in order, and what it sends, is in order. */
  lemma SpawnedIsOk(env: Env, b: State, req: Request, port: nat, b': State)
    requires Inv(env, b) && Next(env, b, Spawn(req, port), b')
    ensures var (read, self) := (AsRead(b.buffers, req), Addr(req.dstHost, port));
            var o := Open(env.names, read, self);
            && ChildOk(env, b'.s.children, self) && FilledAbove(env, b'.buffers, |o.child.tokens| - 1)
            && HarmlessBuffers(env, b'.buffers) && StayFilled(env, b.buffers, b'.buffers)
            && (o.forward.Some? ==> RequestIs(env, b', o.forward.value))
            && (o.answer.Some? ==> ReplyIs(b'.s.children, o.answer.value))
  {
    RequestRead(env, b, req);
    var read, self, n := AsRead(b.buffers, req), Addr(req.dstHost, port), Longest(env, req.dstHost);
    OpenedIsOk(env, b.s.children, read, n, self);
    ForwardedIs(env, b', read, n, self);
  }

  lemma SpawnInv(env: Env, b: State, req: Request, port: nat, b': State)
    requires Inv(env, b) && Next(env, b, Spawn(req, port), b')
    ensures Inv(env, b')
  {
    SpawnedIsOk(env, b, req, port, b');
    var self := Addr(req.dstHost, port);
    var o := Open(env.names, AsRead(b.buffers, req), self);
    UpdateInv(env, b, self, o.child, o.forward, o.answer, b');
  }

  lemma FilledLess(env: Env, buffers: Buffers, m: nat, n: nat)
    requires FilledAbove(env, buffers, m) && m <= n
    ensures FilledAbove(env, buffers, n)
  {
  }

  /** Who answers a process holds the longest list for the host that the process sent its request to. */
  lemma AnswererHolds(env: Env, b: State, at: Addr, src: Addr)
    requires Inv(env, b) && at in b.s.children && src in b.s.children && b.s.children[src].upstream == at
    ensures var m := |b.s.children[at].tokens|;
            m >= 4 && Leads(env, m - 1) && |b.s.children[src].tokens| == Longest(env, HostOf(env, m - 1))
  {
    assert ChildOk(env, b.s.children, src) && ChildOk(env, b.s.children, at);
  }

  /** A process that accepts an answer is grounded. */
  lemma HearIsGrounded(env: Env, b: State, at: Addr, reply: Reply)
    requires Inv(env, b) && at in b.s.children && reply in b.s.replies && reply.dst == at && reply.text != FAILED
    ensures IsGrounded(env, |b.s.children[at].tokens|)
  {
    assert ReplyIs(b.s.children, reply);
    AnswererHolds(env, b, at, reply.src);
    assert ChildOk(env, b.s.children, reply.src);
    var n: nat :| Grounded(env, |b.s.children[reply.src].tokens|, n);
    assert Grounded(env, |b.s.children[at].tokens|, n + 1);
  }

  lemma ModeSet(env: Env, children: map<Addr, Child>, at: Addr, mode: Mode)
    requires at in children && ChildOk(env, children, at)
    requires mode.Relaying? ==> IsGrounded(env, |children[at].tokens|)
    ensures ChildOk(env, children[at := children[at].(mode := mode)], at)
  {
  }

  /** A process that hears an answer stays in order, and so is what it answers itself. */
  lemma HeardIsOk(env: Env, b: State, at: Addr, reply: Reply)
    requires Inv(env, b) && at in b.s.children && b.s.children[at].mode == Waiting && reply in b.s.replies && reply.dst == at
    requires |b.s.children[at].tokens| >= 2 && b.s.children[at].tokens[|b.s.children[at].tokens| - 2] in env.names
    ensures var (c, out) := Hear(env.names, b.s.children[at], at, reply.text);
            && c == b.s.children[at].(mode := c.mode)
            && ChildOk(env, b.s.children[at := c], at)
            && (out.Some? ==> ReplyIs(b.s.children[at := c], out.value))
  {
    HearShape(env.names, b.s.children[at], at, reply.text);
    assert ChildOk(env, b.s.children, at);
    if reply.text != FAILED {
      HearIsGrounded(env, b, at, reply);
    }
    ModeSet(env, b.s.children, at, Hear(env.names, b.s.children[at], at, reply.text).0.mode);
  }

  lemma ResponseInv(env: Env, b: State, at: Addr, reply: Reply, b': State)
    requires Inv(env, b) && Next(env, b, Response(at, reply), b')
    ensures Inv(env, b')
  {
    HeardIsOk(env, b, at, reply);
    var (c, out) := Hear(env.names, b.s.children[at], at, reply.text);
    assert ChildOk(env, b.s.children, at);
    assert b'.s.requests == b.s.requests + AsSet(None);
    UpdateInv(env, b, at, c, None, out, b');
  }

  lemma TimeoutInv(env: Env, b: State, at: Addr, b': State)
    requires Inv(env, b) && Next(env, b, Timeout(at), b')
    ensures Inv(env, b')
  {
    var (c, out) := GiveUp(b.s.children[at], at);
    assert ChildOk(env, b.s.children, at);
    ModeSet(env, b.s.children, at, Gone);
    assert b'.s.requests == b.s.requests + AsSet(None);
    UpdateInv(env, b, at, c, None, out, b');
  }

  lemma BuilderHearsInv(env: Env, b: State, reply: Reply, b': State)
    requires Inv(env, b) && Next(env, b, BuilderHears(reply), b')
    ensures Inv(env, b')
  {
    FailureIsNoNumber();
    assert ReplyIs(b.s.children, reply);
    assert ChildOk(env, b.s.children, reply.src);
    LongestIs(env, |env.route|);
    RequestsKept(env, b, None, b');
  }

  lemma NextInv(env: Env, b: State, a: OverlaySetup.Action, b': State)
    requires Inv(env, b) && Next(env, b, a, b')
    ensures Inv(env, b')
  {
    match a
    case Spawn(req, port) => SpawnInv(env, b, req, port, b');
    case Response(at, reply) => ResponseInv(env, b, at, reply, b');
    case Timeout(at) => TimeoutInv(env, b, at, b');
    case BuilderHears(reply) => BuilderHearsInv(env, b, reply, b');
  }

  lemma ReachableInv(env: Env, b0: State, b: State)
    requires Init(env, b0) && HarmlessBuffers(env, b0.buffers) && Reaches(env, b0, b)
    ensures Inv(env, b)
  {
    InitInv(env, b0);
    forall x, y | Inv(env, x) && Steps(env)(x, y)
      ensures Inv(env, y)
    {
      var act :| Next(env, x, act, y);
      NextInv(env, x, act, y);
    }
    Paths.KeptByReach(Steps(env), x => Inv(env, x), b0, b);
  }

  // ---- a success needs harmless buffers

  /** No process has got past the router of the first m names: every request carries these at least, every process holds
      more, what follows them on that router's host is still there, and nothing but failures has been answered. */
  ghost predicate Stuck(env: Env, m: nat, b: State) {
    && env.Valid() && Leads(env, m) && !HarmlessAt(env, b.buffers, m)
    && (forall r {:trigger AsksFor(env, m, r)} :: r in b.s.requests ==> AsksFor(env, m, r))
    && (forall a :: a in b.s.children ==> HoldsMore(env, m, b.s.children[a]))
    && (forall r :: r in b.s.replies ==> r.text == FAILED)
    && !b.s.outcome.Success?
  }

  ghost predicate AsksFor(env: Env, m: nat, r: Request)
    requires Leads(env, m)
  {
    var ts := Tokens(r.text);
    env.route[..m] <= ts && r.text == Encode(ts) && Last(ts) in env.names && r.dstHost == env.names[Last(ts)]
  }

  ghost predicate HoldsMore(env: Env, m: nat, c: Child)
    requires Leads(env, m)
  {
    env.route[..m] <= c.tokens && |c.tokens| > m && !c.mode.Relaying?
  }

  lemma InitStuck(env: Env, m: nat, b: State)
    requires Init(env, b) && Leads(env, m) && !HarmlessAt(env, b.buffers, m)
    ensures Stuck(env, m, b)
  {
    RouteRoundTripIff(env.route);
  }

  /** The router reads more than m names, and leaves as many behind. */
  lemma StuckReads(env: Env, m: nat, buffers: Buffers, req: Request)
    requires env.Valid() && Leads(env, m) && !HarmlessAt(env, buffers, m) && AsksFor(env, m, req)
    ensures var read := AsRead(buffers, req).text;
            env.route[..m] <= Tokens(read) && |Tokens(read)| > m && !HarmlessAt(env, buffers[req.dstHost := read], m)
  {
    var ts := Tokens(req.text);
    PrefixTaken(env.route[..m], ts);
    StuckAtLast(env, m, buffers, req);
    NamesStayBehind(Buffer(buffers, req.dstHost), ts, m);
    StaysHarmful(env, m, buffers, req.dstHost, AsRead(buffers, req).text);
  }

  lemma StuckAtLast(env: Env, m: nat, buffers: Buffers, req: Request)
    requires env.Valid() && Leads(env, m) && !HarmlessAt(env, buffers, m) && AsksFor(env, m, req)
    ensures m == |Tokens(req.text)| ==> !Harmless(Buffer(buffers, req.dstHost), Encode(Tokens(req.text)))
  {
    PrefixTaken(env.route[..m], Tokens(req.text));
    assert m == |Tokens(req.text)| ==> Last(Tokens(req.text)) == env.route[m - 1];
  }

  lemma PrefixTaken(p: seq<string>, ts: seq<string>)
    requires p <= ts
    ensures ts[..|p|] == p
    ensures |p| == |ts| ==> ts == p
  {
  }

  lemma StaysHarmful(env: Env, m: nat, buffers: Buffers, host: int, read: string)
    requires Leads(env, m) && !HarmlessAt(env, buffers, m) && !Harmless(read, Encode(env.route[..m]))
    ensures !HarmlessAt(env, buffers[host := read], m)
  {
  }

  /** The process forked for that waits, and asks for at least m names again. */
  lemma StuckOpens(env: Env, m: nat, read: Request, self: Addr)
    requires env.Valid() && Leads(env, m) && env.route[..m] <= Tokens(read.text) && |Tokens(read.text)| > m
    ensures var o := Open(env.names, read, self);
            && HoldsMore(env, m, o.child) && o.answer == None
            && (o.forward.Some? ==> AsksFor(env, m, o.forward.value))
  {
    ForwardedNames(env.names, read, self);
    FrontKeeps(env.route[..m], Tokens(read.text));
  }

  lemma FrontKeeps(p: seq<string>, ts: seq<string>)
    requires p <= ts && |p| < |ts| && |ts| >= 2
    ensures p <= Front(ts) && Last(Front(ts)) == ts[|ts| - 2]
  {
  }

  lemma StuckSpawns(env: Env, m: nat, b: State, req: Request, port: nat, b': State)
    requires Stuck(env, m, b) && Next(env, b, Spawn(req, port), b')
    ensures Stuck(env, m, b')
  {
    assert AsksFor(env, m, req);
    StuckReads(env, m, b.buffers, req);
    StuckOpens(env, m, AsRead(b.buffers, req), Addr(req.dstHost, port));
  }

  lemma StuckStep(env: Env, m: nat, b: State, a: OverlaySetup.Action, b': State)
    requires Stuck(env, m, b) && Next(env, b, a, b')
    ensures Stuck(env, m, b')
  {
    match a {
      case Spawn(req, port) =>
        StuckSpawns(env, m, b, req, port, b');
      case Response(at, reply) =>
        HearShape(env.names, b.s.children[at], at, reply.text);
      case Timeout(at) =>
      case BuilderHears(reply) =>
        FailureIsNoNumber();
    }
  }

  /** The builder gets a port only if no router's buffer holds anything that its list could run on into. */
  lemma SuccessMeansHarmlessBuffers(env: Env, b0: State, b: State)
    requires Init(env, b0) && Reaches(env, b0, b) && b.s.outcome.Success?
    ensures HarmlessBuffers(env, b0.buffers)
  {
    forall m | Leads(env, m)
      ensures HarmlessAt(env, b0.buffers, m)
    {
      if !HarmlessAt(env, b0.buffers, m) {
        StuckForEver(env, m, b0, b);
        assert false;
      }
    }
  }

  lemma StuckForEver(env: Env, m: nat, b0: State, b: State)
    requires Init(env, b0) && Reaches(env, b0, b) && Leads(env, m) && !HarmlessAt(env, b0.buffers, m)
    ensures Stuck(env, m, b)
  {
    InitStuck(env, m, b0);
    forall x, y | Stuck(env, m, x) && Steps(env)(x, y)
      ensures Stuck(env, m, y)
    {
      var act :| Next(env, x, act, y);
      StuckStep(env, m, x, act, y);
    }
    Paths.KeptByReach(Steps(env), x => Stuck(env, m, x), b0, b);
  }

  // ---- a success needs distinct hosts

  /** A list is grounded in one number of hops only. */
  lemma {:induction false} GroundedOnce(env: Env, m: int, n: nat, n': nat)
    requires Grounded(env, m, n) && Grounded(env, m, n')
    ensures n == n'
    decreases n
  {
    if n > 0 && n' > 0 {
      GroundedOnce(env, Longest(env, HostOf(env, m - 1)), n - 1, n' - 1);
    }
  }

  /** Lists of m names and more are the longest for their hosts. */
  ghost predicate DownTo(env: Env, m: nat) {
    forall k {:trigger Leads(env, k)} :: m <= k <= |env.route| ==> Leads(env, k) && Longest(env, HostOf(env, k)) == k
  }

  lemma OneDown(env: Env, m: nat)
    requires Leads(env, m) && Longest(env, HostOf(env, m)) == m && (m < |env.route| ==> DownTo(env, m + 1))
    ensures DownTo(env, m)
  {
    forall k | m <= k <= |env.route|
      ensures Leads(env, k) && Longest(env, HostOf(env, k)) == k
    {
      assert k > m ==> Leads(env, k);
    }
  }

  lemma NextHop(env: Env, m: nat, n: nat)
    requires m >= 3 && Grounded(env, m + 1, n)
    ensures n > 0 && Leads(env, m) && Grounded(env, Longest(env, HostOf(env, m)), n - 1)
  {
  }

  /** From the list of m + 1 names the way goes to that of m: one to a longer list would come by here again. */
  lemma NotBack(env: Env, n: nat, m: nat)
    requires 3 <= m < |env.route| && |env.route| - (m + 1) <= n
    requires Grounded(env, m + 1, n - (|env.route| - (m + 1))) && Leads(env, m)
    requires var x := Longest(env, HostOf(env, m));
             x > m ==> |env.route| - x <= n && Grounded(env, x, n - (|env.route| - x))
    ensures Longest(env, HostOf(env, m)) == m && |env.route| - m <= n && Grounded(env, m, n - (|env.route| - m))
  {
    var rest, x := n - (|env.route| - (m + 1)), Longest(env, HostOf(env, m));
    NextHop(env, m, rest);
    LongestIs(env, m);
    if x > m {
      GroundedOnce(env, x, rest - 1, n - (|env.route| - x));
      assert false;
    }
  }

  /** If the whole route is grounded, then the way goes down it name by name. */
  lemma {:induction false} GoesDown(env: Env, n: nat, m: nat)
    requires Grounded(env, |env.route|, n) && 3 <= m <= |env.route| && Leads(env, |env.route|)
    ensures |env.route| - m <= n && Grounded(env, m, n - (|env.route| - m)) && DownTo(env, m)
    decreases |env.route| - m
  {
    if m < |env.route| {
      GoesDown(env, n, m + 1);
      NextHop(env, m, n - (|env.route| - (m + 1)));
      if Longest(env, HostOf(env, m)) > m {
        GoesDown(env, n, Longest(env, HostOf(env, m)));
      }
      NotBack(env, n, m);
    } else {
      LongestIs(env, m);
    }
    OneDown(env, m);
  }

  /** The builder gets a port only if everything resolves, no two routers are on one host and their buffers are harmless
      to begin with. */
  lemma SuccessMeansDistinctHosts(env: Env, b0: State, b: State)
    requires Init(env, b0) && Reaches(env, b0, b) && b.s.outcome.Success?
    ensures Resolves(env.names, env.route) && DistinctHosts(env) && HarmlessBuffers(env, b0.buffers)
  {
    SuccessMeansHarmlessBuffers(env, b0, b);
    ReachableInv(env, b0, b);
    var n: nat :| Grounded(env, |env.route|, n);
    GoesDown(env, n, 3);
    forall i | 0 <= i < |env.route| && i != 1
      ensures env.route[i] in env.names
    {
      if i >= 2 {
        assert Leads(env, i + 1);
      }
    }
    forall i, j | 2 <= i < j < |env.route|
      ensures env.names[env.route[i]] != env.names[env.route[j]]
    {
      assert Leads(env, i + 1) && Leads(env, j + 1);
    }
  }

  // ---- with distinct hosts every text is read as it was sent

  lemma RequestLeads(env: Env, s: OverlaySetup.State, req: Request)
    requires OverlaySetup.Inv(env, s) && req in s.requests
    ensures var m := |Tokens(req.text)|;
            && Leads(env, m) && req.dstHost == HostOf(env, m)
            && Tokens(req.text) == env.route[..m] && req.text == Encode(env.route[..m])
  {
    assert RequestOk(env, s.children, req);
    var m := |Tokens(req.text)|;
    assert Tokens(req.text) == env.route[..m] && Last(Tokens(req.text)) == env.route[m - 1];
  }

  /** A request in order reads as sent, and leaves harmless buffers. */
  lemma ReadAsSent(env: Env, s: OverlaySetup.State, buffers: Buffers, req: Request)
    requires OverlaySetup.Inv(env, s) && DistinctHosts(env) && HarmlessBuffers(env, buffers) && req in s.requests
    ensures Tokens(AsRead(buffers, req).text) == Tokens(req.text)
    ensures HarmlessBuffers(env, buffers[req.dstHost := AsRead(buffers, req).text])
  {
    RequestLeads(env, s, req);
    ReadOfPrefix(env, buffers, |Tokens(req.text)|);
    HarmlessReplaced(env, buffers, |Tokens(req.text)|, AsRead(buffers, req).text);
  }

  lemma ReadOfPrefix(env: Env, buffers: Buffers, m: nat)
    requires env.Valid() && DistinctHosts(env) && HarmlessBuffers(env, buffers) && Leads(env, m)
    ensures var read := Received(Buffer(buffers, HostOf(env, m)), Encode(env.route[..m]));
            Tokens(read) == env.route[..m] && Harmless(read, Encode(env.route[..m]))
  {
    DistinctLongest(env, m);
    assert HarmlessAt(env, buffers, m);
    FirstVisitHolds(Buffer(buffers, HostOf(env, m)), env.route[..m]);
    HoldsIsHarmless(Received(Buffer(buffers, HostOf(env, m)), Encode(env.route[..m])), env.route[..m]);
  }

  lemma HarmlessReplaced(env: Env, buffers: Buffers, m: nat, read: string)
    requires DistinctHosts(env) && HarmlessBuffers(env, buffers) && Leads(env, m) && Harmless(read, Encode(env.route[..m]))
    ensures HarmlessBuffers(env, buffers[HostOf(env, m) := read])
  {
    var buffers' := buffers[HostOf(env, m) := read];
    forall k | Leads(env, k) && Longest(env, HostOf(env, k)) == k
      ensures HarmlessAt(env, buffers', k)
    {
      if HostOf(env, k) == HostOf(env, m) {
        DistinctLongest(env, m);
      } else {
        assert HarmlessAt(env, buffers, k);
      }
    }
  }

  /** What is forked depends on the names read only. */
  lemma ForkedForNames(env: Env, s: OverlaySetup.State, req: Request, read: Request, port: nat, s': OverlaySetup.State)
    requires read == req.(text := read.text) && Tokens(read.text) == Tokens(req.text)
    ensures Forked(env, s, read, port, s') <==> Forked(env, s, req, port, s')
  {
    if |Tokens(req.text)| >= 2 {
      OpenForNames(env.names, req, read, Addr(req.dstHost, port));
    }
  }

  lemma OpenForNames(names: Names, req: Request, read: Request, self: Addr)
    requires read == req.(text := read.text) && Tokens(read.text) == Tokens(req.text) && |Tokens(req.text)| >= 2
    ensures Open(names, read, self) == Open(names, req, self)
  {
  }

  /** The buffers after a step. */
  function BuffersAfter(buffers: Buffers, a: OverlaySetup.Action): Buffers {
    if a.Spawn? then buffers[a.req.dstHost := AsRead(buffers, a.req).text] else buffers
  }

  /** With distinct hosts and harmless buffers the steps are those of the system that reads every text as sent. */
  lemma StepsAgree(env: Env, s: OverlaySetup.State, buffers: Buffers, a: OverlaySetup.Action, s': OverlaySetup.State,
                   buffers': Buffers)
    requires OverlaySetup.Inv(env, s) && DistinctHosts(env) && HarmlessBuffers(env, buffers)
    ensures SetUpNext(env, s, buffers, a, s', buffers') <==>
              OverlaySetup.Next(env, s, a, s') && buffers' == BuffersAfter(buffers, a)
    ensures OverlaySetup.Next(env, s, a, s') ==> HarmlessBuffers(env, BuffersAfter(buffers, a))
  {
    if a.Spawn? && a.req in s.requests {
      ReadAsSent(env, s, buffers, a.req);
      ForkedForNames(env, s, a.req, AsRead(buffers, a.req), a.port, s');
    }
  }

  // ---- when every text is read as it was sent

  /** In no run does a router ever read other names than it was sent. */
  ghost predicate AllReadAsSent(env: Env, b0: State) {
    forall b, r {:trigger ReadRight(b, r)} :: Reaches(env, b0, b) && r in b.s.requests ==> ReadRight(b, r)
  }

  /** A request that would be read as it was sent. */
  predicate ReadRight(b: State, r: Request) {
    Tokens(AsRead(b.buffers, r).text) == Tokens(r.text)
  }

  ghost predicate AsSentSoFar(env: Env, b: State) {
    OverlaySetup.Inv(env, b.s) && DistinctHosts(env) && HarmlessBuffers(env, b.buffers)
  }

  lemma DistinctReadAsSent(env: Env, b0: State)
    requires Init(env, b0) && DistinctHosts(env) && HarmlessBuffers(env, b0.buffers)
    ensures AllReadAsSent(env, b0)
  {
    OverlaySetup.InitInv(env, b0.s);
    forall x, y | AsSentSoFar(env, x) && Steps(env)(x, y)
      ensures AsSentSoFar(env, y)
    {
      var act :| Next(env, x, act, y);
      StepsAgree(env, x.s, x.buffers, act, y.s, y.buffers);
      OverlaySetup.NextInv(env, x.s, act, y.s);
    }
    forall b, r | Reaches(env, b0, b) && r in b.s.requests
      ensures ReadRight(b, r)
    {
      Paths.KeptByReach(Steps(env), x => AsSentSoFar(env, x), b0, b);
      ReadAsSent(env, b.s, b.buffers, r);
    }
  }

  /** No list of more than m names leads to this host. */
  ghost predicate NewHost(env: Env, m: int, host: int) {
    forall k {:trigger Leads(env, k)} :: m < k && Leads(env, k) ==> HostOf(env, k) != host
  }

  /** The host of the list of m names is new after those of longer lists, and its buffer harmless to begin with. */
  ghost predicate NewAndHarmless(env: Env, b0: State, m: nat)
    requires Leads(env, m)
  {
    HarmlessAt(env, b0.buffers, m) && NewHost(env, m, HostOf(env, m))
  }

  /** A buffer holds the first k names. */
  ghost function HoldsFirst(env: Env): (string, nat) -> bool {
    (buffer: string, k: nat) => k <= |env.route| && Holds(buffer, env.route[..k])
  }

  /** The routers of lists of more than m names hold these, and no other buffer has changed. */
  ghost predicate BuffersAre(env: Env, held: (string, nat) -> bool, start: Buffers, buffers: Buffers, m: nat) {
    && (forall k {:trigger Leads(env, k)} :: m < k && Leads(env, k) ==> held(Buffer(buffers, HostOf(env, k)), k))
    && forall h {:trigger NewHost(env, m, h)} :: NewHost(env, m, h) ==> Buffer(buffers, h) == Buffer(start, h)
  }

  function RequestFor(env: Env, src: Addr, m: nat): Request
    requires Leads(env, m)
  {
    Request(src, HostOf(env, m), Encode(env.route[..m]))
  }

  /** The request for the first m names is on its way, and everything so far was done for longer lists. */
  ghost predicate DownAt(env: Env, held: (string, nat) -> bool, start: Buffers, b: State, src: Addr, m: nat)
    requires Leads(env, m)
  {
    && RequestFor(env, src, m) in b.s.requests
    && ByLength(b.s, {env.builder.port}) && RoomBelow(b.s, m)
    && BuffersAre(env, held, start, b.buffers, m)
  }

  lemma HeldReadsLonger(env: Env, buffer: string, m: nat, k: nat)
    requires env.Valid() && m < k <= |env.route| && Holds(buffer, env.route[..k])
    ensures Tokens(Received(buffer, Encode(env.route[..m]))) != env.route[..m]
  {
    assert env.route[..k][..m] == env.route[..m];
    SecondVisitReadsTheFirstList(buffer, env.route[..k], m);
  }

  lemma ReadOnNewHost(env: Env, b0: State, buffers: Buffers, m: nat)
    requires env.Valid() && Leads(env, m) && BuffersAre(env, HoldsFirst(env), b0.buffers, buffers, m)
    requires Tokens(Received(Buffer(buffers, HostOf(env, m)), Encode(env.route[..m]))) == env.route[..m]
    ensures NewHost(env, m, HostOf(env, m))
  {
    forall k | m < k && Leads(env, k)
      ensures HostOf(env, k) != HostOf(env, m)
    {
      if HostOf(env, k) == HostOf(env, m) {
        HeldReadsLonger(env, Buffer(buffers, HostOf(env, k)), m, k);
        assert false;
      }
    }
  }

  /** If the text for the first m names is read as sent, then its router is new and was harmless. */
  lemma ReadHere(env: Env, b0: State, buffers: Buffers, m: nat)
    requires env.Valid() && Leads(env, m) && BuffersAre(env, HoldsFirst(env), b0.buffers, buffers, m)
    requires Tokens(Received(Buffer(buffers, HostOf(env, m)), Encode(env.route[..m]))) == env.route[..m]
    ensures NewAndHarmless(env, b0, m)
  {
    ReadOnNewHost(env, b0, buffers, m);
    ReadsAsSentIff(Buffer(buffers, HostOf(env, m)), env.route[..m]);
    assert NewHost(env, m, HostOf(env, m));
  }

  /** The process forked for the first m + 1 names sends the next request. */
  lemma ForkHere(env: Env, b: State, req: Request, read: Request, m: nat) returns (src': Addr, b': State)
    requires env.Valid() && m + 2 < PORTS && Leads(env, m) && Leads(env, m + 1)
    requires req in b.s.requests && read == AsRead(b.buffers, req) && Tokens(read.text) == env.route[..m + 1]
    requires ByLength(b.s, {env.builder.port}) && RoomBelow(b.s, m + 1)
    ensures Steps(env)(b, b') && RequestFor(env, src', m) in b'.s.requests
    ensures ByLength(b'.s, {env.builder.port}) && RoomBelow(b'.s, m)
    ensures b'.buffers == b.buffers[req.dstHost := read.text]
  {
    src' := Addr(req.dstHost, PortFor({env.builder.port}, m + 1));
    PortIsFree(env, b.s, src', m + 1);
    var s' := ForkNext(env, b.s, read, src', m);
    b' := Served(env, b, req, src'.port, s');
  }

  lemma Served(env: Env, b: State, req: Request, port: nat, s': OverlaySetup.State) returns (b': State)
    requires req in b.s.requests && Forked(env, b.s, AsRead(b.buffers, req), port, s')
    ensures Steps(env)(b, b') && b' == Buffered(s', b.buffers[req.dstHost := AsRead(b.buffers, req).text])
  {
    b' := Buffered(s', b.buffers[req.dstHost := AsRead(b.buffers, req).text]);
    assert Next(env, b, Spawn(req, port), b');
  }

  /** Reading the first m + 1 names forks a process that asks for the first m. */
  lemma ForkNext(env: Env, s: OverlaySetup.State, read: Request, self: Addr, m: nat) returns (s': OverlaySetup.State)
    requires env.Valid() && m + 2 < PORTS && Leads(env, m) && Leads(env, m + 1)
    requires Tokens(read.text) == env.route[..m + 1]
    requires self == Addr(read.dstHost, PortFor({env.builder.port}, m + 1)) && self !in s.children && self != env.builder
    requires ByLength(s, {env.builder.port}) && RoomBelow(s, m + 1)
    ensures Forked(env, s, read, self.port, s') && RequestFor(env, self, m) in s'.requests
    ensures ByLength(s', {env.builder.port}) && RoomBelow(s', m)
  {
    var o := Open(env.names, read, self);
    s' := s.(children := s.children[self := o.child], requests := s.requests + AsSet(o.forward),
             replies := s.replies + AsSet(o.answer));
    OpenShape(env.names, read, self);
    ForwardsNext(env, read, self, m);
    LengthsKept(s, {env.builder.port}, self, o.child, s', m);
  }

  lemma LengthsKept(s: OverlaySetup.State, avoid: set<nat>, self: Addr, c: Child, s': OverlaySetup.State, m: nat)
    requires ByLength(s, avoid) && RoomBelow(s, m + 1)
    requires s'.children == s.children[self := c] && |c.tokens| == m + 1 && self.port == PortFor(avoid, m + 1)
    ensures ByLength(s', avoid) && RoomBelow(s', m)
  {
  }

  lemma ForwardsNext(env: Env, read: Request, self: Addr, m: nat)
    requires env.Valid() && Leads(env, m) && Leads(env, m + 1) && Tokens(read.text) == env.route[..m + 1]
    ensures Open(env.names, read, self).forward == Some(RequestFor(env, self, m))
  {
    ShorterText(env, m + 1);
  }

  lemma PortIsFree(env: Env, s: OverlaySetup.State, self: Addr, m: nat)
    requires ByLength(s, {env.builder.port}) && RoomBelow(s, m) && self.port == PortFor({env.builder.port}, m)
    ensures self !in s.children && self != env.builder
  {
    if self in s.children {
      PortForRises({env.builder.port}, m, |s.children[self].tokens|);
      assert false;
    }
  }

  /** The next router takes its list into its buffer. */
  lemma OneMoreHeld(env: Env, held: (string, nat) -> bool, start: Buffers, buffers: Buffers, m: nat, read: string)
    requires Leads(env, m + 1) && NewHost(env, m + 1, HostOf(env, m + 1)) && held(read, m + 1)
    requires BuffersAre(env, held, start, buffers, m + 1)
    ensures BuffersAre(env, held, start, buffers[HostOf(env, m + 1) := read], m)
  {
    var buffers' := buffers[HostOf(env, m + 1) := read];
    forall k | m < k && Leads(env, k)
      ensures held(Buffer(buffers', HostOf(env, k)), k)
    {
      if k > m + 1 {
        assert HostOf(env, k) != HostOf(env, m + 1);
      }
    }
    forall h | NewHost(env, m, h)
      ensures Buffer(buffers', h) == Buffer(start, h)
    {
      assert h != HostOf(env, m + 1) && NewHost(env, m + 1, h);
    }
  }

  /** The request for m names can be sent. */
  ghost predicate CanGetTo(env: Env, held: (string, nat) -> bool, b0: State, m: nat) {
    Leads(env, m) && exists src, b :: Reaches(env, b0, b) && DownAt(env, held, b0.buffers, b, src, m)
  }

  /** On the way down every request is read as it was sent. */
  ghost predicate ReadsDown(env: Env, b0: State) {
    forall b, src, m: nat {:trigger ReadRight(b, RequestFor(env, src, m))} ::
      Leads(env, m) && Reaches(env, b0, b) && DownAt(env, HoldsFirst(env), b0.buffers, b, src, m) ==>
        ReadRight(b, RequestFor(env, src, m))
  }

  lemma AsSentHere(env: Env, b0: State, b: State, src: Addr, m: nat)
    requires env.Valid() && ReadsDown(env, b0) && Reaches(env, b0, b)
    requires Leads(env, m) && DownAt(env, HoldsFirst(env), b0.buffers, b, src, m)
    ensures var read := AsRead(b.buffers, RequestFor(env, src, m));
            Tokens(read.text) == env.route[..m] && HoldsFirst(env)(read.text, m)
  {
    assert ReadRight(b, RequestFor(env, src, m));
    ReadIsHeld(env, b, src, m);
  }

  lemma ThereNewAndHarmless(env: Env, b0: State, m: nat)
    requires env.Valid() && ReadsDown(env, b0) && CanGetTo(env, HoldsFirst(env), b0, m)
    ensures NewAndHarmless(env, b0, m)
  {
    var src, b :| Reaches(env, b0, b) && DownAt(env, HoldsFirst(env), b0.buffers, b, src, m);
    AsSentHere(env, b0, b, src, m);
    ReadHere(env, b0, b.buffers, m);
  }

  lemma ThereAtTheTop(env: Env, held: (string, nat) -> bool, b0: State)
    requires Init(env, b0) && Leads(env, |env.route|)
    ensures CanGetTo(env, held, b0, |env.route|)
  {
    Paths.ReachesSelf(Steps(env), b0);
    assert env.route[..|env.route|] == env.route;
    assert DownAt(env, held, b0.buffers, b0, env.builder, |env.route|);
  }

  lemma ThereOneDown(env: Env, b0: State, m: nat)
    requires env.Valid() && |env.route| + 1 < PORTS && ReadsDown(env, b0)
    requires CanGetTo(env, HoldsFirst(env), b0, m + 1) && Leads(env, m)
    ensures CanGetTo(env, HoldsFirst(env), b0, m)
  {
    ThereNewAndHarmless(env, b0, m + 1);
    var src, b :| Reaches(env, b0, b) && DownAt(env, HoldsFirst(env), b0.buffers, b, src, m + 1);
    assert ReadRight(b, RequestFor(env, src, m + 1));
    OneDownHere(env, b0, b, src, m);
  }

  lemma OneDownHere(env: Env, b0: State, b: State, src: Addr, m: nat)
    requires env.Valid() && |env.route| + 1 < PORTS && Leads(env, m) && Leads(env, m + 1) && Reaches(env, b0, b)
    requires DownAt(env, HoldsFirst(env), b0.buffers, b, src, m + 1) && NewHost(env, m + 1, HostOf(env, m + 1))
    requires ReadRight(b, RequestFor(env, src, m + 1))
    ensures CanGetTo(env, HoldsFirst(env), b0, m)
  {
    ReadIsHeld(env, b, src, m + 1);
    OneDownFrom(env, HoldsFirst(env), b0, b, src, AsRead(b.buffers, RequestFor(env, src, m + 1)), m);
  }

  lemma ReadIsHeld(env: Env, b: State, src: Addr, m: nat)
    requires env.Valid() && Leads(env, m) && ReadRight(b, RequestFor(env, src, m))
    ensures var read := AsRead(b.buffers, RequestFor(env, src, m));
            Tokens(read.text) == env.route[..m] && HoldsFirst(env)(read.text, m)
  {
    RequestRoundTrip(env, m);
  }

  /** From where the request for m + 1 names is on its way and will be read so, one step leads to the next request. */
  lemma OneDownFrom(env: Env, held: (string, nat) -> bool, b0: State, b: State, src: Addr, read: Request, m: nat)
    requires env.Valid() && |env.route| + 1 < PORTS && Leads(env, m) && Leads(env, m + 1) && Reaches(env, b0, b)
    requires DownAt(env, held, b0.buffers, b, src, m + 1) && NewHost(env, m + 1, HostOf(env, m + 1)) && held(read.text, m + 1)
    requires read == AsRead(b.buffers, RequestFor(env, src, m + 1)) && Tokens(read.text) == env.route[..m + 1]
    ensures CanGetTo(env, held, b0, m)
  {
    var src', b' := ForkDown(env, held, b0.buffers, b, src, read, m);
    SentOn(env, held, b0, b, src, b', src', m, read.text);
  }

  lemma ForkDown(env: Env, held: (string, nat) -> bool, start: Buffers, b: State, src: Addr, read: Request, m: nat)
    returns (src': Addr, b': State)
    requires env.Valid() && m + 2 < PORTS && Leads(env, m) && Leads(env, m + 1)
    requires DownAt(env, held, start, b, src, m + 1)
    requires read == AsRead(b.buffers, RequestFor(env, src, m + 1)) && Tokens(read.text) == env.route[..m + 1]
    ensures Steps(env)(b, b') && RequestFor(env, src', m) in b'.s.requests
    ensures ByLength(b'.s, {env.builder.port}) && RoomBelow(b'.s, m)
    ensures b'.buffers == b.buffers[HostOf(env, m + 1) := read.text]
  {
    src', b' := ForkHere(env, b, RequestFor(env, src, m + 1), read, m);
  }

  lemma SentOn(env: Env, held: (string, nat) -> bool, b0: State, b: State, src: Addr, b': State, src': Addr, m: nat, read: string)
    requires Leads(env, m) && Leads(env, m + 1) && Reaches(env, b0, b) && Steps(env)(b, b')
    requires DownAt(env, held, b0.buffers, b, src, m + 1) && NewHost(env, m + 1, HostOf(env, m + 1)) && held(read, m + 1)
    requires b'.buffers == b.buffers[HostOf(env, m + 1) := read]
    requires RequestFor(env, src', m) in b'.s.requests && ByLength(b'.s, {env.builder.port}) && RoomBelow(b'.s, m)
    ensures CanGetTo(env, held, b0, m)
  {
    OneMoreHeld(env, held, b0.buffers, b.buffers, m, read);
    Paths.ReachThenStep(Steps(env), b0, b, b');
    assert DownAt(env, held, b0.buffers, b', src', m);
  }

  ghost predicate StepsDown(there: nat -> bool, k: nat) {
    there(k + 1) ==> there(k)
  }

  lemma {:induction false} Downwards(there: nat -> bool, top: nat, m: nat)
    requires m <= top && there(top)
    requires forall k: nat {:trigger StepsDown(there, k)} :: m <= k < top ==> StepsDown(there, k)
    ensures there(m)
    decreases top - m
  {
    if m < top {
      Downwards(there, top, m + 1);
      assert StepsDown(there, m);
    }
  }

  ghost function There(env: Env, b0: State): nat -> bool {
    (k: nat) => CanGetTo(env, HoldsFirst(env), b0, k)
  }

  lemma StepDown(env: Env, b0: State, k: nat)
    requires env.Valid() && |env.route| + 1 < PORTS && ReadsDown(env, b0) && Leads(env, k)
    ensures StepsDown(There(env, b0), k)
  {
    if There(env, b0)(k + 1) {
      ThereOneDown(env, b0, k);
    }
  }

  /** Every request of the way can be sent. */
  lemma GoDown(env: Env, b0: State, m: nat)
    requires env.Valid() && |env.route| + 1 < PORTS && Resolves(env.names, env.route) && ReadsDown(env, b0)
    requires There(env, b0)(|env.route|) && 3 <= m <= |env.route|
    ensures There(env, b0)(m)
  {
    forall k: nat | m <= k < |env.route|
      ensures StepsDown(There(env, b0), k)
    {
      StepDown(env, b0, k);
    }
    Downwards(There(env, b0), |env.route|, m);
  }

  lemma RequestRoundTrip(env: Env, m: nat)
    requires env.Valid() && m <= |env.route|
    ensures Tokens(Encode(env.route[..m])) == env.route[..m]
  {
    RouteRoundTripIff(env.route[..m]);
  }

  /** If it is so all the way, then the hosts are distinct and their buffers were harmless. */
  lemma DownMeansHarmless(env: Env, b0: State)
    requires Init(env, b0) && |env.route| + 1 < PORTS && Resolves(env.names, env.route) && ReadsDown(env, b0)
    ensures DistinctHosts(env) && HarmlessBuffers(env, b0.buffers)
  {
    forall m | Leads(env, m)
      ensures NewAndHarmless(env, b0, m)
    {
      ThereAtTheTop(env, HoldsFirst(env), b0);
      GoDown(env, b0, m);
      ThereNewAndHarmless(env, b0, m);
    }
    forall i, j | 2 <= i < j < |env.route|
      ensures env.names[env.route[i]] != env.names[env.route[j]]
    {
      assert Leads(env, i + 1) && Leads(env, j + 1) && NewAndHarmless(env, b0, i + 1);
    }
  }

  lemma ReadsAllDown(env: Env, b0: State)
    requires AllReadAsSent(env, b0)
    ensures ReadsDown(env, b0)
  {
    forall b, src, m: nat | Leads(env, m) && Reaches(env, b0, b) && DownAt(env, HoldsFirst(env), b0.buffers, b, src, m)
      ensures ReadRight(b, RequestFor(env, src, m))
    {
    }
  }

  /** On a route whose names resolve, routers read all texts as sent if and only if no two of them are on one host and
      nothing is left in their buffers that could be read on from their lists. */
  lemma AllReadAsSentIff(env: Env, b0: State)
    requires Init(env, b0) && |env.route| + 1 < PORTS && Resolves(env.names, env.route)
    ensures AllReadAsSent(env, b0) <==> DistinctHosts(env) && HarmlessBuffers(env, b0.buffers)
  {
    if AllReadAsSent(env, b0) {
      ReadsAllDown(env, b0);
      DownMeansHarmless(env, b0);
    }
    if DistinctHosts(env) && HarmlessBuffers(env, b0.buffers) {
      DistinctReadAsSent(env, b0);
    }
  }

  // ---- which routes can be set up

  /** Some run from b0 has led to these processes and messages, with harmless buffers. */
  ghost predicate Lifted(env: Env, b0: State, s: OverlaySetup.State) {
    OverlaySetup.Inv(env, s)
    && exists buffers :: Reaches(env, b0, Buffered(s, buffers)) && HarmlessBuffers(env, buffers)
  }

  lemma LiftedStep(env: Env, b0: State, s: OverlaySetup.State, a: OverlaySetup.Action, s': OverlaySetup.State)
    requires DistinctHosts(env) && Lifted(env, b0, s) && OverlaySetup.Next(env, s, a, s')
    ensures Lifted(env, b0, s')
  {
    var buffers :| Reaches(env, b0, Buffered(s, buffers)) && HarmlessBuffers(env, buffers);
    var buffers' := BuffersAfter(buffers, a);
    StepsAgree(env, s, buffers, a, s', buffers');
    assert Next(env, Buffered(s, buffers), a, Buffered(s', buffers'));
    Paths.ReachThenStep(Steps(env), b0, Buffered(s, buffers), Buffered(s', buffers'));
    OverlaySetup.NextInv(env, s, a, s');
  }

  /** With distinct hosts whatever the system that reads as sent reaches is reached. */
  lemma LiftedReach(env: Env, b0: State, s: OverlaySetup.State)
    requires Init(env, b0) && HarmlessBuffers(env, b0.buffers) && DistinctHosts(env)
    requires OverlaySetup.Reaches(env, b0.s, s)
    ensures Lifted(env, b0, s)
  {
    OverlaySetup.InitInv(env, b0.s);
    Paths.ReachesSelf(Steps(env), b0);
    assert b0 == Buffered(b0.s, b0.buffers);
    forall x, y | Lifted(env, b0, x) && OverlaySetup.Steps(env)(x, y)
      ensures Lifted(env, b0, y)
    {
      var act :| OverlaySetup.Next(env, x, act, y);
      LiftedStep(env, b0, x, act, y);
    }
    Paths.KeptByReach(OverlaySetup.Steps(env), x => Lifted(env, b0, x), b0.s, s);
  }

  /** Some run gives the builder a port. */
  ghost predicate CanSucceed(env: Env, b0: State) {
    exists b :: Reaches(env, b0, b) && b.s.outcome.Success?
  }

  /** Whatever the routers' buffers hold from before: a route can be set up exactly when the destination and every router
      resolve, no two routers are on one host, and no buffer holds anything that its router's list could run on into. */
  lemma SetupSucceedsIff(env: Env, b0: State)
    requires Init(env, b0) && |env.route| + 1 < PORTS
    ensures CanSucceed(env, b0) <==>
              Resolves(env.names, env.route) && DistinctHosts(env) && HarmlessBuffers(env, b0.buffers)
  {
    if CanSucceed(env, b0) {
      var b :| Reaches(env, b0, b) && b.s.outcome.Success?;
      SuccessMeansDistinctHosts(env, b0, b);
    }
    if Resolves(env.names, env.route) && DistinctHosts(env) && HarmlessBuffers(env, b0.buffers) {
      var s := CanGetAPort(env, b0.s, {env.builder.port});
      LiftedReach(env, b0, s);
      var buffers :| Reaches(env, b0, Buffered(s, buffers)) && HarmlessBuffers(env, buffers);
      assert Buffered(s, buffers).s.outcome.Success?;
    }
  }

  /** With distinct hosts runs can forget their buffers. */
  lemma ForgetBuffers(env: Env, b0: State, b: State)
    requires Init(env, b0) && HarmlessBuffers(env, b0.buffers) && DistinctHosts(env) && Reaches(env, b0, b)
    ensures OverlaySetup.Reaches(env, b0.s, b.s)
  {
    OverlaySetup.InitInv(env, b0.s);
    Paths.ReachesSelf(OverlaySetup.Steps(env), b0.s);
    forall x, y | AsSentSoFar(env, x) && OverlaySetup.Reaches(env, b0.s, x.s) && Steps(env)(x, y)
      ensures AsSentSoFar(env, y) && OverlaySetup.Reaches(env, b0.s, y.s)
    {
      var act :| Next(env, x, act, y);
      StepsAgree(env, x.s, x.buffers, act, y.s, y.buffers);
      OverlaySetup.NextInv(env, x.s, act, y.s);
      Paths.ReachThenStep(OverlaySetup.Steps(env), b0.s, x.s, y.s);
    }
    Paths.KeptByReach(Steps(env), x => AsSentSoFar(env, x) && OverlaySetup.Reaches(env, b0.s, x.s), b0, b);
  }

  /** If the builder is given a port, then the routers of the route were visited in order: a process of router 1
      listens on that port, each relays to the port that the next one opened, the last one to the destination, at the port
      that the second name of the route spells. */
  lemma SuccessMeansLinkedPath(env: Env, b0: State, b: State) returns (hops: seq<Addr>)
    requires Init(env, b0) && Reaches(env, b0, b) && b.s.outcome.Success?
    ensures IsChain(env, b.s.children, env.route, hops)
    ensures hops[0].port == b.s.outcome.port && b.s.children[hops[0]].upstream == env.builder
    ensures forall i, j :: 0 <= i < j < |hops| ==> hops[i].host != hops[j].host
    ensures forall p: nat {:trigger Spells(env.route[1], p)} :: Spells(env.route[1], p) ==>
              b.s.children[hops[|hops| - 1]].mode.next == Addr(env.names[env.route[0]], p % 65536)
  {
    SuccessMeansDistinctHosts(env, b0, b);
    ForgetBuffers(env, b0, b);
    hops := OverlaySetup.SuccessMeansLinkedPath(env, b0.s, b.s);
    ChainHosts(env, b.s.children, hops);
    forall p: nat | Spells(env.route[1], p)
      ensures b.s.children[hops[|hops| - 1]].mode.next == Addr(env.names[env.route[0]], p % 65536)
    {
      ChainEndsAtPort(env, b.s.children, hops, p);
    }
  }

  lemma ChainHosts(env: Env, children: map<Addr, Child>, hops: seq<Addr>)
    requires IsChain(env, children, env.route, hops) && DistinctHosts(env)
    ensures forall i, j :: 0 <= i < j < |hops| ==> hops[i].host != hops[j].host
  {
    var n := |env.route|;
    forall i, j | 0 <= i < j < |hops|
      ensures hops[i].host != hops[j].host
    {
      assert hops[i].host == env.names[env.route[n - 1 - i]] && hops[j].host == env.names[env.route[n - 1 - j]];
    }
  }

  /** A route of two hops over one router: everything resolves, and texts read as sent would set it up, but it can not be. */
  lemma RouterTwiceFails() returns (env: Env, b0: State)
    ensures env.route == ["d", "1", "r", "r"] && Resolves(env.names, env.route)
    ensures Init(env, b0) && b0.buffers == map[]
    ensures OverlaySetup.CanSucceed(env, b0.s) && !CanSucceed(env, b0)
  {
    env := Env(map["d" := 1, "r" := 2], ["d", "1", "r", "r"], Addr(3, 4));
    b0 := Buffered(OverlaySetup.State.State(map[], {Request(env.builder, 2, Encode(env.route))}, {}, Pending), map[]);
    EmptyIsHarmless(env);
    OverlaySetup.SetupSucceedsIff(env, b0.s);
    SetupSucceedsIff(env, b0);
    assert env.route[2] == env.route[3];
  }

  /** A route of one hop over a router that has served a longer one: everything resolves, no two routers are on one host,
      and it can not be set up, because the router still reads the name of the other route's last router. */
  lemma StaleListFails() returns (env: Env, b0: State)
    ensures env.route == ["d", "1", "r"] && Resolves(env.names, env.route) && DistinctHosts(env)
    ensures Init(env, b0) && b0.buffers == map[env.names["r"] := Encode(["d", "1", "q", "r"])]
    ensures OverlaySetup.CanSucceed(env, b0.s) && !CanSucceed(env, b0)
  {
    env := Env(map["d" := 1, "r" := 2], ["d", "1", "r"], Addr(3, 4));
    b0 := Buffered(OverlaySetup.State.State(map[], {Request(env.builder, 2, Encode(env.route))}, {}, Pending),
                   map[2 := Encode(["d", "1", "q", "r"])]);
    OverlaySetup.SetupSucceedsIff(env, b0.s);
    StaleListIsNotHarmless(env, b0.buffers);
    SetupSucceedsIff(env, b0);
  }

  lemma StaleTexts()
    ensures Encode(["d", "1", "q", "r"]) == "$d$1$q$r$" && Encode(["d", "1", "r"]) == "$d$1$r$"
  {
    FlatOne("r", []);
    FlatOne("q", ["r"]);
    FlatOne("1", ["q", "r"]);
    FlatOne("d", ["1", "q", "r"]);
    FlatOne("1", ["r"]);
    FlatOne("d", ["1", "r"]);
  }

  lemma FlatOne(t: string, ts: seq<string>)
    ensures Flat([t] + ts) == t + "$" + Flat(ts)
  {
    assert ([t] + ts)[1..] == ts;
  }

  lemma StaleListIsNotHarmless(env: Env, buffers: Buffers)
    requires env.route == ["d", "1", "r"] && env.names == map["d" := 1, "r" := 2]
    requires buffers == map[2 := Encode(["d", "1", "q", "r"])]
    ensures !HarmlessBuffers(env, buffers)
  {
    StaleTexts();
    LongestIs(env, 3);
    assert env.route[..3] == env.route;
    assert "$d$1$q$r$"[7..] == "r$";
    StrTokOfFlat("r", "");
    assert !HarmlessAt(env, buffers, 3);
  }

  /** Each process holds first names of the route. */
  ghost predicate HoldPrefixes(env: Env, children: map<Addr, Child>) {
    forall a :: a in children ==> children[a].tokens <= env.route
  }

  lemma PrefixStep(env: Env, b: State, a: OverlaySetup.Action, b': State)
    requires Inv(env, b) && Next(env, b, a, b') && HoldPrefixes(env, b.s.children)
    ensures HoldPrefixes(env, b'.s.children)
  {
    match a
    case Spawn(req, port) =>
      RequestRead(env, b, req);
      OpenShape(env.names, AsRead(b.buffers, req), Addr(req.dstHost, port));
    case Response(at, reply) => HearShape(env.names, b.s.children[at], at, reply.text);
    case _ =>
  }

  /** Every process holds the longest list of first names of the route that leads to its host. */
  ghost predicate OnRoute(env: Env, children: map<Addr, Child>) {
    forall a {:trigger OnRouteAt(env, children, a)} :: a in children ==> OnRouteAt(env, children, a)
  }

  ghost predicate OnRouteAt(env: Env, children: map<Addr, Child>, a: Addr)
    requires a in children
  {
    var ts := children[a].tokens;
    ts <= env.route && Leads(env, |ts|) && a.host == HostOf(env, |ts|) && |ts| == Longest(env, a.host)
  }

  /** Nobody else is ever involved, whatever the route. */
  lemma OnlyTheRouteIsVisited(env: Env, b0: State, b: State)
    requires Init(env, b0) && HarmlessBuffers(env, b0.buffers) && Reaches(env, b0, b)
    ensures OnRoute(env, b.s.children)
  {
    InitInv(env, b0);
    forall x, y | Inv(env, x) && HoldPrefixes(env, x.s.children) && Steps(env)(x, y)
      ensures Inv(env, y) && HoldPrefixes(env, y.s.children)
    {
      var act :| Next(env, x, act, y);
      NextInv(env, x, act, y);
      PrefixStep(env, x, act, y);
    }
    Paths.KeptByReach(Steps(env), x => Inv(env, x) && HoldPrefixes(env, x.s.children), b0, b);
    forall a | a in b.s.children
      ensures OnRouteAt(env, b.s.children, a)
    {
      assert ChildOk(env, b.s.children, a);
    }
  }

  /** In no run is there a process of anyone else. */
  ghost predicate NobodyElse(env: Env, b0: State) {
    forall b {:trigger OnRoute(env, b.s.children)} :: Reaches(env, b0, b) ==> OnRoute(env, b.s.children)
  }

  /** The request for m names can be taken by a process that shows what is read. */
  lemma ShownWhatIsRead(env: Env, b0: State, b: State, src: Addr, m: nat) returns (self: Addr, b': State)
    requires Init(env, b0) && |env.route| + 1 < PORTS && Leads(env, m)
    requires Reaches(env, b0, b) && DownAt(env, HoldsFirst(env), b0.buffers, b, src, m)
    ensures Reaches(env, b0, b') && self in b'.s.children && self.host == HostOf(env, m)
    ensures b'.s.children[self].tokens == Tokens(AsRead(b.buffers, RequestFor(env, src, m)).text)
    ensures env.route[..m] <= b'.s.children[self].tokens
  {
    var req := RequestFor(env, src, m);
    var read := AsRead(b.buffers, req);
    self := Addr(req.dstHost, PortFor({env.builder.port}, m));
    ReadsOn(Buffer(b.buffers, req.dstHost), env.route[..m]);
    PortIsFree(env, b.s, self, m);
    OpenShape(env.names, read, self);
    var o := Open(env.names, read, self);
    var s' := b.s.(children := b.s.children[self := o.child], requests := b.s.requests + AsSet(o.forward),
                   replies := b.s.replies + AsSet(o.answer));
    b' := Served(env, b, req, self.port, s');
    Paths.ReachThenStep(Steps(env), b0, b, b');
  }

  lemma NobodyElseReads(env: Env, b0: State)
    requires Init(env, b0) && |env.route| + 1 < PORTS && DistinctHosts(env) && NobodyElse(env, b0)
    ensures ReadsDown(env, b0)
  {
    forall b, src, m: nat | Leads(env, m) && Reaches(env, b0, b) && DownAt(env, HoldsFirst(env), b0.buffers, b, src, m)
      ensures ReadRight(b, RequestFor(env, src, m))
    {
      var self, b' := ShownWhatIsRead(env, b0, b, src, m);
      assert OnRoute(env, b'.s.children) && OnRouteAt(env, b'.s.children, self);
      DistinctLongest(env, m);
      RequestRoundTrip(env, m);
    }
  }

  /** On a route that resolves, with routers on different hosts, that is so if and only if their buffers are harmless. */
  lemma OnlyTheRouteIsVisitedIff(env: Env, b0: State)
    requires Init(env, b0) && |env.route| + 1 < PORTS && Resolves(env.names, env.route) && DistinctHosts(env)
    ensures NobodyElse(env, b0) <==> HarmlessBuffers(env, b0.buffers)
  {
    if NobodyElse(env, b0) {
      NobodyElseReads(env, b0);
      DownMeansHarmless(env, b0);
    }
    if HarmlessBuffers(env, b0.buffers) {
      forall b | Reaches(env, b0, b)
        ensures OnRoute(env, b.s.children)
      {
        OnlyTheRouteIsVisited(env, b0, b);
      }
    }
  }
}
